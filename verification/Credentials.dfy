/** The password check of the handshake, and what a client sends for it. */
module Credentials {
  import opened Codec
  import opened Wire
  import opened Session

  const COLON: byte := 58
  const SECRET_SIZE: nat := 256

  function FirstColon(s: seq<byte>): (i: nat)
    ensures i <= |s| && (i < |s| ==> s[i] == COLON) && forall k :: 0 <= k < i ==> s[k] != COLON
  {
    if s == [] || s[0] == COLON then 0 else 1 + FirstColon(s[1..])
  }

  function Padded(s: seq<byte>): (p: seq<byte>)
    requires |s| <= SECRET_SIZE
    ensures |p| == SECRET_SIZE
  {
    s + Fill(0, SECRET_SIZE - |s|)
  }

  /** The password in "user:password", or all of it without a colon; one final NUL is
      dropped, and what exceeds 255 bytes. */
  function PasswordOf(creds: seq<byte>): (p: seq<byte>)
    ensures |p| <= 255
  {
    var i := FirstColon(creds);
    var pw := if i < |creds| then creds[i + 1..] else creds;
    var pw1 := if pw != [] && pw[|pw| - 1] == 0 then pw[..|pw| - 1] else pw;
    if |pw1| > 255 then pw1[..255] else pw1
  }

  /** secret: the password, padded with zeros to 256 bytes. */
  predicate Accepts(creds: seq<byte>, secret: seq<byte>) {
    creds != [] && Padded(PasswordOf(creds)) == secret
  }

  /** A C string. */
  predicate Text(s: seq<byte>) { forall k :: 0 <= k < |s| ==> s[k] != 0 }

  lemma PadZeros(a: seq<byte>, k: nat)
    requires Text(a) && |a| <= 255 && k < SECRET_SIZE
    ensures Padded(a)[k] == 0 <==> k >= |a|
  {
  }

  lemma PaddedInjective(a: seq<byte>, b: seq<byte>)
    requires Text(a) && Text(b) && |a| <= 255 && |b| <= 255 && Padded(a) == Padded(b)
    ensures a == b
  {
    PadZeros(a, |a|);
    PadZeros(a, |b|);
    PadZeros(b, |a|);
    PadZeros(b, |b|);
    forall k | 0 <= k < |a| ensures a[k] == b[k] { assert Padded(a)[k] == Padded(b)[k]; }
  }

  /** What the client sends: nothing if it does not fit its buffer, else the length, in a
      byte, and the credentials with a final NUL. */
  function ClientBytes(user: seq<byte>, password: seq<byte>): seq<byte> {
    var creds := user + [COLON] + password;
    if |creds| >= 256 then [] else [(|creds| + 1) % 256] + creds + [0]
  }

  /** The server's view of them: the credentials of the announced length. */
  predicate Admitted(sent: seq<byte>, secret: seq<byte>) {
    sent != [] && sent[0] > 0 && |sent| >= 1 + sent[0] as int && Accepts(sent[1..1 + sent[0] as int], secret)
  }

  lemma ColonAt(user: seq<byte>, rest: seq<byte>)
    requires COLON !in user
    ensures FirstColon(user + [COLON] + rest) == |user|
    decreases |user|
  {
    var s := user + [COLON] + rest;
    if user != [] {
      assert s[1..] == user[1..] + [COLON] + rest;
      ColonAt(user[1..], rest);
    }
  }

  /** What the server takes for the password is what was sent as it. */
  lemma PasswordSent(user: seq<byte>, password: seq<byte>)
    requires COLON !in user && |password| <= 255
    ensures PasswordOf(user + [COLON] + password + [0]) == password
  {
    var seen := user + [COLON] + (password + [0]);
    assert seen == user + [COLON] + password + [0];
    ColonAt(user, password + [0]);
    assert seen[|user| + 1..] == password + [0];
    assert (password + [0])[..|password|] == password;
  }

  /** Without a colon all of it is the password, but for one final NUL and what exceeds 255 bytes. */
  lemma PasswordWithoutColon(creds: seq<byte>)
    requires 58 !in creds
    ensures |creds| <= 255 && (creds == [] || creds[|creds| - 1] != 0) ==> PasswordOf(creds) == creds
    ensures |creds| <= 255 ==> PasswordOf(creds + [0]) == creds
  {
    NoColon(creds);
    NoColon(creds + [0]);
    assert (creds + [0])[..|creds|] == creds;
  }

  lemma {:induction false} NoColon(s: seq<byte>)
    requires 58 !in s
    ensures FirstColon(s) == |s|
  {
    if s != [] { NoColon(s[1..]); }
  }

  /** The bytes a client sends. */
  lemma ClientSends(user: seq<byte>, password: seq<byte>)
    ensures var n := |user| + |password|;
      ClientBytes(user, password) ==
        if n > 254 then [] else [if n == 254 then 0 else n + 2] + user + [58] + password + [0]
  {
    var creds := user + [COLON] + password;
    var n := |user| + |password|;
    if n <= 254 {
      assert [(|creds| + 1) % 256] + creds + [0] == [(|creds| + 1) % 256] + user + [58] + password + [0];
    }
  }

  /** A user without a colon in the name is admitted exactly with the right password and if
      both together have at most 253 bytes; with one more the announced length wraps to 0. */
  lemma AdmittedIff(user: seq<byte>, password: seq<byte>, right: seq<byte>)
    requires Text(user) && Text(password) && Text(right) && |right| <= 255 && COLON !in user
    ensures Admitted(ClientBytes(user, password), Padded(right)) <==> password == right && |user| + |password| <= 253
  {
    var creds := user + [COLON] + password;
    var sent := ClientBytes(user, password);
    if |creds| <= 254 {
      hide PasswordOf, Padded;
      assert sent[1..1 + sent[0] as int] == creds + [0];
      PasswordSent(user, password);
      if Padded(password) == Padded(right) { PaddedInjective(password, right); }
    }
  }

  /** The servers' policy with a password. */
  function PasswordPolicy(secret: seq<byte>): Policy { Policy(true, c => Accepts(c, secret)) }

  lemma AuthorizedIffAdmitted(asked: byte, sent: seq<byte>, secret: seq<byte>)
    ensures Authorized(PasswordPolicy(secret), [VERSION, asked] + sent) <==> Admitted(sent, secret)
  {
    hide Accepts;
    var s := [VERSION, asked] + sent;
    if sent != [] && |sent| >= 1 + sent[0] as int { assert s[3..3 + s[2] as int] == sent[1..1 + sent[0] as int]; }
  }

  /** Either server takes frames from the client exactly then. */
  lemma ClientServedIff(kind: Kind, asked: byte, user: seq<byte>, password: seq<byte>, right: seq<byte>)
    requires Text(user) && Text(password) && Text(right) && |right| <= 255 && COLON !in user
    ensures Served(Feed(kind, PasswordPolicy(Padded(right)), START, [VERSION, asked] + ClientBytes(user, password)).log)
       <==> password == right && |user| + |password| <= 253
  {
    hide PasswordPolicy, Authorized, Admitted, ClientBytes, Feed, Served, Padded;
    var sent := ClientBytes(user, password);
    ServesIffAuthorized(kind, PasswordPolicy(Padded(right)), [VERSION, asked] + sent);
    AuthorizedIffAdmitted(asked, sent, Padded(right));
    AdmittedIff(user, password, right);
  }
}
