/** The server's side of a connection as a machine over single bytes: version
    handshake, credentials, then frames.  The older server and the poll-based one
    are the same machine up to two differences. */
module Session {
  import opened Wrappers
  import opened Codec
  import opened Wire

  /** Which server: the older one evaluates response frames like requests, and on an
      empty credential string hangs up at the next byte instead of answering. */
  datatype Kind = Poll | Legacy

  /** `accept` stands for the password comparison and the user's own check. */
  datatype Policy = Policy(auth: bool, accept: seq<byte> -> bool)

  datatype Phase = Shake | CredLen | Creds(n: nat) | Doomed | Head | Payload(h: Header) | Dead

  datatype Event =
    | Sent(bytes: seq<byte>)
    | Opened
    | Dispatched(h: Header, body: seq<byte>)
    | Deposited(h: Header, body: seq<byte>)        // a response frame

  /** The phase, the bytes of it received so far, and what has happened. */
  datatype Conn = Conn(phase: Phase, buf: seq<byte>, log: seq<Event>)

  const START := Conn(Shake, [], [])

  function Need(p: Phase): nat {
    match p
    case Shake => 2
    case CredLen => 1
    case Creds(n) => n
    case Doomed => 1
    case Head => HEADER_SIZE
    case Payload(h) => h.size
    case Dead => 0
  }

  ghost predicate Valid(c: Conn) { c.phase.Dead? || |c.buf| < Need(c.phase) }

  /** The phase is complete. */
  function Advance(kind: Kind, pol: Policy, p: Phase, buf: seq<byte>): (r: (Phase, seq<Event>))
    requires !p.Dead? && |buf| == Need(p) > 0
    ensures r.0.Dead? || Need(r.0) > 0
  {
    match p
    case Shake =>
      if buf[0] != VERSION then (Dead, [])
      else if pol.auth then (CredLen, [Sent([VERSION, 1])])
      else (Head, [Sent([VERSION, 0]), Opened])
    case CredLen =>
      if buf[0] > 0 then (Creds(buf[0]), [])
      else if kind.Legacy? then (Doomed, [])
      else (Dead, [Sent([1])])
    case Creds(_) =>
      if pol.accept(buf) then (Head, [Sent([0]), Opened]) else (Dead, [Sent([1])])
    case Doomed => (Dead, [])
    case Head =>
      (match ReadHeader(buf)
       case None => (Dead, [])
       case Some(h) => (Payload(h), []))
    case Payload(h) =>
      (Head, [if kind.Poll? && h.msgtype == RESP then Deposited(h, buf) else Dispatched(h, buf)])
  }

  function Feed1(kind: Kind, pol: Policy, c: Conn, b: byte): (d: Conn)
    requires Valid(c)
    ensures Valid(d)
  {
    if c.phase.Dead? then c
    else if |c.buf| + 1 < Need(c.phase) then c.(buf := c.buf + [b])
    else
      var r := Advance(kind, pol, c.phase, c.buf + [b]);
      Conn(r.0, [], c.log + r.1)
  }

  function Feed(kind: Kind, pol: Policy, c: Conn, s: seq<byte>): (d: Conn)
    requires Valid(c)
    ensures Valid(d)
    decreases |s|
  {
    if s == [] then c else Feed(kind, pol, Feed1(kind, pol, c, s[0]), s[1..])
  }

  /** However the stream is cut into chunks. */
  lemma {:induction false} FeedConcat(kind: Kind, pol: Policy, c: Conn, a: seq<byte>, b: seq<byte>)
    requires Valid(c)
    ensures Feed(kind, pol, c, a + b) == Feed(kind, pol, Feed(kind, pol, c, a), b)
    decreases |a|
  {
    if a == [] {
      assert a + b == b;
    } else {
      assert (a + b)[1..] == a[1..] + b;
      FeedConcat(kind, pol, Feed1(kind, pol, c, a[0]), a[1..], b);
    }
  }

  /** Several bytes at once: they wait in the buffer until the phase is complete. */
  lemma {:induction false} FeedChunk(kind: Kind, pol: Policy, c: Conn, s: seq<byte>)
    requires Valid(c) && !c.phase.Dead? && |c.buf| + |s| <= Need(c.phase)
    ensures |c.buf| + |s| < Need(c.phase) ==> Feed(kind, pol, c, s) == c.(buf := c.buf + s)
    ensures |c.buf| + |s| == Need(c.phase) ==>
      var r := Advance(kind, pol, c.phase, c.buf + s);
      Feed(kind, pol, c, s) == Conn(r.0, [], c.log + r.1)
    decreases |s|
  {
    if s == [] {
      assert c.buf + s == c.buf;
    } else if |s| == 1 {
      assert s[1..] == [] && c.buf + s == c.buf + [s[0]];
    } else {
      var d := Feed1(kind, pol, c, s[0]);
      assert d.buf + s[1..] == c.buf + s;
      FeedChunk(kind, pol, d, s[1..]);
    }
  }

  // ---------- delivery ----------

  /** A run of framed messages. */
  function Frames(ms: seq<Message>): seq<byte>
  {
    if ms == [] then [] else Frame(ms[0]) + Frames(ms[1..])
  }

  function Arrival(kind: Kind, m: Message): Event
  {
    if kind.Poll? && m.msgtype == RESP then Deposited(HeaderOf(m), Body(m)) else Dispatched(HeaderOf(m), Body(m))
  }

  function Arrivals(kind: Kind, ms: seq<Message>): seq<Event>
  {
    if ms == [] then [] else [Arrival(kind, ms[0])] + Arrivals(kind, ms[1..])
  }

  ghost predicate Sendable(m: Message) { 0 < |m.payload| <= MAX_SIZE }

  /** The event hands over that message: its kind, and a body that unpacks to its payload. */
  ghost predicate Carries(e: Event, m: Message) {
    (e.Dispatched? || e.Deposited?) && e.h.msgtype == m.msgtype && Unpacked(e.h, e.body) == Some(m.payload)
  }

  /** One event for each message, in order. */
  ghost predicate CarryAll(es: seq<Event>, ms: seq<Message>) {
    |es| == |ms| && forall i :: 0 <= i < |ms| ==> Carries(es[i], ms[i])
  }

  lemma FeedFrame(kind: Kind, pol: Policy, c: Conn, m: Message)
    requires c.phase.Head? && c.buf == [] && Sendable(m)
    ensures Feed(kind, pol, c, Frame(m)) == c.(log := c.log + [Arrival(kind, m)])
    ensures Carries(Arrival(kind, m), m)
  {
    hide Feed, Unpacked, HeaderBytes, ReadHeader, Packed, Flags, Body;
    FrameAccepted(m);
    FeedConcat(kind, pol, c, HeaderBytes(HeaderOf(m)), Body(m));
    FeedParts(kind, pol, c, HeaderOf(m), HeaderBytes(HeaderOf(m)), Body(m));
  }

  /** A header that is accepted, then as many bytes as it announces. */
  lemma FeedParts(kind: Kind, pol: Policy, c: Conn, h: Header, hb: seq<byte>, body: seq<byte>)
    requires c.phase.Head? && c.buf == [] && |hb| == HEADER_SIZE && ReadHeader(hb) == Some(h) && h.size == |body|
    ensures Feed(kind, pol, Feed(kind, pol, c, hb), body)
         == c.(log := c.log + [if kind.Poll? && h.msgtype == RESP then Deposited(h, body) else Dispatched(h, body)])
  {
    hide Feed, ReadHeader;
    assert [] + hb == hb && [] + body == body && c.log + [] == c.log;
    FeedChunk(kind, pol, c, hb);
    FeedChunk(kind, pol, Conn(Payload(h), [], c.log), body);
  }

  /** For any list of messages: the reader delivers exactly their payloads, in order,
      each once, and is ready for the next. */
  lemma {:induction false} Delivery(kind: Kind, pol: Policy, c: Conn, ms: seq<Message>)
    requires c.phase.Head? && c.buf == [] && forall i :: 0 <= i < |ms| ==> Sendable(ms[i])
    ensures Feed(kind, pol, c, Frames(ms)) == c.(log := c.log + Arrivals(kind, ms)) && CarryAll(Arrivals(kind, ms), ms)
    decreases |ms|
  {
    if ms == [] {
      assert c.log + [] == c.log;
    } else {
      hide Frame, Unpacked, Arrival;
      var e, f, rest := Arrival(kind, ms[0]), Frame(ms[0]), Frames(ms[1..]);
      var d := c.(log := c.log + [e]);
      FeedConcat(kind, pol, c, f, rest);
      FeedFrame(kind, pol, c, ms[0]);
      Delivery(kind, pol, d, ms[1..]);
      LogAppend(c.log, e, Arrivals(kind, ms[1..]));
    }
  }

  lemma LogAppend(log: seq<Event>, e: Event, rest: seq<Event>)
    ensures log + ([e] + rest) == log + [e] + rest
  {
  }

  // ---------- the two servers agree ----------

  /** A response frame is evaluated by the older server and deposited by the other. */
  function Relabel(e: Event): Event {
    if e.Dispatched? && e.h.msgtype == RESP then Deposited(e.h, e.body) else e
  }

  function Relabelled(log: seq<Event>): (r: seq<Event>)
    ensures |r| == |log| && forall i :: 0 <= i < |log| ==> r[i] == Relabel(log[i])
  {
    seq(|log|, i requires 0 <= i < |log| => Relabel(log[i]))
  }

  /** Same phase and same bytes, past the version exchange; the same log but for that. */
  ghost predicate Together(p: Conn, l: Conn) {
    p.phase == l.phase && p.buf == l.buf && !p.phase.Shake? && !p.phase.Doomed? && p.log == Relabelled(l.log)
  }

  /** A length of 0 is what the two take differently. */
  lemma AdvanceTogether(pol: Policy, p: Conn, l: Conn, buf: seq<byte>)
    requires Together(p, l) && !p.phase.Dead? && |buf| == Need(p.phase) > 0 && (p.phase.CredLen? ==> buf[0] > 0)
    ensures var a := Advance(Poll, pol, p.phase, buf); var b := Advance(Legacy, pol, l.phase, buf);
      Together(Conn(a.0, [], p.log + a.1), Conn(b.0, [], l.log + b.1)) && !a.0.CredLen?
  {
    var a, b := Advance(Poll, pol, p.phase, buf), Advance(Legacy, pol, l.phase, buf);
    assert a.1 == Relabelled(b.1);
    assert Relabelled(l.log + b.1) == Relabelled(l.log) + Relabelled(b.1);
  }

  lemma {:induction false} StayTogether(pol: Policy, p: Conn, l: Conn, s: seq<byte>)
    requires Valid(p) && Valid(l) && Together(p, l) && (p.phase.CredLen? && s != [] ==> s[0] > 0)
    ensures Feed(Poll, pol, p, s).log == Relabelled(Feed(Legacy, pol, l, s).log)
    decreases |s|
  {
    if s != [] {
      if !p.phase.Dead? && |p.buf| + 1 == Need(p.phase) { AdvanceTogether(pol, p, l, p.buf + [s[0]]); }
      StayTogether(pol, Feed1(Poll, pol, p, s[0]), Feed1(Legacy, pol, l, s[0]), s[1..]);
    }
  }

  /** A password is set, and the stream announces no credentials at all. */
  predicate EmptyCreds(pol: Policy, s: seq<byte>) {
    pol.auth && |s| >= 3 && s[0] == VERSION && s[2] == 0
  }

  /** Both servers behind the version exchange. */
  lemma VersionTogether(kind: Kind, pol: Policy, s: seq<byte>)
    requires |s| == 2
    ensures Feed(kind, pol, START, s) ==
      if s[0] != VERSION then Conn(Dead, [], [])
      else if pol.auth then Conn(CredLen, [], [Sent([VERSION, 1])])
      else Conn(Head, [], [Sent([VERSION, 0]), Opened])
  {
    hide Feed;
    assert [] + s == s;
    FeedChunk(kind, pol, START, s);
    assert START.log + [] == [] && START.log + [Sent([VERSION, 1])] == [Sent([VERSION, 1])];
    assert START.log + [Sent([VERSION, 0]), Opened] == [Sent([VERSION, 0]), Opened];
  }

  /** The newer server answers empty credentials, and the older one says nothing more. */
  lemma EmptyCredsLogs(kind: Kind, pol: Policy, s: seq<byte>)
    requires s != [] && s[0] == 0
    ensures Feed(kind, pol, Conn(CredLen, [], [Sent([VERSION, 1])]),
                 s).log == [Sent([VERSION, 1])] + (if kind.Poll? then [Sent([1])] else [])
  {
    var c := Conn(CredLen, [], [Sent([VERSION, 1])]);
    assert [] + [s[0]] == [s[0]];
    DeadStays(kind, pol, Feed1(kind, pol, c, s[0]), s[1..]);
  }

  /** For any byte stream, in any two chunkings (FeedConcat), the logs are the same, except
      that response frames are evaluated by the older server, and that only the newer one
      answers empty credentials. */
  lemma LogsDifferIn(pol: Policy, s: seq<byte>)
    ensures Feed(Poll, pol, START, s).log
         == Relabelled(Feed(Legacy, pol, START, s).log) + (if EmptyCreds(pol, s) then [Sent([1])] else [])
  {
    if |s| < 2 {
      FeedChunk(Poll, pol, START, s);
      FeedChunk(Legacy, pol, START, s);
    } else {
      hide Feed;
      var v, rest := s[..2], s[2..];
      assert s == v + rest;
      FeedConcat(Poll, pol, START, v, rest);
      FeedConcat(Legacy, pol, START, v, rest);
      VersionTogether(Poll, pol, v);
      VersionTogether(Legacy, pol, v);
      if EmptyCreds(pol, s) {
        EmptyCredsLogs(Poll, pol, rest);
        EmptyCredsLogs(Legacy, pol, rest);
      } else {
        StayTogether(pol, Feed(Poll, pol, START, v), Feed(Legacy, pol, START, v), rest);
      }
    }
  }

  /** The requests in a log: every frame evaluated, response frames left out. */
  function Requests(log: seq<Event>): seq<Event> {
    if log == [] then []
    else
      var last := log[|log| - 1];
      Requests(log[..|log| - 1]) + (if last.Dispatched? && last.h.msgtype != RESP then [last] else [])
  }

  lemma {:induction false} RequestsRelabelled(log: seq<Event>)
    ensures Requests(Relabelled(log)) == Requests(log)
    decreases |log|
  {
    if log != [] {
      var n := |log| - 1;
      assert Relabelled(log)[..n] == Relabelled(log[..n]);
      RequestsRelabelled(log[..n]);
    }
  }

  /** The two servers evaluate the same requests in the same order. */
  lemma ServersAgree(pol: Policy, s: seq<byte>)
    ensures Requests(Feed(Poll, pol, START, s).log) == Requests(Feed(Legacy, pol, START, s).log)
  {
    hide Feed;
    LogsDifferIn(pol, s);
    var l := Relabelled(Feed(Legacy, pol, START, s).log);
    RequestsRelabelled(Feed(Legacy, pol, START, s).log);
    assert (l + [Sent([1])])[..|l|] == l && l + [] == l;
  }

  lemma {:induction false} ArrivalsDiffer(ms: seq<Message>)
    ensures |Arrivals(Poll, ms)| == |Arrivals(Legacy, ms)| == |ms|
    ensures Arrivals(Poll, ms) == Arrivals(Legacy, ms) <==> forall i :: 0 <= i < |ms| ==> ms[i].msgtype != 2
    decreases |ms|
  {
    hide Body, HeaderOf;
    if ms != [] {
      ArrivalsDiffer(ms[1..]);
      var p, l := Arrivals(Poll, ms), Arrivals(Legacy, ms);
      assert p[1..] == Arrivals(Poll, ms[1..]) && l[1..] == Arrivals(Legacy, ms[1..]);
      assert p == l <==> p[0] == l[0] && p[1..] == l[1..];
      assert p[0] == Arrival(Poll, ms[0]) && l[0] == Arrival(Legacy, ms[0]);
      assert (forall i :: 0 <= i < |ms| ==> ms[i].msgtype != RESP) <==>
             ms[0].msgtype != RESP && forall i :: 0 <= i < |ms[1..]| ==> ms[1..][i].msgtype != RESP by {
        forall i | 0 < i < |ms| ensures ms[i] == ms[1..][i - 1] { }
      }
    }
  }

  /** Behind a login, the servers log the same of a list of messages exactly if none of them
      is a response. */
  lemma SameLogIff(pol: Policy, login: seq<byte>, ms: seq<Message>)
    requires Login(pol, login) && forall i :: 0 <= i < |ms| ==> Sendable(ms[i])
    ensures Feed(Poll, pol, START, login + Frames(ms)).log == Feed(Legacy, pol, START, login + Frames(ms)).log
       <==> forall i :: 0 <= i < |ms| ==> ms[i].msgtype != 2
  {
    hide Feed, Frames, Arrivals, Login;
    SessionDelivers(Poll, pol, login, ms);
    SessionDelivers(Legacy, pol, login, ms);
    ArrivalsDiffer(ms);
    SamePrefix(Greeting(pol), Arrivals(Poll, ms), Arrivals(Legacy, ms));
  }

  lemma SamePrefix(g: seq<Event>, a: seq<Event>, b: seq<Event>)
    ensures g + a == g + b <==> a == b
  {
    if g + a == g + b { assert a == (g + a)[|g|..] && b == (g + b)[|g|..]; }
  }

  // ---------- nothing before authentication ----------

  /** The stream starts with the right version and, if a password is set, with credentials
      the policy accepts. */
  ghost predicate Authorized(pol: Policy, s: seq<byte>) {
    && |s| >= 2 && s[0] == VERSION
    && (pol.auth ==> |s| >= 3 && s[2] > 0 && |s| >= 3 + s[2] as int && pol.accept(s[3..3 + s[2] as int]))
  }

  /** A complete login: nothing follows the version or the accepted credentials. */
  ghost predicate Login(pol: Policy, s: seq<byte>) {
    Authorized(pol, s) && |s| == if pol.auth then 3 + s[2] as int else 2
  }

  function Greeting(pol: Policy): seq<Event> {
    if pol.auth then [Sent([3, 1]), Sent([0]), Opened] else [Sent([3, 0]), Opened]
  }

  lemma LoginOpens(kind: Kind, pol: Policy, s: seq<byte>)
    requires Login(pol, s)
    ensures Feed(kind, pol, START, s) == Conn(Head, [], Greeting(pol))
  {
    hide Feed;
    assert s == s[..2] + s[2..] && [] + s[..2] == s[..2];
    FeedConcat(kind, pol, START, s[..2], s[2..]);
    FeedChunk(kind, pol, START, s[..2]);
    if pol.auth {
      assert s[2..][1..] == s[3..3 + s[2] as int];
      assert START.log + [Sent([VERSION, 1])] == [Sent([VERSION, 1])];
      assert [Sent([VERSION, 1])] + [Sent([0]), Opened] == Greeting(pol);
      CredsOpen(kind, pol, Conn(CredLen, [], [Sent([VERSION, 1])]), s[2..]);
    } else {
      assert s[2..] == [];
      FeedChunk(kind, pol, Conn(Head, [], Greeting(pol)), []);
      assert Conn(Head, [], Greeting(pol)).buf + [] == [];
      assert START.log + Greeting(pol) == Greeting(pol);
    }
  }

  lemma CredsOpen(kind: Kind, pol: Policy, c: Conn, s: seq<byte>)
    requires c.phase.CredLen? && c.buf == [] && s != [] && 0 < s[0] as int == |s| - 1 && pol.accept(s[1..])
    ensures Feed(kind, pol, c, s) == Conn(Head, [], c.log + [Sent([0]), Opened])
  {
    hide Feed;
    assert s == s[..1] + s[1..] && [] + s[..1] == s[..1] && [] + s[1..] == s[1..] && c.log + [] == c.log;
    FeedConcat(kind, pol, c, s[..1], s[1..]);
    FeedChunk(kind, pol, c, s[..1]);
    FeedChunk(kind, pol, Conn(Creds(s[0]), [], c.log), s[1..]);
  }

  /** A whole connection: after the login each message sent is handed over, once, in order,
      and nothing else is. */
  lemma SessionDelivers(kind: Kind, pol: Policy, login: seq<byte>, ms: seq<Message>)
    requires Login(pol, login) && forall i :: 0 <= i < |ms| ==> Sendable(ms[i])
    ensures Feed(kind, pol, START, login + Frames(ms)) == Conn(Head, [], Greeting(pol) + Arrivals(kind, ms))
    ensures CarryAll(Arrivals(kind, ms), ms)
  {
    FeedConcat(kind, pol, START, login, Frames(ms));
    LoginOpens(kind, pol, login);
    Delivery(kind, pol, Conn(Head, [], Greeting(pol)), ms);
  }

  predicate Serves(e: Event) { e.Opened? || e.Dispatched? || e.Deposited? }

  predicate Served(log: seq<Event>) {
    exists i :: 0 <= i < |log| && Serves(log[i])
  }

  lemma {:induction false} ServedStays(kind: Kind, pol: Policy, c: Conn, s: seq<byte>)
    requires Valid(c) && Served(c.log)
    ensures Served(Feed(kind, pol, c, s).log)
    decreases |s|
  {
    if s != [] {
      var d := Feed1(kind, pol, c, s[0]);
      assert c.log <= d.log;
      var i :| 0 <= i < |c.log| && Serves(c.log[i]);
      assert Serves(d.log[i]);
      ServedStays(kind, pol, d, s[1..]);
    }
  }

  lemma {:induction false} DeadStays(kind: Kind, pol: Policy, c: Conn, s: seq<byte>)
    requires Valid(c) && (c.phase.Dead? || c.phase.Doomed?)
    ensures Feed(kind, pol, c, s).log == c.log
    decreases |s|
  {
    if s != [] { DeadStays(kind, pol, Feed1(kind, pol, c, s[0]), s[1..]); }
  }

  /** From the end of the version exchange on, with a password set. */
  lemma CredsServeIff(kind: Kind, pol: Policy, c: Conn, s: seq<byte>)
    requires c.phase == CredLen && c.buf == [] && !Served(c.log)
    ensures Served(Feed(kind, pol, c, s).log) <==> s != [] && s[0] > 0 && |s| >= 1 + s[0] as int && pol.accept(s[1..1 + s[0] as int])
  {
    if s != [] {
      var n: int := s[0];
      assert s == s[..1] + s[1..];
      FeedConcat(kind, pol, c, s[..1], s[1..]);
      FeedChunk(kind, pol, c, s[..1]);
      assert [] + s[..1] == s[..1];
      var d := Feed(kind, pol, c, s[..1]);
      if n == 0 {
        DeadStays(kind, pol, d, s[1..]);
      } else {
        assert d == Conn(Creds(n), [], c.log) by { assert c.log + [] == c.log; }
        if |s| < 1 + n {
          FeedChunk(kind, pol, d, s[1..]);
        } else {
          CredsServe(kind, pol, d, s[1..], n);
          assert s[1..][..n] == s[1..1 + n];
        }
      }
    }
  }

  lemma CredsServe(kind: Kind, pol: Policy, d: Conn, s: seq<byte>, n: nat)
    requires d.phase == Creds(n) && d.buf == [] && !Served(d.log) && 0 < n <= |s|
    ensures Served(Feed(kind, pol, d, s).log) <==> pol.accept(s[..n])
  {
    assert s == s[..n] + s[n..] && [] + s[..n] == s[..n];
    FeedConcat(kind, pol, d, s[..n], s[n..]);
    FeedChunk(kind, pol, d, s[..n]);
    var c := Feed(kind, pol, d, s[..n]);
    if pol.accept(s[..n]) {
      assert Serves(c.log[|d.log| + 1]);
      ServedStays(kind, pol, c, s[n..]);
    } else {
      DeadStays(kind, pol, c, s[n..]);
    }
  }

  lemma CredsAt(s: seq<byte>, n: nat)
    requires |s| >= 3 + n
    ensures s[2..][1..1 + n] == s[3..3 + n]
  {
  }

  /** Neither server opens a connection or takes a frame before version and credentials
      are accepted; once they are, it does open. */
  lemma ServesIffAuthorized(kind: Kind, pol: Policy, s: seq<byte>)
    ensures Served(Feed(kind, pol, START, s).log) <==> Authorized(pol, s)
  {
    hide Feed;
    if |s| < 2 {
      FeedChunk(kind, pol, START, s);
    } else {
      assert s == s[..2] + s[2..] && [] + s[..2] == s[..2];
      FeedConcat(kind, pol, START, s[..2], s[2..]);
      FeedChunk(kind, pol, START, s[..2]);
      var c := Feed(kind, pol, START, s[..2]);
      if s[0] != VERSION {
        DeadStays(kind, pol, c, s[2..]);
      } else if pol.auth {
        CredsServeIff(kind, pol, c, s[2..]);
        if |s| >= 3 && |s| >= 3 + s[2] as int { CredsAt(s, s[2]); }
      } else {
        LoginOpens(kind, pol, s[..2]);
        assert Serves(Greeting(pol)[1]);
        ServedStays(kind, pol, c, s[2..]);
      }
    }
  }

  // ---------- what is no frame ----------

  /** Behind a login and any messages, sixteen bytes that are no header end the session: whatever
      follows them, nothing more is taken. */
  lemma BadHeaderEnds(kind: Kind, pol: Policy, login: seq<byte>, ms: seq<Message>, bad: seq<byte>, rest: seq<byte>)
    requires Login(pol, login) && (forall i :: 0 <= i < |ms| ==> Sendable(ms[i])) && |bad| == 16 && ReadHeader(bad).None?
    ensures Feed(kind, pol, START, login + Frames(ms) + (bad + rest)).log == Greeting(pol) + Arrivals(kind, ms)
  {
    hide Feed, Frames, Arrivals, Login, ReadHeader, Greeting;
    SessionDelivers(kind, pol, login, ms);
    var c := Feed(kind, pol, START, login + Frames(ms));
    FeedConcat(kind, pol, START, login + Frames(ms), bad + rest);
    FeedConcat(kind, pol, c, bad, rest);
    assert c.buf + bad == bad && c.log + [] == c.log;
    FeedChunk(kind, pol, c, bad);
    assert Feed(kind, pol, c, bad) == Conn(Dead, [], c.log);
    DeadStays(kind, pol, Conn(Dead, [], c.log), rest);
  }

  // ---------- what a refused client is told ----------

  /** The whole log of a stream that is not authorized: nothing before the version, or for a wrong
      one; then that credentials are wanted; then 1, once they are there and are refused.  The
      older server says nothing to an empty credential string. */
  function RefusalLog(kind: Kind, s: seq<byte>): seq<Event> {
    if |s| < 2 || s[0] != 3 then []
    else if |s| >= 3 && s[2] == 0 then (if kind.Poll? then [Sent([3, 1]), Sent([1])] else [Sent([3, 1])])
    else if |s| >= 3 && |s| >= 3 + s[2] as int then [Sent([3, 1]), Sent([1])]
    else [Sent([3, 1])]
  }

  lemma RefusedHears(kind: Kind, pol: Policy, s: seq<byte>)
    requires !Authorized(pol, s)
    ensures Feed(kind, pol, START, s).log == RefusalLog(kind, s)
  {
    hide Feed;
    if |s| < 2 {
      FeedChunk(kind, pol, START, s);
    } else {
      assert s == s[..2] + s[2..];
      FeedConcat(kind, pol, START, s[..2], s[2..]);
      VersionTogether(kind, pol, s[..2]);
      if s[0] != VERSION {
        DeadStays(kind, pol, Conn(Dead, [], []), s[2..]);
      } else {
        if |s| >= 3 && |s| >= 3 + s[2] as int { CredsAt(s, s[2]); }
        CredsRefused(kind, pol, s[2..]);
      }
    }
  }

  /** From the wish for credentials on. */
  lemma CredsRefused(kind: Kind, pol: Policy, s: seq<byte>)
    requires s != [] && s[0] > 0 && |s| >= 1 + s[0] as int ==> !pol.accept(s[1..1 + s[0] as int])
    ensures Feed(kind, pol, Conn(CredLen, [], [Sent([VERSION, 1])]), s).log ==
      if s != [] && s[0] == 0 then (if kind.Poll? then [Sent([3, 1]), Sent([1])] else [Sent([3, 1])])
      else if s != [] && |s| >= 1 + s[0] as int then [Sent([3, 1]), Sent([1])]
      else [Sent([3, 1])]
  {
    hide Feed;
    var c := Conn(CredLen, [], [Sent([VERSION, 1])]);
    if s == [] {
      FeedChunk(kind, pol, c, []);
    } else if s[0] == 0 {
      EmptyCredsLogs(kind, pol, s);
    } else {
      assert s == s[..1] + s[1..] && [] + s[..1] == s[..1] && c.log + [] == c.log;
      FeedConcat(kind, pol, c, s[..1], s[1..]);
      FeedChunk(kind, pol, c, s[..1]);
      if |s| >= 1 + s[0] as int { assert s[1..][..s[0]] == s[1..1 + s[0] as int]; }
      CredsHeard(kind, pol, Conn(Creds(s[0]), [], c.log), s[1..], s[0]);
    }
  }

  lemma CredsHeard(kind: Kind, pol: Policy, d: Conn, s: seq<byte>, n: nat)
    requires d.phase == Creds(n) && d.buf == [] && n > 0 && (|s| >= n ==> !pol.accept(s[..n]))
    ensures Feed(kind, pol, d, s).log == if |s| >= n then d.log + [Sent([1])] else d.log
  {
    hide Feed;
    if |s| < n {
      FeedChunk(kind, pol, d, s);
    } else {
      assert s == s[..n] + s[n..] && [] + s[..n] == s[..n];
      FeedConcat(kind, pol, d, s[..n], s[n..]);
      FeedChunk(kind, pol, d, s[..n]);
      DeadStays(kind, pol, Feed(kind, pol, d, s[..n]), s[n..]);
    }
  }
}
