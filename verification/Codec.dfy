/** The wire codec: bytes are replaced by their differences modulo 256, and the
    differences are run-length encoded. */
module Codec {
  import opened Wrappers

  type byte = x: int | 0 <= x < 256

  const THRESHOLD: nat := 2000
  const MAX_RUN: nat := 127
  const MAX_LITERAL: nat := 128

  // ---------- differences ----------

  function Delta(s: seq<byte>): (d: seq<byte>)
    ensures |d| == |s|
  {
    seq(|s|, i requires 0 <= i < |s| => if i == 0 then s[0] else (s[i] as int - s[i - 1] as int) % 256)
  }

  /** The first i + 1 bytes added up. */
  function Sum(d: seq<byte>, i: nat): byte
    requires i < |d|
  {
    if i == 0 then d[0] else (Sum(d, i - 1) as int + d[i] as int) % 256
  }

  function Undelta(d: seq<byte>): (s: seq<byte>)
    ensures |s| == |d|
  {
    seq(|d|, i requires 0 <= i < |d| => Sum(d, i))
  }

  lemma AddBack(a: int, b: int)
    requires 0 <= a < 256 && 0 <= b < 256
    ensures (a + (b - a) % 256) % 256 == b
  {
  }

  lemma {:induction false} SumOfDelta(s: seq<byte>, i: nat)
    requires i < |s|
    ensures Sum(Delta(s), i) == s[i]
  {
    if i > 0 {
      SumOfDelta(s, i - 1);
      AddBack(s[i - 1], s[i]);
    }
  }

  lemma UndeltaDelta(s: seq<byte>)
    ensures Undelta(Delta(s)) == s
  {
    forall i | 0 <= i < |s| ensures Undelta(Delta(s))[i] == s[i] { SumOfDelta(s, i); }
  }

  // ---------- run-length encoding ----------

  predicate Pair(d: seq<byte>, k: nat) { k + 1 < |d| && d[k] == d[k + 1] }

  /** Length of the run at the start of d, k of which are known. */
  function Run(d: seq<byte>, k: nat): (n: nat)
    requires 1 <= k <= |d| && k <= MAX_RUN && forall i :: 0 <= i < k ==> d[i] == d[0]
    ensures k <= n <= |d| && n <= MAX_RUN && forall i :: 0 <= i < n ==> d[i] == d[0]
    decreases |d| - k
  {
    if k < |d| && d[k] == d[0] && k < MAX_RUN then Run(d, k + 1) else k
  }

  /** Length of the literal at the start of d: it stops at a pair of equal bytes. */
  function Literal(d: seq<byte>, k: nat): (n: nat)
    requires k <= |d| && k <= MAX_LITERAL
    ensures k <= n <= |d| && n <= MAX_LITERAL
    ensures n < MAX_LITERAL ==> n == |d| || Pair(d, n)
    decreases |d| - k
  {
    if k < |d| && k < MAX_LITERAL && !Pair(d, k) then Literal(d, k + 1) else k
  }

  /** A byte read as a signed number, and a negative number written as a byte. */
  function Signed(b: byte): int { if b < 128 then b else b - 256 }
  function Negative(n: nat): byte
    requires n <= MAX_LITERAL
  {
    (256 - n) % 256
  }

  function Encode(d: seq<byte>): (e: seq<byte>)
    decreases |d|
  {
    if d == [] then []
    else if Pair(d, 0) then
      var n := Run(d, 1);
      [n, d[0]] + Encode(d[n..])
    else
      var n := Literal(d, 1);
      [Negative(n)] + d[..n] + Encode(d[n..])
  }

  function Fill(b: byte, n: nat): (s: seq<byte>)
    ensures |s| == n && forall i :: 0 <= i < n ==> s[i] == b
  {
    seq(n, i => b)
  }

  function Prepend(p: seq<byte>, d: Option<seq<byte>>): Option<seq<byte>> {
    if d.None? then None else Some(p + d.value)
  }

  /** Decodes until the input ends or `room` bytes are produced; None: malformed. */
  function Decode(e: seq<byte>, room: nat): (d: Option<seq<byte>>)
    ensures d.Some? ==> |d.value| <= room
    decreases |e|
  {
    if e == [] || room == 0 then Some([])
    else
      var count := Signed(e[0]);
      if count > 0 then
        if |e| < 2 || count > room then None
        else Prepend(Fill(e[1], count), Decode(e[2..], room - count))
      else
        var n := -count;
        if 1 + n > |e| || n > room then None
        else Prepend(e[1..1 + n], Decode(e[1 + n..], room - n))
  }

  lemma DecodeRun(n: nat, v: byte, e: seq<byte>, room: nat)
    requires 0 < n <= MAX_RUN && n <= room
    ensures Decode([n, v] + e, room) == Prepend(Fill(v, n), Decode(e, room - n))
  {
    assert ([n, v] + e)[2..] == e;
  }

  lemma DecodeLiteral(l: seq<byte>, e: seq<byte>, room: nat)
    requires 0 < |l| <= MAX_LITERAL && |l| <= room
    ensures Decode([Negative(|l|)] + l + e, room) == Prepend(l, Decode(e, room - |l|))
  {
    var code := [Negative(|l|)] + l + e;
    assert code[0] == Negative(|l|) && Signed(code[0]) == -|l| && |code| == 1 + |l| + |e|;
    assert code[1..1 + |l|] == l;
    assert code[1 + |l|..] == e;
  }

  lemma EncodeRun(d: seq<byte>, n: nat)
    requires Pair(d, 0) && n == Run(d, 1)
    ensures Encode(d) == [n, d[0]] + Encode(d[n..]) && |Encode(d)| >= 2
  {
  }

  lemma EncodeLiteral(d: seq<byte>, n: nat)
    requires d != [] && !Pair(d, 0) && n == Literal(d, 1)
    ensures Encode(d) == ([Negative(n)] + d[..n]) + Encode(d[n..]) && |Encode(d)| >= 1 + n
  {
  }

  lemma PrependParts(d: seq<byte>, n: nat)
    requires n <= |d|
    ensures Prepend(d[..n], Some(d[n..])) == Some(d)
  {
    assert d[..n] + d[n..] == d;
  }

  lemma FillRun(d: seq<byte>, n: nat)
    requires 0 < n <= |d| && forall i :: 0 <= i < n ==> d[i] == d[0]
    ensures Fill(d[0], n) == d[..n]
  {
  }

  lemma {:induction false} DecodeEncode(d: seq<byte>)
    ensures Decode(Encode(d), |d|) == Some(d)
    decreases |d|
  {
    if d != [] {
      if Pair(d, 0) {
        var n := Run(d, 1);
        var e := Encode(d[n..]);
        DecodeEncode(d[n..]);
        DecodeRun(n, d[0], e, |d|);
        FillRun(d, n);
        PrependParts(d, n);
        EncodeRun(d, n);
      } else {
        var n := Literal(d, 1);
        var e := Encode(d[n..]);
        DecodeEncode(d[n..]);
        DecodeLiteral(d[..n], e, |d|);
        PrependParts(d, n);
        EncodeLiteral(d, n);
      }
    }
  }

  /** Encoding grows by at most a third: a literal shorter than 128 is followed by a run.
      `after`: the bytes before d ended in such a literal. */
  lemma {:induction false} EncodeBound(d: seq<byte>, after: bool)
    requires after ==> d == [] || Pair(d, 0)
    ensures 3 * |Encode(d)| <= 4 * |d| + (if after then 0 else 2)
    decreases |d|
  {
    if d != [] {
      var n := if Pair(d, 0) then Run(d, 1) else Literal(d, 1);
      if Pair(d, 0) {
        assert n >= 2;
        EncodeBound(d[n..], false);
      } else if n < MAX_LITERAL {
        assert Pair(d, n) ==> Pair(d[n..], 0);
        EncodeBound(d[n..], true);
      } else {
        EncodeBound(d[n..], false);
      }
    }
  }

  // ---------- the format ----------

  /** The first k differences added up, without wrapping. */
  function Total(d: seq<byte>, k: nat): int
    requires k <= |d|
  {
    if k == 0 then 0 else Total(d, k - 1) + d[k - 1]
  }

  /** A byte is what the differences up to it add up to, modulo 256. */
  lemma {:induction false} UndeltaAddsUp(d: seq<byte>, i: nat)
    requires i < |d|
    ensures Undelta(d)[i] == Total(d, i + 1) % 256
    decreases i
  {
    if i > 0 {
      UndeltaAddsUp(d, i - 1);
      assert Undelta(d)[i - 1] == Sum(d, i - 1);
      AddLast(Total(d, i), d[i]);
    } else {
      assert Total(d, 0) == 0;
    }
  }

  lemma AddLast(a: int, b: int)
    ensures (a % 256 + b) % 256 == (a + b) % 256
  {
  }

  /** The first difference is the first byte; each other one leads from its byte to the next. */
  lemma DeltaLeads(s: seq<byte>, i: nat)
    requires i < |s|
    ensures if i == 0 then Delta(s)[i] == s[i] else (s[i - 1] as int + Delta(s)[i] as int) % 256 == s[i]
  {
    if i > 0 { AddBack(s[i - 1], s[i]); }
  }

  lemma {:induction false} RunIs(d: seq<byte>, k: nat, n: nat)
    requires 1 <= k <= n <= |d| && n <= 127 && (forall i :: 0 <= i < n ==> d[i] == d[0])
    requires n == 127 || n == |d| || d[n] != d[0]
    ensures Run(d, k) == n
    decreases n - k
  {
    if k < n { RunIs(d, k + 1, n); }
  }

  lemma {:induction false} LiteralIs(d: seq<byte>, k: nat, n: nat)
    requires k <= n <= |d| && n <= 128 && (forall i :: k <= i < n ==> !Pair(d, i)) && (n == 128 || n == |d| || Pair(d, n))
    ensures Literal(d, k) == n
    decreases n - k
  {
    if k < n { LiteralIs(d, k + 1, n); }
  }

  /** A run of 2 to 127 equal bytes, as long as it goes, is written as its length and the byte. */
  lemma RunsAreWritten(d: seq<byte>, n: nat)
    requires 2 <= n <= |d| && n <= 127 && (forall i :: 0 <= i < n ==> d[i] == d[0])
    requires n == 127 || n == |d| || d[n] != d[0]
    ensures Encode(d) == [n, d[0]] + Encode(d[n..])
  {
    hide Encode;
    assert d[1] == d[0];
    RunIs(d, 1, n);
    EncodeRun(d, n);
  }

  /** No two neighbours among the first n bytes of d, and the next one, are equal; and either n
      is 128, or d ends there, or two equal bytes follow. */
  ghost predicate Plain(d: seq<byte>, n: nat) {
    && 1 <= n <= |d| && n <= 128 && (forall i, j :: 0 <= i < n && j == i + 1 < |d| ==> d[i] != d[j])
    && (n == 128 || n == |d| || (n + 1 < |d| && d[n] == d[n + 1]))
  }

  lemma PlainIs(d: seq<byte>, n: nat)
    requires Plain(d, n)
    ensures 1 <= n <= |d| && n <= 128 && !Pair(d, 0) && Literal(d, 1) == n && Negative(n) == 256 - n
  {
    hide Literal;
    forall i | 0 <= i < n ensures !Pair(d, i) {}
    LiteralIs(d, 1, n);
  }

  /** Such bytes are written as they are, behind 256 less their number. */
  lemma LiteralsAreWritten(d: seq<byte>, n: nat)
    requires Plain(d, n)
    ensures n <= |d| && Encode(d) == [256 - n] + d[..n] + Encode(d[n..])
  {
    hide Encode, Literal, Plain, Pair, Negative;
    PlainIs(d, n);
    EncodeLiteral(d, n);
  }

  /** A run is read back, unless the room or the byte is missing. */
  lemma RunsAreRead(n: nat, v: byte, e: seq<byte>, room: nat)
    requires 1 <= n <= 127 && room > 0
    ensures Decode([n, v] + e, room) == if n > room then None else Prepend(Fill(v, n), Decode(e, room - n))
    ensures Decode([n], room) == None
  {
    if n <= room { DecodeRun(n, v, e, room); }
  }

  /** A literal is read back, unless the room or some of its bytes are missing. */
  lemma LiteralsAreRead(l: seq<byte>, e: seq<byte>, room: nat)
    requires 1 <= |l| <= 128 && room > 0
    ensures Decode([256 - |l|] + l + e, room) == if |l| > room then None else Prepend(l, Decode(e, room - |l|))
    ensures Decode([256 - |l|] + l[1..], room) == None
  {
    if |l| <= room { DecodeLiteral(l, e, room); }
  }

  /** The byte 0 stands for nothing. */
  lemma EmptySegment(e: seq<byte>, room: nat)
    requires room > 0
    ensures Decode([0] + e, room) == Decode(e, room)
  {
    var s := [0] + e;
    assert s[1..1] == [] && s[1..] == e;
    assert Decode(s, room) == Prepend([], Decode(e, room));
    if Decode(e, room).Some? { assert [] + Decode(e, room).value == Decode(e, room).value; }
  }

  // ---------- compress and decompress ----------

  /** What compress writes into `room` bytes: nothing if the input is short, does not
      fit, or does not shrink. */
  function Compressed(s: seq<byte>, room: nat): Option<seq<byte>> {
    var e := Encode(Delta(s));
    if |s| <= THRESHOLD || |e| > room || |e| >= |s| then None else Some(e)
  }

  /** What decompress writes: nothing if the input is malformed or empty. */
  function Decompressed(e: seq<byte>, room: nat): Option<seq<byte>> {
    match Decode(e, room)
    case None => None
    case Some(d) => if d == [] then None else Some(Undelta(d))
  }

  /** Whatever compress accepts, decompress gives back. */
  lemma RoundTrip(s: seq<byte>, room: nat)
    requires Compressed(s, room).Some?
    ensures Decompressed(Compressed(s, room).value, |s|) == Some(s)
  {
    DecodeEncode(Delta(s));
    UndeltaDelta(s);
  }

  /** A buffer a third larger than the input always suffices. */
  lemma RoomForAll(s: seq<byte>, room: nat)
    requires 3 * room >= 4 * |s| + 2
    ensures |Encode(Delta(s))| <= room
  {
    EncodeBound(Delta(s), false);
  }

  method DeltaOf(src: array<byte>) returns (delta: array<byte>)
    requires src.Length > 0
    ensures fresh(delta) && delta[..] == Delta(src[..])
  {
    delta := new byte[src.Length];
    delta[0] := src[0];
    for i := 1 to src.Length
      invariant forall k :: 0 <= k < i ==> delta[k] == Delta(src[..])[k]
    {
      delta[i] := (src[i] as int - src[i - 1] as int) % 256;
    }
  }

  /** rest is the encoding of d from si on. */
  ghost predicate Left(d: seq<byte>, si: nat, rest: seq<byte>) {
    si <= |d| && rest == Encode(d[si..])
  }

  lemma LiteralLeft(d: seq<byte>, si: nat, n: nat, rest: seq<byte>) returns (left: seq<byte>)
    requires Left(d, si, rest) && si < |d| && !Pair(d[si..], 0) && n == Literal(d[si..], 1)
    ensures si + n <= |d| && Left(d, si + n, left) && rest == [Negative(n)] + d[si..si + n] + left
  {
    EncodeLiteral(d[si..], n);
    assert d[si..][n..] == d[si + n..] && d[si..][..n] == d[si..si + n];
    left := Encode(d[si + n..]);
  }

  /** seg lies at dst[at..]. */
  predicate Holds(dst: array<byte>, at: nat, seg: seq<byte>)
    reads dst
  {
    at + |seg| <= dst.Length && forall k :: 0 <= k < |seg| ==> dst[at + k] == seg[k]
  }

  /** One run: two bytes. */
  method PutRun(delta: array<byte>, si: nat, dst: array<byte>, di: nat, ghost d: seq<byte>, ghost rest: seq<byte>)
      returns (n: nat, ok: bool, ghost seg: seq<byte>, ghost left: seq<byte>)
    requires dst != delta && d == delta[..] && si < |d| && Pair(d[si..], 0) && di <= dst.Length && Left(d, si, rest)
    modifies dst
    ensures 0 < n <= |d| - si && |seg| == 2 && rest == seg + left && Left(d, si + n, left)
    ensures ok == (di + |seg| <= dst.Length) && (ok ==> Holds(dst, di, seg))
    ensures forall k :: 0 <= k < di ==> dst[k] == old(dst[k])
  {
    n := RunLength(delta, si);
    assert delta[si..] == d[si..];
    assert d[si..][n..] == d[si + n..];
    seg, left := [n, d[si]], Encode(d[si..][n..]);
    EncodeRun(d[si..], n);
    ok := di + 2 <= dst.Length;
    if ok {
      dst[di] := n;
      dst[di + 1] := delta[si];
    }
  }

  /** One literal: its length, then its bytes. */
  method PutLiteral(delta: array<byte>, si: nat, dst: array<byte>, di: nat, ghost d: seq<byte>, ghost rest: seq<byte>)
      returns (n: nat, ok: bool, ghost seg: seq<byte>, ghost left: seq<byte>)
    requires dst != delta && d == delta[..] && si < |d| && !Pair(d[si..], 0) && di <= dst.Length && Left(d, si, rest)
    modifies dst
    ensures 0 < n <= |d| - si && |seg| == 1 + n && rest == seg + left && Left(d, si + n, left)
    ensures ok == (di + |seg| <= dst.Length) && (ok ==> Holds(dst, di, seg))
    ensures forall k :: 0 <= k < di ==> dst[k] == old(dst[k])
  {
    n := LiteralLength(delta, si);
    assert delta[si..] == d[si..];
    left := LiteralLeft(d, si, n, rest);
    seg := [Negative(n)] + d[si..si + n];
    ok := di + 1 + n <= dst.Length;
    if ok {
      dst[di] := Negative(n);
      forall k | 0 <= k < n { dst[di + 1 + k] := delta[si + k]; }
    }
  }

  method Compress(src: array<byte>, dst: array<byte>) returns (n: nat)
    requires src != dst
    modifies dst
    ensures var c := Compressed(old(src[..]), dst.Length);
      if c.None? then n == 0 else n == |c.value| <= dst.Length && dst[..n] == c.value
  {
    if src.Length <= THRESHOLD { return 0; }
    var delta := DeltaOf(src);
    n := EncodeInto(delta, dst);
    if n >= src.Length { return 0; }
  }

  lemma NothingLeft(d: seq<byte>, rest: seq<byte>)
    requires Left(d, |d|, rest)
    ensures rest == []
  {
    assert d[|d|..] == [];
  }

  /** The encoding, or 0 as soon as it does not fit. */
  method EncodeInto(delta: array<byte>, dst: array<byte>) returns (di: nat)
    requires dst != delta && delta.Length > 0
    modifies dst
    ensures var e := Encode(delta[..]);
      if |e| > dst.Length then di == 0 else di == |e| && dst[..di] == e
  {
    hide Encode;
    var len := delta.Length;
    ghost var d := delta[..];
    ghost var whole := Encode(d);
    ghost var out, rest: seq<byte> := [], whole;
    var si := 0;
    di := 0;
    assert d[0..] == d;
    Shift([], [], whole, whole, whole);
    while si < len
      invariant 0 <= si <= len && di == |out| && Holds(dst, 0, out) && delta[..] == d
      invariant out + rest == whole && Left(d, si, rest)
      decreases len - si
    {
      var n: nat, ok: bool;
      ghost var seg, left: seq<byte> := [], [];
      if si + 1 < len && delta[si] == delta[si + 1] {
        n, ok, seg, left := PutRun(delta, si, dst, di, d, rest);
        if !ok { return 0; }
        di := di + 2;
      } else {
        n, ok, seg, left := PutLiteral(delta, si, dst, di, d, rest);
        if !ok { return 0; }
        di := di + 1 + n;
      }
      si := si + n;
      Shift(out, seg, left, rest, whole);
      out, rest := out + seg, left;
    }
    NothingLeft(d, rest);
    assert out + [] == out && dst[..di] == out;
  }

  lemma Shift(out: seq<byte>, seg: seq<byte>, left: seq<byte>, rest: seq<byte>, whole: seq<byte>)
    requires out + rest == whole && rest == seg + left
    ensures (out + seg) + left == whole
  {
  }

  method RunLength(delta: array<byte>, si: nat) returns (run: nat)
    requires si < delta.Length && Pair(delta[si..], 0)
    ensures run == Run(delta[si..], 1)
  {
    run := 1;
    while si + run < delta.Length && delta[si + run] == delta[si] && run < MAX_RUN
      invariant 1 <= run <= |delta[si..]| && run <= MAX_RUN && forall i :: 0 <= i < run ==> delta[si..][i] == delta[si..][0]
      invariant Run(delta[si..], run) == Run(delta[si..], 1)
    {
      run := run + 1;
    }
  }

  method LiteralLength(delta: array<byte>, si: nat) returns (llen: nat)
    requires si < delta.Length && !Pair(delta[si..], 0)
    ensures llen == Literal(delta[si..], 1)
  {
    llen := 0;
    while si + llen < delta.Length && llen < MAX_LITERAL
      invariant llen <= |delta[si..]| && llen <= MAX_LITERAL
      invariant Literal(delta[si..], llen) == Literal(delta[si..], 0)
    {
      if si + llen + 1 < delta.Length && delta[si + llen] == delta[si + llen + 1] { break; }
      llen := llen + 1;
    }
  }

  method Decompress(src: seq<byte>, dst: array<byte>) returns (n: nat)
    modifies dst
    ensures var d := Decompressed(src, dst.Length);
      if d.None? then n == 0 else n == |d.value| <= dst.Length && dst[..n] == d.value
  {
    var decoded, ok := new byte[dst.Length], true;
    ok, n := DecodeInto(src, decoded);
    if !ok || n == 0 { return 0; }
    UndeltaInto(decoded, n, dst);
  }

  /** One segment, if it is well formed: what it decodes to and what is left. */
  method DecodeStep(src: seq<byte>, si: nat, decoded: array<byte>, di: nat)
      returns (ok: bool, si': nat, di': nat, ghost seg: seq<byte>)
    requires si < |src| && di < decoded.Length
    modifies decoded
    ensures forall k :: 0 <= k < di ==> decoded[k] == old(decoded[k])
    ensures ok ==> si < si' <= |src| && di' == di + |seg| && Holds(decoded, di, seg)
    ensures Decode(src[si..], decoded.Length - di) == if ok then Prepend(seg, Decode(src[si'..], decoded.Length - di')) else None
  {
    ghost var e := src[si..];
    var count := Signed(src[si]);
    if count > 0 {
      if si + 1 >= |src| || di + count > decoded.Length { return false, si, di, []; }
      si', di', seg := si + 2, di + count, Fill(src[si + 1], count);
      forall k | 0 <= k < count { decoded[di + k] := src[si + 1]; }
      assert e[2..] == src[si'..];
    } else {
      var m := -count;
      if si + 1 + m > |src| || di + m > decoded.Length { return false, si, di, []; }
      si', di', seg := si + 1 + m, di + m, e[1..1 + m];
      forall k | 0 <= k < m { decoded[di + k] := src[si + 1 + k]; }
      assert e[1 + m..] == src[si'..];
    }
    ok := true;
  }

  method DecodeInto(src: seq<byte>, decoded: array<byte>) returns (ok: bool, di: nat)
    modifies decoded
    ensures di <= decoded.Length && Decode(src, decoded.Length) == if ok then Some(decoded[..di]) else None
  {
    var si := 0;
    ghost var out: seq<byte> := [];
    di := 0;
    assert src[0..] == src;
    PrependNothing(Decode(src, decoded.Length));
    while si < |src| && di < decoded.Length
      invariant 0 <= si <= |src| && di == |out| && Holds(decoded, 0, out)
      invariant Decode(src, decoded.Length) == Prepend(out, Decode(src[si..], decoded.Length - di))
      decreases |src| - si
    {
      var si', di';
      ghost var seg: seq<byte>;
      ok, si', di', seg := DecodeStep(src, si, decoded, di);
      if !ok { return false, 0; }
      PrependTwice(out, seg, Decode(src[si'..], decoded.Length - di'));
      out := out + seg;
      si, di := si', di';
    }
    assert out + [] == out && decoded[..di] == out;
    ok := true;
  }

  method UndeltaInto(decoded: array<byte>, n: nat, dst: array<byte>)
    requires 0 < n <= decoded.Length && n <= dst.Length && decoded != dst
    modifies dst
    ensures dst[..n] == Undelta(decoded[..n])
  {
    ghost var d := decoded[..n];
    dst[0] := decoded[0];
    for i := 1 to n
      invariant forall k :: 0 <= k < i ==> dst[k] == Sum(d, k)
    {
      assert d[i] == decoded[i];
      dst[i] := (decoded[i] as int + dst[i - 1] as int) % 256;
    }
  }

  lemma PrependTwice(a: seq<byte>, b: seq<byte>, d: Option<seq<byte>>)
    ensures Prepend(a, Prepend(b, d)) == Prepend(a + b, d)
  {
    if d.Some? { assert a + (b + d.value) == a + b + d.value; }
  }

  lemma PrependNothing(d: Option<seq<byte>>)
    ensures Prepend([], d) == d
  {
    if d.Some? { assert [] + d.value == d.value; }
  }
}
