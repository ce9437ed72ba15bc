/** Messages on a connection: how they are framed, and the state machine that
    takes them out of a byte stream again. */
module Wire {
  import opened Arithmetic
  import opened Wrappers
  import opened Codec

  // ---------- numbers on the wire ----------

  /** The k low bytes of n, least significant first. */
  function Little(n: nat, k: nat): (s: seq<byte>)
    ensures |s| == k
  {
    if k == 0 then [] else [n % 256] + Little(n / 256, k - 1)
  }

  function FromLittle(s: seq<byte>): nat {
    if s == [] then 0 else s[0] as int + 256 * FromLittle(s[1..])
  }

  lemma {:induction false} LittleRoundTrip(n: nat, k: nat)
    ensures FromLittle(Little(n, k)) == n % Pow256(k)
    decreases k
  {
    if k > 0 {
      LittleRoundTrip(n / 256, k - 1);
      assert Little(n, k)[1..] == Little(n / 256, k - 1);
      Digit(n, Pow256(k - 1));
    }
  }

  lemma Digit(n: nat, p: nat)
    requires p > 0
    ensures n % (256 * p) == n % 256 + 256 * ((n / 256) % p)
  {
    var q, r := (n / 256) / p, (n / 256) % p;
    assert n / 256 == q * p + r && n == 256 * (n / 256) + n % 256;
    assert 256 * (q * p) == q * (256 * p);
    var m, x := 256 * p, 256 * r + n % 256;
    assert n == q * m + x && 0 <= x < m;
    RemainderIs(n, m, q, x);
  }

  // ---------- frames ----------

  const PREFIX: nat := 0xcefadefa
  const VERSION: byte := 3
  const ENDIAN: byte := 0
  const HEADER_SIZE: nat := 16
  const MAX_SIZE: nat := 256 * 1024 * 1024
  const FLAG_COMPRESSED: byte := 1
  const RESP: byte := 2

  /** The header fields that vary. */
  datatype Header = Header(flags: byte, msgtype: byte, size: nat)

  function HeaderBytes(h: Header): (s: seq<byte>)
    ensures |s| == HEADER_SIZE
  {
    Little(PREFIX, 4) + [VERSION, h.flags, ENDIAN, h.msgtype] + Little(h.size, 8)
  }

  /** The header read from 16 bytes, if the receiver accepts it. */
  function ReadHeader(s: seq<byte>): (h: Option<Header>)
    requires |s| == HEADER_SIZE
    ensures h.Some? ==> 0 < h.value.size <= MAX_SIZE
  {
    var size := FromLittle(s[8..]);          // a set top bit is a negative size
    if FromLittle(s[..4]) != PREFIX || s[4] != VERSION || s[6] != ENDIAN || size == 0 || size > MAX_SIZE then None
    else Some(Header(s[5], s[7], size))
  }

  lemma Pow256Four()
    ensures Pow256(4) == 0x1_0000_0000
  {
    assert Pow256(2) == 65536;
  }

  lemma PrefixRoundTrip()
    ensures FromLittle(Little(PREFIX, 4)) == PREFIX
  {
    LittleRoundTrip(PREFIX, 4);
    Pow256Four();
  }

  lemma HeaderRoundTrip(h: Header)
    requires h.size < Pow256(8)
    ensures ReadHeader(HeaderBytes(h)) == if 0 < h.size <= MAX_SIZE then Some(h) else None
  {
    hide Little, FromLittle;
    var s := HeaderBytes(h);
    assert s[..4] == Little(PREFIX, 4) && s[8..] == Little(h.size, 8);
    PrefixRoundTrip();
    LittleRoundTrip(h.size, 8);
    SmallRemainder(h.size, Pow256(8));
  }

  // ---------- the layout ----------

  /** Least significant byte first. */
  lemma {:induction false} LittleAt(n: nat, k: nat, i: nat)
    requires i < k
    ensures Little(n, k)[i] == (n / Pow256(i)) % 256
    decreases k
  {
    if i > 0 {
      LittleAt(n / 256, k - 1, i - 1);
      Quotients(n, Pow256(i - 1));
    }
  }

  lemma Quotients(n: nat, p: nat)
    requires p > 0
    ensures (n / 256) / p == n / (256 * p)
  {
    var q, r := (n / 256) / p, (n / 256) % p;
    assert n / 256 == q * p + r && n == 256 * (n / 256) + n % 256;
    assert 256 * (q * p) == q * (256 * p);
    RemainderIs(n, 256 * p, q, 256 * r + n % 256);
  }

  /** The sixteen bytes of a header. */
  lemma HeaderLayout(h: Header)
    ensures HeaderBytes(h)[..8] == [0xfa, 0xde, 0xfa, 0xce, 3, h.flags, 0, h.msgtype]
    ensures forall i :: 0 <= i < 8 ==> HeaderBytes(h)[8 + i] == (h.size / Pow256(i)) % 256
  {
    assert Little(PREFIX, 4) == [0xfa, 0xde, 0xfa, 0xce] by { PrefixBytes(); }
    hide Little;
    forall i | 0 <= i < 8 ensures HeaderBytes(h)[8 + i] == (h.size / Pow256(i)) % 256 { LittleAt(h.size, 8, i); }
  }

  lemma PrefixBytes()
    ensures Little(PREFIX, 4) == [0xfa, 0xde, 0xfa, 0xce]
  {
    assert PREFIX % 256 == 0xfa && PREFIX / 256 == 0xcefade;
    assert 0xcefade % 256 == 0xde && 0xcefade / 256 == 0xcefa;
    assert Little(0xce, 1) == [0xce];
    assert Little(0xcefa, 2) == [0xfa, 0xce];
    assert Little(0xcefade, 3) == [0xde, 0xfa, 0xce];
  }

  /** The number in up to eight bytes. */
  lemma {:induction false} FromLittleBound(s: seq<byte>)
    ensures FromLittle(s) < Pow256(|s|)
    decreases |s|
  {
    if s != [] { FromLittleBound(s[1..]); }
  }

  lemma {:induction false} FromLittleOneToOne(s: seq<byte>, t: seq<byte>)
    requires |s| == |t|
    ensures FromLittle(s) == FromLittle(t) <==> s == t
    decreases |s|
  {
    if s != [] {
      FromLittleOneToOne(s[1..], t[1..]);
      assert s == [s[0]] + s[1..] && t == [t[0]] + t[1..];
    }
  }

  /** The receiver accepts a header exactly if the prefix, the version, the byte order and the
      size are right, whatever its flags and kind are. */
  lemma HeaderAcceptedIff(s: seq<byte>)
    requires |s| == 16
    ensures ReadHeader(s).Some? <==>
      && s[..4] == [0xfa, 0xde, 0xfa, 0xce] && s[4] == 3 && s[6] == 0
      && 0 < FromLittle(s[8..]) <= 268435456
    ensures ReadHeader(s).Some? ==> s == HeaderBytes(ReadHeader(s).value)
  {
    PrefixBytes();
    PrefixRoundTrip();
    FromLittleOneToOne(s[..4], Little(PREFIX, 4));
    if ReadHeader(s).Some? { AcceptedBytes(s, ReadHeader(s).value); }
  }

  lemma AcceptedBytes(s: seq<byte>, h: Header)
    requires |s| == 16 && s[..4] == Little(PREFIX, 4) && s[4..8] == [VERSION, h.flags, ENDIAN, h.msgtype] && h.size == FromLittle(s[8..])
    ensures s == HeaderBytes(h)
  {
    hide Little, FromLittle;
    LittleRoundTrip(h.size, 8);
    FromLittleBound(s[8..]);
    SmallRemainder(h.size, Pow256(8));
    FromLittleOneToOne(s[8..], Little(h.size, 8));
    assert s == s[..4] + s[4..8] + s[8..];
  }

  lemma SmallRemainder(n: nat, m: nat)
    requires n < m
    ensures n % m == n
  {
  }

  /** Flags a caller may add: none of them is the compression flag. */
  type Extra = b: byte | b % 2 == 0

  /** A message to be sent: its serialized payload, kind and extra flags. */
  datatype Message = Message(payload: seq<byte>, msgtype: byte, extra: Extra)

  /** Compression is used if it saves more than the four bytes of the original length. */
  function Packed(p: seq<byte>): Option<seq<byte>> {
    match Compressed(p, |p|)
    case None => None
    case Some(c) => if |c| + 4 < |p| then Some(Little(|p|, 4) + c) else None
  }

  function Body(m: Message): seq<byte> {
    if Packed(m.payload).Some? then Packed(m.payload).value else m.payload
  }

  /** Bitwise or of the two. */
  function Flags(m: Message): byte
  {
    if Packed(m.payload).Some? then m.extra + FLAG_COMPRESSED else m.extra
  }

  function HeaderOf(m: Message): Header
  {
    Header(Flags(m), m.msgtype, |Body(m)|)
  }

  function Frame(m: Message): seq<byte>
  {
    HeaderBytes(HeaderOf(m)) + Body(m)
  }

  /** The payload of a received frame; None if it cannot be unpacked. */
  function Unpacked(h: Header, body: seq<byte>): (p: Option<seq<byte>>)
    ensures h.flags % 2 == 1 && p.Some? ==> |p.value| <= MAX_SIZE
  {
    if h.flags % 2 == 0 then Some(body)
    else if |body| < 4 then None
    else
      var size := FromLittle(body[..4]);
      if size == 0 || size > MAX_SIZE then None
      else
        match Decompressed(body[4..], size)
        case None => None
        case Some(p) => if |p| == size then Some(p) else None
  }

  lemma PackedParts(p: seq<byte>) returns (c: seq<byte>)
    requires Packed(p).Some?
    ensures Packed(p).value == Little(|p|, 4) + c && Decompressed(c, |p|) == Some(p)
  {
    c := Compressed(p, |p|).value;
    RoundTrip(p, |p|);
  }

  lemma LengthRoundTrip(n: nat, c: seq<byte>)
    requires n <= MAX_SIZE
    ensures var body := Little(n, 4) + c; |body| >= 4 && FromLittle(body[..4]) == n && body[4..] == c
  {
    hide Little, FromLittle;
    var body := Little(n, 4) + c;
    assert body[..4] == Little(n, 4) && body[4..] == c;
    LittleRoundTrip(n, 4);
    Pow256Four();
    SmallRemainder(n, Pow256(4));
  }

  lemma PackedRoundTrip(h: Header, p: seq<byte>)
    requires Packed(p).Some? && 0 < |p| <= MAX_SIZE && h.flags % 2 == 1
    ensures Unpacked(h, Packed(p).value) == Some(p)
  {
    var c := PackedParts(p);
    LengthRoundTrip(|p|, c);
  }

  /** What a receiver makes of one frame: nothing if the header is refused or the
      body cannot be unpacked. */
  function Received(m: Message): Option<seq<byte>>
  {
    if ReadHeader(HeaderBytes(HeaderOf(m))).None? then None else Unpacked(HeaderOf(m), Body(m))
  }

  lemma BodySize(m: Message)
    requires m.payload != []
    ensures 0 < |Body(m)| <= |m.payload| && (Packed(m.payload).None? ==> Body(m) == m.payload)
    ensures HeaderOf(m).flags % 2 == (if Packed(m.payload).Some? then 1 else 0)
  {
  }

  /** A message arrives as it was sent exactly if it has at most 256 MB, compressed or not. */
  lemma ReceivedIff(m: Message)
    requires 0 < |m.payload| < Pow256(8)
    ensures Received(m) == Some(m.payload) <==> |m.payload| <= MAX_SIZE
  {
    var h := HeaderOf(m);
    BodySize(m);
    HeaderRoundTrip(h);
    if |m.payload| <= MAX_SIZE {
      if Packed(m.payload).Some? { PackedRoundTrip(h, m.payload); }
    } else if Packed(m.payload).Some? {
      assert Unpacked(h, Body(m)).Some? ==> |Unpacked(h, Body(m)).value| <= MAX_SIZE;
    }
  }

  /** What a receiver needs to know about a sendable message. */
  lemma FrameAccepted(m: Message)
    requires 0 < |m.payload| <= MAX_SIZE
    ensures ReadHeader(HeaderBytes(HeaderOf(m))) == Some(HeaderOf(m)) && HeaderOf(m).size == |Body(m)| > 0
    ensures Unpacked(HeaderOf(m), Body(m)) == Some(m.payload)
  {
    assert Pow256(3) == 0x100_0000;
    assert Pow256(5) == 0x100_0000 * 0x1_0000;
    assert Pow256(8) > MAX_SIZE;
    BodySize(m);
    ReceivedIff(m);
    HeaderRoundTrip(HeaderOf(m));
  }

  /** A payload is sent as it is, unless it has more than 2000 bytes and the compressed form and
      its four-byte length are shorter. */
  lemma SentAsItIsIff(m: Message)
    ensures var e := Encode(Delta(m.payload));
      if |m.payload| <= 2000 || |e| + 4 >= |m.payload| then Body(m) == m.payload && Flags(m) == m.extra
      else (
        && Flags(m) == m.extra + 1 && |Body(m)| == |e| + 4 && Body(m)[4..] == e
        && forall i :: 0 <= i < 4 ==> Body(m)[i] == (|m.payload| / Pow256(i)) % 256)
  {
    hide Little, Encode, Delta;
    forall i | 0 <= i < 4 ensures Little(|m.payload|, 4)[i] == (|m.payload| / Pow256(i)) % 256 { LittleAt(|m.payload|, 4, i); }
  }

  // ---------- writing and unpacking ----------

  /** Frames a serialized value; a value without a serialization is refused. */
  method WriteMessage(payload: array<byte>, msgtype: byte, extra: Extra) returns (ok: bool, out: seq<byte>)
    ensures ok == (payload.Length > 0)
    ensures ok ==> out == Frame(Message(payload[..], msgtype, extra))
  {
    ok, out := payload.Length > 0, [];
    if !ok { return; }
    ghost var m := Message(payload[..], msgtype, extra);
    var body, flags := payload[..], extra as int;
    if payload.Length > THRESHOLD {
      var comp := new byte[payload.Length];
      var clen := Compress(payload, comp);
      if clen > 0 && clen + 4 < payload.Length {
        body := Little(payload.Length, 4) + comp[..clen];
        flags := extra + FLAG_COMPRESSED;
      }
    }
    PackedIs(payload[..]);
    assert body == Body(m) && flags == Flags(m);
    out := HeaderBytes(Header(flags, msgtype, |body|)) + body;
  }

  lemma PackedIs(p: seq<byte>)
    ensures Packed(p).Some? ==> |p| > THRESHOLD && |Compressed(p, |p|).value| > 0
  {
  }

  method Unpack(h: Header, body: seq<byte>) returns (p: Option<seq<byte>>)
    ensures p == Unpacked(h, body)
  {
    if h.flags % 2 == 0 { return Some(body); }
    if |body| < 4 { return None; }
    var size := FromLittle(body[..4]);
    if size == 0 || size > MAX_SIZE { return None; }
    var dst := new byte[size];
    var n := Decompress(body[4..], dst);
    if n != size { return None; }
    assert dst[..n] == dst[..];
    return Some(dst[..]);
  }
}
