/** The two servers' connection objects, with their receive buffers, fed by recv
    calls that return as many bytes as they like. */
module Connection {
  import opened Wrappers
  import opened Codec
  import opened Wire
  import opened Session

  /** One recv: at least one byte, at most what was asked for and what has arrived. */
  method Recv(room: nat, left: nat) returns (n: nat)
    requires room > 0 && left > 0
    ensures 1 <= n <= room && n <= left
  {
    n :| 1 <= n <= room && n <= left;
  }

  datatype Reader = ReadHandshake | ReadCreds | ReadHeader | ReadPayload

  /** A selector of the poll-based server. */
  class PollConn {
    const pol: Policy
    var data: array<byte>
    var size: nat
    var offset: nat
    var reader: Reader
    var hdr: Header
    var open: bool
    var log: seq<Event>
    ghost var got: seq<byte>                  // data[..offset]

    ghost predicate Valid()
      reads this, data
    {
      open ==>
        && offset <= size <= data.Length && |got| == offset && (forall k :: 0 <= k < offset ==> data[k] == got[k])
        && match reader
           case ReadHandshake => size == 2
           case ReadCreds => size == 1 || (got != [] && got[0] > 0 && size == 1 + got[0] as int)
           case ReadHeader => size == HEADER_SIZE
           case ReadPayload => size == hdr.size > 0
    }

    /** The phase and the bytes of it received, as in Session. */
    ghost function Phase(): Phase
      requires Valid()
      reads this, data
    {
      if !open then Dead
      else
        match reader
        case ReadHandshake => Shake
        case ReadCreds => if size == 1 then CredLen else Creds(size - 1)
        case ReadHeader => Head
        case ReadPayload => Payload(hdr)
    }

    ghost function Bytes(): seq<byte>
      requires Valid()
      reads this, data
    {
      if !open then [] else if reader.ReadCreds? && size > 1 then got[1..] else got
    }

    ghost function Abs(): Conn
      requires Valid()
      reads this, data
    {
      Conn(Phase(), Bytes(), log)
    }

    constructor (pol: Policy)
      ensures Valid() && Abs() == START && fresh(data) && this.pol == pol
    {
      this.pol := pol;
      data, size, offset := new byte[2], 2, 0;
      reader, hdr, open, log := ReadHandshake, Header(0, 0, 1), true, [];
      got := [];
    }

    /** A fresh request for n bytes: the buffer is reused if it is large enough. */
    method RxRequest(n: nat)
      requires size <= data.Length
      modifies this`data, this`size, this`offset, this`got
      ensures size == n <= data.Length && offset == 0 && got == [] && (data == old(data) || fresh(data))
    {
      if size >= n {
        offset, size := 0, n;
      } else {
        data, size, offset := new byte[n], n, 0;
      }
      got := [];
    }

    /** What a completed phase leads to. */
    ghost predicate Advanced(p: Phase, bytes: seq<byte>, before: seq<Event>)
      requires !p.Dead? && |bytes| == Need(p) > 0
      reads this, data
    {
      var r := Advance(Poll, pol, p, bytes);
      Valid() && Abs() == Conn(r.0, [], before + r.1) && (open ==> offset < size)
    }

    method OnHandshake()
      requires Valid() && open && reader.ReadHandshake? && offset == size
      modifies this
      ensures Advanced(Shake, old(got), old(log)) && (data == old(data) || fresh(data))
    {
      if data[0] != VERSION {
        open := false;
        assert log + [] == log;
        return;
      }
      if pol.auth {
        log := log + [Sent([VERSION, 1])];
        reader := ReadCreds;
        RxRequest(1);
        return;
      }
      log := log + [Sent([VERSION, 0]), Opened];
      reader := ReadHeader;
      RxRequest(HEADER_SIZE);
    }

    /** Called for the length byte, and again when the credentials are complete. */
    method OnCreds()
      requires Valid() && open && reader.ReadCreds? && offset == size
      modifies this
      ensures Advanced(old(Phase()), old(Bytes()), old(log)) && (data == old(data) || fresh(data))
    {
      var credLen: nat := data[0];
      var need := 1 + credLen;
      if size < need {
        var nb := new byte[need];
        nb[0] := data[0];
        data, size, offset := nb, need, 1;
        got := [nb[0]];
        assert got[1..] == [] && log + [] == log;
        return;
      }
      var creds := data[1..1 + credLen];
      assert credLen > 0 ==> creds == got[1..];
      if credLen == 0 || !pol.accept(creds) {
        log := log + [Sent([1])];
        open := false;
        return;
      }
      log := log + [Sent([0]), Opened];
      reader := ReadHeader;
      RxRequest(HEADER_SIZE);
    }

    method OnHeader()
      requires Valid() && open && reader.ReadHeader? && offset == size
      modifies this
      ensures Advanced(Head, old(got), old(log)) && (data == old(data) || fresh(data))
    {
      var raw := data[..HEADER_SIZE];
      assert raw == got && log + [] == log;
      match Wire.ReadHeader(raw)
      case None => open := false;
      case Some(h) =>
        hdr := h;
        reader := ReadPayload;
        RxRequest(h.size);
    }

    /** The payload is detached, and the next header requested, before it is dispatched. */
    method OnPayload()
      requires Valid() && open && reader.ReadPayload? && offset == size
      modifies this
      ensures Advanced(Payload(old(hdr)), old(got), old(log)) && (data == old(data) || fresh(data))
    {
      var h := hdr;
      var payload := data[..offset];
      assert payload == got;
      size := 0;
      reader := ReadHeader;
      RxRequest(HEADER_SIZE);
      log := log + [if h.msgtype == RESP then Deposited(h, payload) else Dispatched(h, payload)];
    }

    /** One recv into the rest of the requested buffer. */
    method FillOnce(avail: seq<byte>, at: nat) returns (next: nat)
      requires Valid() && open && offset < size && at < |avail|
      modifies this`offset, this`got, data
      ensures Valid() && at < next <= |avail|
      ensures got == old(got) + avail[at..next] && offset == old(offset) + (next - at) <= size
    {
      hide Feed;
      var n := Recv(size - offset, |avail| - at);
      forall k | 0 <= k < n { data[offset + k] := avail[at + k]; }
      got := got + avail[at..at + n];
      offset, next := offset + n, at + n;
    }

    /** Fills the requested buffer as far as the socket goes. */
    method Fill(avail: seq<byte>, at: nat) returns (next: nat)
      requires Valid() && open && offset < size && at <= |avail|
      modifies this`offset, this`got, data
      ensures Valid() && at <= next <= |avail| && (offset == size || next == |avail|) && (at < |avail| ==> at < next)
      ensures got == old(got) + avail[at..next] && offset == old(offset) + (next - at)
    {
      hide Feed;
      next := at;
      while offset < size && next < |avail|
        invariant Valid() && at <= next <= |avail| && offset == old(offset) + (next - at) && offset <= size
        invariant got == old(got) + avail[at..next]
        decreases size - offset
      {
        var was := next;
        next := FillOnce(avail, next);
        assert avail[at..next] == avail[at..was] + avail[was..next];
      }
    }

    method Collect(avail: seq<byte>, at: nat) returns (next: nat)
      requires Valid() && open && offset < size && at < |avail|
      modifies this`offset, this`got, data
      ensures Valid() && at < next <= |avail| && (offset == size || next == |avail|)
      ensures Phase() == old(Phase()) && Bytes() == old(Bytes()) + avail[at..next]
      ensures offset == size <==> |Bytes()| == Need(Phase())
    {
      next := Fill(avail, at);
    }

    /** The read function of the phase. */
    method Complete()
      requires Valid() && open && offset == size
      modifies this
      ensures Advanced(old(Phase()), old(Bytes()), old(log)) && (data == old(data) || fresh(data))
    {
      match reader
      case ReadHandshake => OnHandshake();
      case ReadCreds => OnCreds();
      case ReadHeader => OnHeader();
      case ReadPayload => OnPayload();
    }

    /** One turn of the rx loop: fill, and advance if the phase is complete. */
    method Turn(avail: seq<byte>, at: nat) returns (next: nat)
      requires Valid() && open && offset < size && at < |avail|
      modifies this, data
      ensures Valid() && (open ==> offset < size) && (data == old(data) || fresh(data))
      ensures at < next <= |avail| && Feed(Poll, pol, Abs(), avail[next..]) == Feed(Poll, pol, old(Abs()), avail[at..])
    {
      ghost var c := Abs();
      next := Collect(avail, at);
      Arrived(Poll, pol, c, avail, at, next);
      if offset == size { Complete(); }
    }

    /** The rx loop of the event loop, until the socket is dry or the connection closed. */
    method OnReadable(avail: seq<byte>)
      requires Valid() && (open ==> offset < size)
      modifies this, data
      ensures Valid() && (open ==> offset < size) && (data == old(data) || fresh(data))
      ensures Abs() == Feed(Poll, pol, old(Abs()), avail)
    {
      var at := 0;
      assert avail[0..] == avail;
      while open && at < |avail|
        invariant Valid() && (open ==> offset < size) && at <= |avail| && (data == old(data) || fresh(data))
        invariant Feed(Poll, pol, Abs(), avail[at..]) == Feed(Poll, pol, old(Abs()), avail)
        decreases |avail| - at
      {
        at := Turn(avail, at);
      }
      if !open { DeadFeed(Poll, pol, Abs(), avail[at..]); } else { assert avail[at..] == []; }
    }
  }

  lemma DeadFeed(kind: Kind, pol: Policy, c: Conn, s: seq<byte>)
    requires Session.Valid(c) && c.phase.Dead?
    ensures Feed(kind, pol, c, s) == c
    decreases |s|
  {
    if s != [] { DeadFeed(kind, pol, c, s[1..]); }
  }

  /** Feeding what one fill took, and then the rest. */
  lemma Arrived(kind: Kind, pol: Policy, c: Conn, avail: seq<byte>, at: nat, next: nat)
    requires Session.Valid(c) && !c.phase.Dead? && at <= next <= |avail| && |c.buf| + (next - at) <= Need(c.phase)
    ensures Feed(kind, pol, c, avail[at..]) ==
      Feed(kind, pol,
           if |c.buf| + (next - at) < Need(c.phase) then c.(buf := c.buf + avail[at..next])
           else var r := Advance(kind, pol, c.phase, c.buf + avail[at..next]); Conn(r.0, [], c.log + r.1),
           avail[next..])
  {
    assert avail[at..] == avail[at..next] + avail[next..];
    FeedConcat(kind, pol, c, avail[at..next], avail[next..]);
    FeedChunk(kind, pol, c, avail[at..next]);
  }

  datatype Stage = Handshake | Credentials | Heading | Loading

  /** A connection slot of the older server: one recv per readable event. */
  class LegacyConn {
    const pol: Policy
    var rxBuf: array?<byte>                   // null: allocated at the next event
    var rxLen: nat
    var rxNeed: nat
    var stage: Stage
    var hdr: Header
    var open: bool
    var log: seq<Event>
    ghost var got: seq<byte>                  // rxBuf[..rxLen]
    ghost var told: bool                      // the length byte of the credentials is processed

    ghost predicate Valid()
      reads this, rxBuf
    {
      open ==>
        && |got| == rxLen <= rxNeed && rxNeed > 0 && (rxBuf == null ==> rxLen == 0)
        && (rxBuf != null ==> rxBuf.Length == rxNeed && forall k :: 0 <= k < rxLen ==> rxBuf[k] == got[k])
        && match stage
           case Handshake => rxNeed == 2
           case Credentials => if !told then rxNeed == 1 else rxBuf != null && got != [] && rxNeed == 1 + got[0] as int
           case Heading => rxNeed == HEADER_SIZE
           case Loading => rxNeed == hdr.size > 0
    }

    ghost function Phase(): Phase
      requires Valid()
      reads this, rxBuf
    {
      if !open then Dead
      else
        match stage
        case Handshake => Shake
        case Credentials => if !told then CredLen else if rxNeed == 1 then Doomed else Creds(rxNeed - 1)
        case Heading => Head
        case Loading => Payload(hdr)
    }

    ghost function Bytes(): seq<byte>
      requires Valid()
      reads this, rxBuf
    {
      if !open then [] else if stage.Credentials? && told then got[1..] else got
    }

    ghost function Abs(): Conn
      requires Valid()
      reads this, rxBuf
    {
      Conn(Phase(), Bytes(), log)
    }

    constructor (pol: Policy)
      ensures Valid() && Abs() == START && this.pol == pol && rxBuf == null && open && rxLen < rxNeed
    {
      this.pol := pol;
      rxBuf, rxLen, rxNeed := null, 0, 2;
      stage, hdr, open, log, got, told := Handshake, Header(0, 0, 1), true, [], [], false;
    }

    method Close()
      modifies this
      ensures !open && Valid() && log == old(log) && rxBuf == null
    {
      open, rxBuf, rxLen, rxNeed, got := false, null, 0, 0, [];
    }

    ghost predicate Advanced(p: Phase, bytes: seq<byte>, before: seq<Event>)
      requires !p.Dead? && |bytes| == Need(p) > 0
      reads this, rxBuf
    {
      var r := Advance(Legacy, pol, p, bytes);
      Valid() && Abs() == Conn(r.0, [], before + r.1) && (open ==> rxLen < rxNeed || Phase().Doomed?)
    }

    method Expect(stage: Stage, n: nat)
      modifies this
      ensures this.stage == stage && rxNeed == n && rxLen == 0 && rxBuf == null && got == [] && !told
      ensures open == old(open) && log == old(log) && hdr == old(hdr)
    {
      this.stage, rxBuf, rxLen, rxNeed, got, told := stage, null, 0, n, [], false;
    }

    method OnHandshake()
      requires Valid() && open && stage.Handshake? && rxBuf != null && rxLen == rxNeed
      modifies this
      ensures Advanced(Shake, old(got), old(log)) && (rxBuf == null || fresh(rxBuf))
    {
      if rxBuf[0] != VERSION {
        Close();
        assert log + [] == log;
        return;
      }
      if pol.auth {
        log := log + [Sent([VERSION, 1])];
        Expect(Credentials, 1);
        return;
      }
      log := log + [Sent([VERSION, 0]), Opened];
      Expect(Heading, HEADER_SIZE);
    }

    /** Called for the length byte, and again when the credentials are complete. */
    method OnCreds()
      requires Valid() && open && stage.Credentials? && rxBuf != null && rxLen == rxNeed && !Phase().Doomed?
      modifies this
      ensures Advanced(old(Phase()), old(Bytes()), old(log)) && (rxBuf == null || fresh(rxBuf))
    {
      if rxLen == 1 {
        var credLen: nat := rxBuf[0];
        var nb := new byte[1 + credLen];
        nb[0] := rxBuf[0];
        rxBuf, rxNeed, told := nb, 1 + credLen, true;
        assert got[1..] == [] && log + [] == log;
        return;
      }
      var creds := rxBuf[1..rxLen];
      assert creds == got[1..];
      if !pol.accept(creds) {
        log := log + [Sent([1])];
        Close();
        return;
      }
      log := log + [Sent([0]), Opened];
      Expect(Heading, HEADER_SIZE);
    }

    method OnHeader()
      requires Valid() && open && stage.Heading? && rxBuf != null && rxLen == rxNeed
      modifies this
      ensures Advanced(Head, old(got), old(log)) && (rxBuf == null || fresh(rxBuf))
    {
      var raw := rxBuf[..HEADER_SIZE];
      assert raw == got && log + [] == log;
      match Wire.ReadHeader(raw)
      case None => Close();
      case Some(h) =>
        hdr := h;
        Expect(Loading, h.size);
        rxBuf := new byte[h.size];
    }

    method OnPayload()
      requires Valid() && open && stage.Loading? && rxBuf != null && rxLen == rxNeed
      modifies this
      ensures Advanced(Payload(old(hdr)), old(got), old(log)) && (rxBuf == null || fresh(rxBuf))
    {
      var payload := rxBuf[..rxLen];
      assert payload == got;
      log := log + [Dispatched(hdr, payload)];
      Expect(Heading, HEADER_SIZE);
    }

    method Complete()
      requires Valid() && open && rxBuf != null && rxLen == rxNeed && !Phase().Doomed?
      modifies this
      ensures Advanced(old(Phase()), old(Bytes()), old(log)) && (rxBuf == null || fresh(rxBuf))
    {
      match stage
      case Handshake => OnHandshake();
      case Credentials => OnCreds();
      case Heading => OnHeader();
      case Loading => OnPayload();
    }

    /** One recv into the buffer; 0 bytes when nothing is asked for. */
    method Take(avail: seq<byte>, at: nat) returns (next: nat)
      requires Valid() && open && (rxLen < rxNeed || Phase().Doomed?) && at < |avail|
      modifies this`rxBuf, this`rxLen, this`got, rxBuf
      ensures Valid() && rxBuf != null && (rxBuf == old(rxBuf) || fresh(rxBuf)) && at <= next <= |avail|
      ensures if old(Phase()).Doomed? then next == at else at < next
      ensures Phase() == old(Phase()) && Bytes() == old(Bytes()) + avail[at..next] && rxLen == old(rxLen) + (next - at) <= rxNeed
    {
      hide Feed;
      if rxBuf == null { rxBuf := new byte[rxNeed]; }
      if rxLen == rxNeed {
        assert Bytes() == old(Bytes()) + avail[at..at];
        return at;
      }
      var n := Recv(rxNeed - rxLen, |avail| - at);
      forall k | 0 <= k < n { rxBuf[rxLen + k] := avail[at + k]; }
      got := got + avail[at..at + n];
      rxLen := rxLen + n;
      next := at + n;
    }

    /** One readable event. */
    method OnReadable(avail: seq<byte>, at: nat) returns (next: nat)
      requires Valid() && open && (rxLen < rxNeed || Phase().Doomed?) && at < |avail|
      modifies this, rxBuf
      ensures Valid() && (open ==> (rxLen < rxNeed || Phase().Doomed?) && at < next)
      ensures (rxBuf == null || rxBuf == old(rxBuf) || fresh(rxBuf))
      ensures at <= next <= |avail| && Feed(Legacy, pol, Abs(), avail[next..]) == Feed(Legacy, pol, old(Abs()), avail[at..])
    {
      ghost var c := Abs();
      next := Take(avail, at);
      if next == at {
        Close();
        HangUp(pol, c, avail[at..]);
        return;
      }
      Arrived(Legacy, pol, c, avail, at, next);
      if rxLen == rxNeed { Complete(); }
    }

    /** Events until everything has been read or the connection is closed. */
    method Serve(avail: seq<byte>)
      requires Valid() && (open ==> rxLen < rxNeed || Phase().Doomed?)
      modifies this, rxBuf
      ensures Valid() && Abs() == Feed(Legacy, pol, old(Abs()), avail) && (rxBuf == null || rxBuf == old(rxBuf) || fresh(rxBuf))
      ensures open ==> rxLen < rxNeed || Phase().Doomed?
    {
      var at := 0;
      assert avail[0..] == avail;
      while open && at < |avail|
        invariant Valid() && (open ==> rxLen < rxNeed || Phase().Doomed?) && at <= |avail|
        invariant (rxBuf == null || rxBuf == old(rxBuf) || fresh(rxBuf))
        invariant Feed(Legacy, pol, Abs(), avail[at..]) == Feed(Legacy, pol, old(Abs()), avail)
        decreases if open then 1 + |avail| - at else 0
      {
        at := OnReadable(avail, at);
      }
      if !open { DeadFeed(Legacy, pol, Abs(), avail[at..]); } else { assert avail[at..] == []; }
    }
  }

  lemma HangUp(pol: Policy, c: Conn, s: seq<byte>)
    requires Session.Valid(c) && c.phase.Doomed? && s != []
    ensures Feed(Legacy, pol, c, s) == Feed(Legacy, pol, Conn(Dead, [], c.log), s)
  {
    assert c.buf == [] && c.log + [] == c.log;
    DeadFeed(Legacy, pol, Conn(Dead, [], c.log), s);
    DeadFeed(Legacy, pol, Conn(Dead, [], c.log), s[1..]);
  }

  function Joined(chunks: seq<seq<byte>>): seq<byte> {
    if chunks == [] then [] else Joined(chunks[..|chunks| - 1]) + chunks[|chunks| - 1]
  }

  /** The stream is a login and then these messages, framed. */
  ghost predicate Sends(pol: Policy, login: seq<byte>, ms: seq<Message>, stream: seq<byte>) {
    Login(pol, login) && (forall i :: 0 <= i < |ms| ==> Sendable(ms[i])) && stream == login + Frames(ms)
  }

  /** Whatever way the stream is cut into chunks. */
  method ServePoll(pol: Policy, chunks: seq<seq<byte>>) returns (log: seq<Event>)
    ensures log == Feed(Poll, pol, START, Joined(chunks)).log
    ensures !Authorized(pol, Joined(chunks)) ==> log == RefusalLog(Poll, Joined(chunks))
    ensures forall login, ms :: Sends(pol, login, ms, Joined(chunks)) ==>
      log == Greeting(pol) + Arrivals(Poll, ms) && CarryAll(Arrivals(Poll, ms), ms)
  {
    var c := new PollConn(pol);
    for i := 0 to |chunks|
      invariant fresh(c) && fresh(c.data) && c.pol == pol && c.Valid() && (c.open ==> c.offset < c.size)
      invariant c.Abs() == Feed(Poll, pol, START, Joined(chunks[..i]))
    {
      c.OnReadable(chunks[i]);
      FeedConcat(Poll, pol, START, Joined(chunks[..i]), chunks[i]);
      assert chunks[..i + 1][..i] == chunks[..i];
    }
    assert chunks[..|chunks|] == chunks;
    log := c.log;
    if !Authorized(pol, Joined(chunks)) { RefusedHears(Poll, pol, Joined(chunks)); }
    forall login, ms | Sends(pol, login, ms, Joined(chunks))
      ensures log == Greeting(pol) + Arrivals(Poll, ms) && CarryAll(Arrivals(Poll, ms), ms)
    {
      SessionDelivers(Poll, pol, login, ms);
    }
  }

  method ServeLegacy(pol: Policy, chunks: seq<seq<byte>>) returns (log: seq<Event>)
    ensures log == Feed(Legacy, pol, START, Joined(chunks)).log
    ensures !Authorized(pol, Joined(chunks)) ==> log == RefusalLog(Legacy, Joined(chunks))
  {
    var c := new LegacyConn(pol);
    for i := 0 to |chunks|
      invariant fresh(c) && (c.rxBuf == null || fresh(c.rxBuf)) && c.pol == pol && c.Valid()
      invariant c.open ==> c.rxLen < c.rxNeed || c.Phase().Doomed?
      invariant c.Abs() == Feed(Legacy, pol, START, Joined(chunks[..i]))
    {
      c.Serve(chunks[i]);
      FeedConcat(Legacy, pol, START, Joined(chunks[..i]), chunks[i]);
      assert chunks[..i + 1][..i] == chunks[..i];
    }
    assert chunks[..|chunks|] == chunks;
    log := c.log;
    if !Authorized(pol, Joined(chunks)) { RefusedHears(Legacy, pol, Joined(chunks)); }
  }

  /** The two servers on one stream, cut into chunks differently and split by recv at will:
      the same requests in the same order, and nothing before authentication. */
  method ServeBoth(pol: Policy, some: seq<seq<byte>>, others: seq<seq<byte>>) returns (p: seq<Event>, l: seq<Event>)
    requires Joined(some) == Joined(others)
    ensures p == Relabelled(l) + (if EmptyCreds(pol, Joined(some)) then [Sent([1])] else [])
    ensures Requests(p) == Requests(l)
    ensures Served(p) <==> Authorized(pol, Joined(some))
    ensures Served(l) <==> Authorized(pol, Joined(some))
  {
    p := ServePoll(pol, some);
    l := ServeLegacy(pol, others);
    LogsDifferIn(pol, Joined(some));
    ServersAgree(pol, Joined(some));
    ServesIffAuthorized(Poll, pol, Joined(some));
    ServesIffAuthorized(Legacy, pol, Joined(some));
  }
}
