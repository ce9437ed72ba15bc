/** Full-duplex request and reply on one connection.  Each peer is single-threaded:
    it evaluates, or waits for a reply and meanwhile evaluates what arrives.  Frames
    travel in order; no socket fails. */
module Sync {
  import opened Wrappers

  /** Requests are numbered in the order in which they are sent; a response carries the
      number of the request it answers (the wire does not). */
  datatype Frame = Async(id: nat) | Sync(id: nat) | Resp(id: nat)

  /** What a peer is in the middle of. */
  datatype Act = Eval(id: nat, answer: bool) | Wait(id: nat)

  /** Frames on their way to the peer, its activities (the last one is running), and the
      state of its sync round trip: the request last sent, and a response deposited and
      not yet picked up. */
  datatype Peer = Peer(inbox: seq<Frame>, stack: seq<Act>, waiting: bool, request: nat, reply: Option<nat>)

  /** returned: for each finished sync send, its request and the reply it got. */
  datatype State = State(me: Peer, you: Peer, next: nat, returned: seq<(nat, nat)>)

  datatype Action = Receive | SendAsync | SendSync | Finish | Return

  function Swap(s: State): State { s.(me := s.you, you := s.me) }

  predicate Evaluating(p: Peer) { p.stack != [] && p.stack[|p.stack| - 1].Eval? }
  predicate Awaiting(p: Peer) { p.stack != [] && p.stack[|p.stack| - 1].Wait? }

  /** The peer in the event loop or in a wait takes frames; in the event loop or in an
      evaluation it sends. */
  predicate Enabled(s: State, a: Action) {
    match a
    case Receive => !Evaluating(s.me) && s.me.inbox != []
    case SendAsync => !Awaiting(s.me)
    case SendSync => !Awaiting(s.me)
    case Finish => Evaluating(s.me)
    case Return => Awaiting(s.me) && s.me.reply.Some?
  }

  function Post(p: Peer, f: Frame): Peer { p.(inbox := p.inbox + [f]) }

  function Take(p: Peer): Peer
    requires p.inbox != []
  {
    var rest := p.(inbox := p.inbox[1..]);
    match p.inbox[0]
    case Async(n) => rest.(stack := p.stack + [Eval(n, false)])
    case Sync(n) => rest.(stack := p.stack + [Eval(n, true)])
    case Resp(n) => if p.waiting && p.reply.None? then rest.(reply := Some(n)) else rest
  }

  /** One step of `me`. */
  function Apply(s: State, a: Action): State
    requires Enabled(s, a)
  {
    match a
    case Receive => s.(me := Take(s.me))
    case SendAsync => s.(you := Post(s.you, Async(s.next)), next := s.next + 1)
    case SendSync =>
      if s.me.waiting then s              // refused: a wait on this connection is under way
      else
        s.(me := s.me.(stack := s.me.stack + [Wait(s.next)], waiting := true, request := s.next, reply := None),
           you := Post(s.you, Sync(s.next)), next := s.next + 1)
    case Finish =>
      var n := |s.me.stack| - 1;
      var e := s.me.stack[n];
      var s1 := s.(me := s.me.(stack := s.me.stack[..n]));
      if e.answer then s1.(you := Post(s.you, Resp(e.id))) else s1
    case Return =>
      var n := |s.me.stack| - 1;
      s.(me := s.me.(stack := s.me.stack[..n], waiting := false, reply := None),
         returned := s.returned + [(s.me.stack[n].id, s.me.reply.value)])
  }

  predicate Idle(p: Peer) { p.inbox == [] && p.stack == [] && !p.waiting && p.reply.None? }

  /** A connection just opened. */
  predicate Init(s: State) { Idle(s.me) && Idle(s.you) && s.returned == [] }

  // ---------- where a request is ----------

  predicate IsSync(f: Frame) { f.Sync? }
  predicate IsResp(f: Frame) { f.Resp? }
  predicate IsEval(e: Act) { e.Eval? && e.answer }
  predicate IsWait(e: Act) { e.Wait? }

  function One(b: bool): nat { if b then 1 else 0 }

  /** Responses, or else sync requests, among the frames. */
  function Frames(q: seq<Frame>, resp: bool): nat {
    if q == [] then 0 else One(if resp then IsResp(q[0]) else IsSync(q[0])) + Frames(q[1..], resp)
  }

  /** Waits, or else evaluations of sync requests, among the activities. */
  function Acts(k: seq<Act>, wait: bool): nat {
    if k == [] then 0
    else Acts(k[..|k| - 1], wait) + One(if wait then IsWait(k[|k| - 1]) else IsEval(k[|k| - 1]))
  }

  lemma {:induction false} FramesPost(q: seq<Frame>, f: Frame, resp: bool)
    ensures Frames(q + [f], resp) == Frames(q, resp) + One(if resp then IsResp(f) else IsSync(f))
    decreases |q|
  {
    if q == [] {
      assert [f][1..] == [] && q + [f] == [f];
    } else {
      assert (q + [f])[1..] == q[1..] + [f];
      FramesPost(q[1..], f, resp);
    }
  }

  lemma ActsPush(k: seq<Act>, e: Act, wait: bool)
    ensures Acts(k + [e], wait) == Acts(k, wait) + One(if wait then IsWait(e) else IsEval(e))
  {
    assert (k + [e])[..|k|] == k;
  }

  lemma {:induction false} FramesSome(q: seq<Frame>, resp: bool)
    ensures Frames(q, resp) > 0 <==> exists i :: 0 <= i < |q| && if resp then IsResp(q[i]) else IsSync(q[i])
    decreases |q|
  {
    if q != [] {
      FramesSome(q[1..], resp);
      assert forall i :: 0 <= i < |q| - 1 ==> q[1..][i] == q[i + 1];
      assert forall i :: 0 < i < |q| ==> q[i] == q[1..][i - 1];
    }
  }

  lemma {:induction false} ActsSome(k: seq<Act>, wait: bool)
    ensures Acts(k, wait) > 0 <==> exists i :: 0 <= i < |k| && if wait then IsWait(k[i]) else IsEval(k[i])
    decreases |k|
  {
    if k != [] {
      ActsSome(k[..|k| - 1], wait);
      assert forall i :: 0 <= i < |k| - 1 ==> k[..|k| - 1][i] == k[i];
    }
  }

  /** My requests not yet answered to me: on their way, being evaluated, answered and on
      the way back, or deposited. */
  function Outstanding(s: State): nat {
    Frames(s.you.inbox, false) + Acts(s.you.stack, false) + Frames(s.me.inbox, true) + One(s.me.reply.Some?)
  }

  // ---------- what every step keeps ----------

  /** What is outstanding is what I wait for, which is at most one request. */
  ghost predicate Counted(s: State) {
    Outstanding(s) == Acts(s.me.stack, true) == One(s.me.waiting)
  }

  /** Whatever carries a request of mine carries the one I wait for. */
  ghost predicate Mine(s: State) {
    var n := s.me.request;
    && (forall i :: 0 <= i < |s.you.inbox| && IsSync(s.you.inbox[i]) ==> s.you.inbox[i].id == n)
    && (forall i :: 0 <= i < |s.you.stack| && IsEval(s.you.stack[i]) ==> s.you.stack[i].id == n)
    && (forall i :: 0 <= i < |s.me.inbox| && IsResp(s.me.inbox[i]) ==> s.me.inbox[i].id == n)
    && (s.me.reply.Some? ==> s.me.reply.value == n)
    && (forall i :: 0 <= i < |s.me.stack| && IsWait(s.me.stack[i]) ==> s.me.stack[i].id == n)
  }

  ghost predicate Half(s: State) { Counted(s) && Mine(s) }

  /** Requests are numbered in time: a wait is younger than everything below it. */
  ghost predicate Ordered(p: Peer, next: nat) {
    && (forall i :: 0 <= i < |p.stack| ==> p.stack[i].id < next)
    && (forall i :: 0 <= i < |p.inbox| ==> p.inbox[i].id < next)
    && (forall i, j :: 0 <= i < j < |p.stack| && p.stack[j].Wait? ==> p.stack[i].id < p.stack[j].id)
  }

  ghost predicate Inv(s: State) {
    && Half(s) && Half(Swap(s)) && Ordered(s.me, s.next) && Ordered(s.you, s.next)
    && forall i :: 0 <= i < |s.returned| ==> s.returned[i].0 == s.returned[i].1
  }

  /** Taking a frame that starts an evaluation: my own round trip does not see it. */
  lemma TakeEvalMine(s: State, n: nat, answer: bool)
    requires Inv(s) && Enabled(s, Receive) && s.me.inbox[0] == (if answer then Frame.Sync(n) else Async(n))
    ensures Counted(Apply(s, Receive))
  {
    ActsPush(s.me.stack, Eval(n, answer), true);
    assert Apply(s, Receive).me.stack == s.me.stack + [Eval(n, answer)];
  }

  /** A request of the other peer moves from the wire to my stack. */
  lemma TakeEvalTheirs(s: State, n: nat, answer: bool)
    requires Inv(s) && Enabled(s, Receive) && s.me.inbox[0] == (if answer then Frame.Sync(n) else Async(n))
    ensures Counted(Swap(Apply(s, Receive)))
  {
    ActsPush(s.me.stack, Eval(n, answer), false);
    assert Apply(s, Receive).me.stack == s.me.stack + [Eval(n, answer)];
  }

  lemma TakeResp(s: State)
    requires Inv(s) && Enabled(s, Receive) && s.me.inbox[0].Resp?
    ensures Counted(Apply(s, Receive)) && Counted(Swap(Apply(s, Receive)))
    ensures s.me.waiting && s.me.reply.None?
  {
  }

  lemma TakeIds(s: State)
    requires Inv(s) && Enabled(s, Receive)
    ensures Mine(Apply(s, Receive)) && Mine(Swap(Apply(s, Receive)))
  {
  }

  lemma ReceiveKeeps(s: State)
    requires Inv(s) && Enabled(s, Receive)
    ensures Half(Apply(s, Receive)) && Half(Swap(Apply(s, Receive)))
  {
    TakeIds(s);
    match s.me.inbox[0]
    case Async(n) =>
      TakeEvalMine(s, n, false);
      TakeEvalTheirs(s, n, false);
    case Sync(n) =>
      TakeEvalMine(s, n, true);
      TakeEvalTheirs(s, n, true);
    case Resp(n) => TakeResp(s);
  }

  /** With nothing outstanding there is no trace of a request. */
  lemma NoTrace(s: State)
    requires Inv(s) && !s.me.waiting
    ensures forall i :: 0 <= i < |s.you.inbox| ==> !IsSync(s.you.inbox[i])
    ensures forall i :: 0 <= i < |s.you.stack| ==> !IsEval(s.you.stack[i])
    ensures forall i :: 0 <= i < |s.me.inbox| ==> !IsResp(s.me.inbox[i])
    ensures forall i :: 0 <= i < |s.me.stack| ==> !IsWait(s.me.stack[i])
    ensures s.me.reply.None?
  {
    FramesSome(s.you.inbox, false);
    ActsSome(s.you.stack, false);
    FramesSome(s.me.inbox, true);
    ActsSome(s.me.stack, true);
  }

  lemma PostKeeps(s: State)
    requires Inv(s) && Enabled(s, SendAsync)
    ensures Half(Apply(s, SendAsync)) && Half(Swap(Apply(s, SendAsync)))
  {
    FramesPost(s.you.inbox, Async(s.next), false);
    FramesPost(s.you.inbox, Async(s.next), true);
  }

  lemma SendKeeps(s: State)
    requires Inv(s) && Enabled(s, SendSync)
    ensures Half(Apply(s, SendSync)) && Half(Swap(Apply(s, SendSync)))
  {
    if !s.me.waiting {
      NoTrace(s);
      var f := Frame.Sync(s.next);
      FramesPost(s.you.inbox, f, false);
      FramesPost(s.you.inbox, f, true);
      ActsPush(s.me.stack, Wait(s.next), true);
      ActsPush(s.me.stack, Wait(s.next), false);
    }
  }

  /** Removing the last activity. */
  lemma Popped(s: State)
    requires s.me.stack != []
    ensures var n := |s.me.stack| - 1;
      && Acts(s.me.stack, false) == Acts(s.me.stack[..n], false) + One(IsEval(s.me.stack[n]))
      && Acts(s.me.stack, true) == Acts(s.me.stack[..n], true) + One(IsWait(s.me.stack[n]))
  {
  }

  lemma FinishKeeps(s: State)
    requires Inv(s) && Enabled(s, Finish)
    ensures Half(Apply(s, Finish)) && Half(Swap(Apply(s, Finish)))
  {
    var e := s.me.stack[|s.me.stack| - 1];
    Popped(s);
    if e.answer {
      FramesPost(s.you.inbox, Resp(e.id), false);
      FramesPost(s.you.inbox, Resp(e.id), true);
    }
  }

  lemma ReturnKeeps(s: State)
    requires Inv(s) && Enabled(s, Return)
    ensures Half(Apply(s, Return)) && Half(Swap(Apply(s, Return)))
    ensures s.me.waiting && s.me.reply.value == s.me.stack[|s.me.stack| - 1].id
  {
    Popped(s);
  }

  lemma OrderKeeps(s: State, a: Action)
    requires Inv(s) && Enabled(s, a)
    ensures var t := Apply(s, a); Ordered(t.me, t.next) && Ordered(t.you, t.next)
  {
    hide Half, Counted, Mine;
    match a
    case Receive =>
    case SendAsync =>
    case SendSync =>
    case Finish =>
    case Return =>
  }

  /** Every step of either peer keeps the invariant. */
  lemma StepKeeps(s: State, a: Action)
    requires Inv(s) && Enabled(s, a)
    ensures Inv(Apply(s, a))
  {
    OrderKeeps(s, a);
    match a
    case Receive => ReceiveKeeps(s);
    case Finish => FinishKeeps(s);
    case Return => ReturnKeeps(s);
    case SendAsync => PostKeeps(s);
    case SendSync => SendKeeps(s);
  }

  lemma SwapKeeps(s: State)
    requires Inv(s)
    ensures Inv(Swap(s)) && Swap(Swap(s)) == s
  {
  }

  // ---------- whole runs ----------

  /** A step of one peer or of the other. */
  datatype Move = Move(mine: bool, a: Action)

  predicate Possible(s: State, ms: seq<Move>)
    decreases |ms|
  {
    ms == [] || (Enabled(if ms[0].mine then s else Swap(s), ms[0].a) && Possible(Moved(s, ms[0]), ms[1..]))
  }

  function Moved(s: State, m: Move): State
    requires Enabled(if m.mine then s else Swap(s), m.a)
  {
    if m.mine then Apply(s, m.a) else Swap(Apply(Swap(s), m.a))
  }

  function After(s: State, ms: seq<Move>): State
    requires Possible(s, ms)
    decreases |ms|
  {
    if ms == [] then s else After(Moved(s, ms[0]), ms[1..])
  }

  lemma {:induction false} RunKeeps(s: State, ms: seq<Move>)
    requires Inv(s) && Possible(s, ms)
    ensures Inv(After(s, ms))
    decreases |ms|
  {
    if ms != [] {
      if ms[0].mine {
        StepKeeps(s, ms[0].a);
      } else {
        SwapKeeps(s);
        StepKeeps(Swap(s), ms[0].a);
        SwapKeeps(Apply(Swap(s), ms[0].a));
      }
      RunKeeps(Moved(s, ms[0]), ms[1..]);
    }
  }

  lemma InitInv(s: State)
    requires Init(s)
    ensures Inv(s)
  {
  }

  lemma InvBounds(s: State)
    requires Inv(s)
    ensures Outstanding(s) <= 1 && Outstanding(Swap(s)) <= 1
  {
    assert Counted(s) && Counted(Swap(s));
  }

  /** In every run, however asynchronous frames and reverse requests are nested: in each
      direction at most one sync request is outstanding, and every finished sync send
      returned the peer's reply to that very request. */
  lemma RepliesMatch(start: State, ms: seq<Move>)
    requires Init(start) && Possible(start, ms)
    ensures var s := After(start, ms);
      && Outstanding(s) <= 1 && Outstanding(Swap(s)) <= 1
      && forall i :: 0 <= i < |s.returned| ==> s.returned[i].0 == s.returned[i].1
  {
    InitInv(start);
    RunKeeps(start, ms);
    InvBounds(After(start, ms));
  }

  /** No response is dropped: whenever one arrives, a wait without a reply is under way. */
  lemma NoResponseLost(s: State)
    requires Inv(s) && Enabled(s, Receive) && s.me.inbox[0].Resp?
    ensures s.me.waiting && s.me.reply.None? && Apply(s, Receive).me.reply == Some(s.me.request)
  {
    TakeResp(s);
  }

  // ---------- no deadlock ----------

  /** A step that uses up what is there: a frame, an evaluation or a deposited reply. */
  predicate Advances(s: State) {
    Enabled(s, Receive) || Enabled(s, Finish) || Enabled(s, Return)
  }

  /** A peer stuck in a wait: no reply, and nothing arriving. */
  predicate Stuck(s: State) { Awaiting(s.me) && s.me.reply.None? && s.me.inbox == [] }

  /** If both were stuck, each one's request would be under evaluation below the other's
      wait, and so be older than it. */
  lemma StuckBelow(s: State)
    requires Inv(s) && Stuck(s) && s.you.inbox == []
    ensures exists i :: 0 <= i < |s.you.stack| && s.you.stack[i] == Eval(s.me.stack[|s.me.stack| - 1].id, true)
  {
    Popped(s);
    ActsSome(s.you.stack, false);
  }

  /** While anyone waits, one of the two peers can take a frame, finish an evaluation or
      pick up a reply: nested requests in both directions never block each other. */
  lemma NoDeadlock(s: State)
    requires Inv(s) && Awaiting(s.me)
    ensures Advances(s) || Advances(Swap(s))
  {
    if !Advances(s) && !Advances(Swap(s)) {
      SwapKeeps(s);
      var w := s.me.stack[|s.me.stack| - 1].id;
      StuckBelow(s);
      var i :| 0 <= i < |s.you.stack| && s.you.stack[i] == Eval(w, true);
      assert Awaiting(s.you);
      var u := s.you.stack[|s.you.stack| - 1].id;
      StuckBelow(Swap(s));
      assert false;
    }
  }

  // ---------- every request is evaluated ----------

  /** A request as it is sent and as it is evaluated: its number, and whether it is answered. */
  datatype Req = Req(id: nat, answered: bool)

  function Reqs(q: seq<Frame>): seq<Req> {
    if q == [] then []
    else (if q[0].Resp? then [] else [Req(q[0].id, q[0].Sync?)]) + Reqs(q[1..])
  }

  function PeerOf(s: State, mine: bool): Peer { if mine then s.me else s.you }

  /** The evaluation that a peer has begun between two states, seen from its activities. */
  function Begun(p: Peer, q: Peer): seq<Req> {
    if |q.stack| == |p.stack| + 1 && q.stack[|p.stack|].Eval? then [Req(q.stack[|p.stack|].id, q.stack[|p.stack|].answer)]
    else []
  }

  /** The request that a move sends to that peer: an asynchronous one always, a sync one unless
      the sender waits already. */
  function SentBy(s: State, m: Move, mine: bool): seq<Req> {
    if m.mine == mine then []
    else if m.a.SendAsync? then [Req(s.next, false)]
    else if m.a.SendSync? && !PeerOf(s, !mine).waiting then [Req(s.next, true)]
    else []
  }

  /** Over a run: what was sent to that peer, and what it has begun to evaluate. */
  function SentIn(s: State, ms: seq<Move>, mine: bool): seq<Req>
    requires Possible(s, ms)
    decreases |ms|
  {
    if ms == [] then [] else SentBy(s, ms[0], mine) + SentIn(Moved(s, ms[0]), ms[1..], mine)
  }

  function BegunIn(s: State, ms: seq<Move>, mine: bool): seq<Req>
    requires Possible(s, ms)
    decreases |ms|
  {
    if ms == [] then []
    else Begun(PeerOf(s, mine), PeerOf(Moved(s, ms[0]), mine)) + BegunIn(Moved(s, ms[0]), ms[1..], mine)
  }

  lemma {:induction false} ReqsPost(q: seq<Frame>, f: Frame)
    ensures Reqs(q + [f]) == Reqs(q) + (if f.Resp? then [] else [Req(f.id, f.Sync?)])
    decreases |q|
  {
    if q == [] {
      assert [f][1..] == [] && q + [f] == [f];
    } else {
      assert (q + [f])[1..] == q[1..] + [f];
      ReqsPost(q[1..], f);
    }
  }

  /** One move: what was there and what comes is what is begun and what stays. */
  lemma MoveAccounts(s: State, m: Move, mine: bool)
    requires Enabled(if m.mine then s else Swap(s), m.a)
    ensures var t := Moved(s, m);
      Reqs(PeerOf(s, mine).inbox) + SentBy(s, m, mine) == Begun(PeerOf(s, mine), PeerOf(t, mine)) + Reqs(PeerOf(t, mine).inbox)
  {
    var t := Moved(s, m);
    if m.mine == mine {
      OwnMove(if mine then s else Swap(s), m.a);
    } else {
      OtherMove(if mine then Swap(s) else s, m.a);
    }
  }

  lemma OwnMove(s: State, a: Action)
    requires Enabled(s, a)
    ensures Reqs(s.me.inbox) + [] == Begun(s.me, Apply(s, a).me) + Reqs(Apply(s, a).me.inbox)
  {
  }

  /** What `me` does to the other's inbox and activities. */
  lemma OtherMove(s: State, a: Action)
    requires Enabled(s, a)
    ensures Begun(s.you, Apply(s, a).you) == []
    ensures Reqs(Apply(s, a).you.inbox) == Reqs(s.you.inbox) + SentBy(s, Move(true, a), false)
  {
    if a.SendAsync? { ReqsPost(s.you.inbox, Async(s.next)); }
    if a.SendSync? { ReqsPost(s.you.inbox, Frame.Sync(s.next)); }
    if a.Finish? { ReqsPost(s.you.inbox, Resp(s.me.stack[|s.me.stack| - 1].id)); }
    assert Reqs(s.you.inbox) + [] == Reqs(s.you.inbox);
  }

  lemma {:induction false} RunAccounts(s: State, ms: seq<Move>, mine: bool)
    requires Possible(s, ms)
    ensures Reqs(PeerOf(s, mine).inbox) + SentIn(s, ms, mine) == BegunIn(s, ms, mine) + Reqs(PeerOf(After(s, ms), mine).inbox)
    decreases |ms|
  {
    if ms == [] {
      assert Reqs(PeerOf(s, mine).inbox) + [] == [] + Reqs(PeerOf(s, mine).inbox);
    } else {
      var t := Moved(s, ms[0]);
      MoveAccounts(s, ms[0], mine);
      RunAccounts(t, ms[1..], mine);
      Regroup(Reqs(PeerOf(s, mine).inbox), SentBy(s, ms[0], mine), Begun(PeerOf(s, mine), PeerOf(t, mine)), Reqs(PeerOf(t, mine).inbox),
              SentIn(t, ms[1..], mine), BegunIn(t, ms[1..], mine), Reqs(PeerOf(After(s, ms), mine).inbox));
    }
  }

  lemma Regroup(a: seq<Req>, b: seq<Req>, c: seq<Req>, d: seq<Req>, e: seq<Req>, f: seq<Req>, g: seq<Req>)
    requires a + b == c + d && d + e == f + g
    ensures a + (b + e) == (c + f) + g
  {
    assert a + (b + e) == (a + b) + e == c + (d + e) == (c + f) + g;
  }

  /** In every run, in each direction: the requests a peer has begun to evaluate, and then those
      still in its inbox, are exactly the ones the other has sent, asynchronous and sync, in
      order and each once. */
  lemma EveryRequestIsEvaluated(start: State, ms: seq<Move>, mine: bool)
    requires Init(start) && Possible(start, ms)
    ensures SentIn(start, ms, mine) == BegunIn(start, ms, mine) + Reqs(PeerOf(After(start, ms), mine).inbox)
  {
    RunAccounts(start, ms, mine);
    assert [] + SentIn(start, ms, mine) == SentIn(start, ms, mine);
  }

  /** Requests have numbers of their own, which grow. */
  lemma {:induction false} SentGrow(s: State, ms: seq<Move>, mine: bool)
    requires Possible(s, ms)
    ensures forall i :: 0 <= i < |SentIn(s, ms, mine)| ==> SentIn(s, ms, mine)[i].id >= s.next
    ensures forall i, j :: 0 <= i < j < |SentIn(s, ms, mine)| ==> SentIn(s, ms, mine)[i].id < SentIn(s, ms, mine)[j].id
    decreases |ms|
  {
    if ms != [] { SentGrow(Moved(s, ms[0]), ms[1..], mine); }
  }

  function ReturnsIn(ms: seq<Move>): nat {
    if ms == [] then 0 else (if ms[0].a.Return? then 1 else 0) + ReturnsIn(ms[1..])
  }

  /** Each return hands a reply to the send that waited, which is over. */
  lemma ReturnHands(s: State)
    requires Inv(s) && Enabled(s, Return)
    ensures var t := Apply(s, Return); var n := |s.me.stack| - 1;
      && t.returned == s.returned + [(s.me.request, s.me.request)] && t.me.stack == s.me.stack[..n]
      && s.me.stack[n] == Wait(s.me.request) && !t.me.waiting && t.me.reply.None? && t.you == s.you
  {
    ReturnKeeps(s);
  }

  lemma {:induction false} ReturnsCount(s: State, ms: seq<Move>)
    requires Possible(s, ms)
    ensures |After(s, ms).returned| == |s.returned| + ReturnsIn(ms)
    decreases |ms|
  {
    if ms != [] { ReturnsCount(Moved(s, ms[0]), ms[1..]); }
  }
}
