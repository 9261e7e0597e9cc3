/** The state byte over every run: it stays a state of the protocol, and the
    sequence of setState calls is a path through the diagram of RFC 793. */
module SocketStates {
  import opened Words
  import opened SocketModel
  import opened SocketKeeps

  /** Figure 6 in section 3.2 of RFC 793, the FIN-WAIT-1 to TIME-WAIT transition of
      section 3.9, and an abort to the idle state. */
  predicate Edge(host: bool, from: bv8, to: bv8) {
    || (from, to) in {
         (CLOSED, LISTEN), (CLOSED, SYN_SENT), (LISTEN, SYN_RECEIVED), (LISTEN, SYN_SENT), (LISTEN, CLOSED),
         (SYN_SENT, SYN_RECEIVED), (SYN_SENT, ESTABLISHED), (SYN_SENT, CLOSED),
         (SYN_RECEIVED, ESTABLISHED), (SYN_RECEIVED, FIN_WAIT_1),
         (ESTABLISHED, FIN_WAIT_1), (ESTABLISHED, CLOSE_WAIT),
         (FIN_WAIT_1, FIN_WAIT_2), (FIN_WAIT_1, CLOSING), (FIN_WAIT_2, TIME_WAIT), (CLOSING, TIME_WAIT),
         (CLOSE_WAIT, LAST_ACK), (LAST_ACK, CLOSED), (TIME_WAIT, CLOSED),
         (FIN_WAIT_1, TIME_WAIT) }
    || to == (if host then LISTEN else CLOSED)
  }

  predicate StateByte(state: bv8) {
    LISTEN <= state <= CLOSED || state == ESTABLISHED | AWAITING_ACK
  }

  ghost predicate Path(host: bool, edges: seq<(bv8, bv8)>, at: bv8) {
    && (forall i :: 0 <= i < |edges| ==> Edge(host, edges[i].0, edges[i].1))
    && (forall i :: 0 < i < |edges| ==> edges[i - 1].1 == edges[i].0)
    && (edges != [] ==> edges[|edges| - 1].1 == at)
  }

  ghost predicate Good(host: bool, s: Sock) {
    s.host == host && StateByte(s.state) && Path(host, s.edges, Low(s.state))
  }

  lemma PutGood(h: bool, s: Sock, state: bv8, now: nat)
    requires Good(h, s) && Edge(s.host, Low(s.state), state) && LISTEN <= state <= CLOSED
    ensures Good(h, Put(s, state, now))
  {
    hide Edge;
    assert Low(state) == state && StateByte(state);
    hide Low, StateByte;
    PathGrows(h, s.edges, Low(s.state), state);
  }

  lemma PathGrows(h: bool, edges: seq<(bv8, bv8)>, at: bv8, next: bv8)
    requires Path(h, edges, at) && Edge(h, at, next)
    ensures Path(h, edges + [(at, next)], next)
  {
    hide Edge;
  }

  lemma SendGood(h: bool, s: Sock, control: bv8, payload: seq<byte>, q: nat, a: nat)
    requires Good(h, s) && (payload != [] ==> Low(s.state) == ESTABLISHED)
    ensures Good(h, SendSegment(s, control, payload, q, a))
  {
  }

  lemma ScriptGood(h: bool, s: Sock, now: nat)
    requires Good(h, s)
    ensures Good(h, Exhausted(s)) && Good(h, Put(s, Idle(s), now))
    ensures s.script != [] ==> Good(h, Pop(s)) && (s.script[0].Done? ==> Good(h, Return(s)))
  {
    hide Path;
    PutGood(h, s, Idle(s), now);
  }

  lemma OverwrittenGood(h: bool, s: Sock, words: nibble)
    requires Good(h, s)
    ensures Good(h, Overwritten(s, words))
  {
    hide Path, StateByte;
  }

  lemma DoSendGood(h: bool, s: Sock, data: seq<byte>, now: nat)
    requires Good(h, s)
    ensures Good(h, DoSend(s, data, now))
  {
    hide Path;
  }

  lemma EmitResetGood(h: bool, s: Sock, q: nat, a: nat)
    requires Good(h, s)
    ensures Good(h, EmitReset(s, q, a))
  {
    hide Path;
  }

  lemma StableGood(h: bool, now: nat)
    ensures Stable(s => Good(h, s), now)
  {
    hide Good, DoSend, EmitReset, FinStep, Put, Pop, Return, Exhausted, Overwritten, LocalClosed;
    forall s: Sock | Good(h, s)
      ensures Good(h, Exhausted(s)) && Good(h, Put(s, Idle(s), now))
      ensures s.script != [] ==> Good(h, Pop(s)) && (s.script[0].Done? ==> Good(h, Return(s)))
    {
      ScriptGood(h, s, now);
    }
    forall s: Sock, words: nibble | Good(h, s) ensures Good(h, Overwritten(s, words)) {
      OverwrittenGood(h, s, words);
    }
    forall s: Sock, data: seq<byte> | Good(h, s) ensures Good(h, DoSend(s, data, now)) {
      DoSendGood(h, s, data, now);
    }
    forall s: Sock, q: nat, a: nat | Good(h, s) ensures Good(h, EmitReset(s, q, a)) {
      EmitResetGood(h, s, q, a);
    }
    forall s: Sock | Good(h, s) && s.script != [] ensures Good(h, FinStep(Pop(s), now)) {
      ScriptGood(h, s, now);
      FinGood(h, Pop(s), now);
    }
  }

  lemma FinGood(h: bool, s: Sock, now: nat)
    requires Good(h, s)
    ensures Good(h, FinStep(s, now))
  {
    var t := SendSegment(s, FIN | ACK, []).(attempts := 1);
    FinSentGood(h, s);
    hide Good, SendSegment, Edge;
    if Low(t.state) == ESTABLISHED || t.state == SYN_RECEIVED {
      FinEdges(h, t.state);
      PutGood(h, t, FIN_WAIT_1, now);
    } else if t.state == CLOSE_WAIT {
      FinEdges(h, t.state);
      PutGood(h, t, LAST_ACK, now);
    }
  }

  lemma FinSentGood(h: bool, s: Sock)
    requires Good(h, s)
    ensures Good(h, SendSegment(s, FIN | ACK, []).(attempts := 1))
    ensures SendSegment(s, FIN | ACK, []).host == h
  {
    assert !Has(FIN | ACK, SYN);
    SendGood(h, s, FIN | ACK, [], 0, 0);
    hide SendSegment, Path, StateByte;
  }

  lemma FinEdges(h: bool, state: bv8)
    ensures Low(state) == ESTABLISHED || state == SYN_RECEIVED ==> Edge(h, Low(state), FIN_WAIT_1)
    ensures state == CLOSE_WAIT ==> Edge(h, Low(state), LAST_ACK)
  {
  }

  lemma FireGood(h: bool, s: Sock, now: nat)
    requires Good(h, s)
    ensures Good(h, Fire(s, now))
  {
    StableGood(h, now);
    FireKeeps(x => Good(h, x), s, now);
  }

  lemma SetStateGood(h: bool, s: Sock, state: bv8, now: nat)
    requires Good(h, s) && Edge(s.host, Low(s.state), state) && LISTEN <= state <= CLOSED
    ensures Good(h, SetState(s, state, now))
  {
    hide Good, Edge, Fire;
    var p := Put(s, state, now);
    PutGood(h, s, state, now);
    FireGood(h, p, now);
    FireGood(h, Fire(p, now), now);
  }

  lemma ForceCloseGood(h: bool, s: Sock, now: nat)
    requires Good(h, s)
    ensures Good(h, DoForceClose(s, now)) && Good(h, Abandon(s, now))
  {
    StableGood(h, now);
    ForceCloseKeeps(x => Good(h, x), s, now);
    AbandonKeeps(x => Good(h, x), s, now);
  }

  lemma ResetGood(h: bool, s: Sock, q: nat, a: nat, now: nat)
    requires Good(h, s)
    ensures Good(h, Reset(s, q, a, now))
  {
    StableGood(h, now);
    ResetKeeps(x => Good(h, x), s, q, a, now);
  }

  lemma CloseGood(h: bool, s: Sock, now: nat)
    requires Good(h, s)
    ensures Good(h, DoClose(s, now))
  {
    FinGood(h, s, now);
    FireGood(h, FinStep(s, now), now);
  }

  lemma CheckStateGood(h: bool, s: Sock, now: nat)
    requires Good(h, s)
    ensures Good(h, CheckState(s, now))
  {
    hide Good, Retry, DoClose, DoForceClose, LocalClosed;
    CloseGood(h, s, now);
    ForceCloseGood(h, s, now);
    var elapsed := Sub32(now, s.stateTime);
    RetryGood(h, s, elapsed, now);
    RetryGood(h, DoForceClose(s, now), elapsed, now);
  }

  lemma RetryGood(h: bool, s: Sock, elapsed: nat, now: nat)
    requires Good(h, s)
    ensures Good(h, Retry(s, elapsed, now))
  {
    hide Path, Resend, DoForceClose;
    var t := s.(attempts := (s.attempts + 1) % 256);
    if !Retries(s.state) {
      ForceCloseGood(h, s, now);
    } else if s.attempts > 10 {
      ForceCloseGood(h, t, now);
    } else {
      ResendGood(h, t, now);
    }
  }

  lemma ResendGood(h: bool, s: Sock, now: nat)
    requires Good(h, s) && Retries(s.state)
    ensures Good(h, Resend(s, now))
  {
    hide Path, SendSegment, DoForceClose;
    var back := s.(localSeq := Sub32(s.localSeq, 1));
    if s.state == (ESTABLISHED | AWAITING_ACK) {
      var t := s.(localSeq := Sub32(s.localSeq, s.lastDataLength));
      if s.lastDataLength <= |s.stash| {
        SendGood(h, t, ACK, s.stash[..s.lastDataLength], 0, 0);
      } else {
        ForceCloseGood(h, t, now);
      }
    } else if s.state == SYN_SENT {
      SendGood(h, back, SYN, [], 0, 0);
    } else if s.state == SYN_RECEIVED {
      SendGood(h, back, SYN | ACK, [], 0, 0);
    } else {
      SendGood(h, back, FIN | ACK, [], 0, 0);
    }
  }

  lemma HandleSegmentGood(h: bool, s0: Sock, g: Arrival, now: nat)
    requires Good(h, s0)
    ensures Good(h, HandleSegment(s0, g, now))
  {
    var s := s0.(remoteWindow := g.window);
    assert Good(h, s);
    hide Good, Refused, SendSegment, Learn, SetState, HandleEstablished, Acknowledged, DoForceClose, Unacceptable;
    hide Has, Low, Unsynchronized, Synchronized;
    RefusalsGood(h, s, g, now);
    if s.state == LISTEN {
      ListenGood(h, s, g, now);
    } else if s.state == SYN_SENT {
      SynSentGood(h, s, g, now);
    } else if Low(s.state) == ESTABLISHED {
      HandleEstablishedGood(h, s, g, now);
    }
    AcknowledgedGood(h, s, now);
  }

  lemma ListenGood(h: bool, s: Sock, g: Arrival, now: nat)
    requires Good(h, s) && s.state == LISTEN
    ensures Good(h, SetState(SendSegment(Learn(s, g), SYN | ACK, []), SYN_RECEIVED, now).(attempts := 1))
  {
    hide Path, SetState;
    var l := Learn(s, g);
    SendGood(h, l, SYN | ACK, [], 0, 0);
    SetStateGood(h, SendSegment(l, SYN | ACK, []), SYN_RECEIVED, now);
  }

  lemma SynSentGood(h: bool, s: Sock, g: Arrival, now: nat)
    requires Good(h, s) && s.state == SYN_SENT
    ensures Good(h, SendSegment(SetState(Learn(s, g), SYN_RECEIVED, now), ACK, []))
    ensures Good(h, SetState(SendSegment(Learn(s, g), ACK, []), ESTABLISHED, now))
  {
    hide Path, SetState;
    var l := Learn(s, g);
    SetStateGood(h, l, SYN_RECEIVED, now);
    SendGood(h, SetState(l, SYN_RECEIVED, now), ACK, [], 0, 0);
    SendGood(h, l, ACK, [], 0, 0);
    SetStateGood(h, SendSegment(l, ACK, []), ESTABLISHED, now);
  }

  lemma AcknowledgedGood(h: bool, s: Sock, now: nat)
    requires Good(h, s)
    ensures Good(h, Acknowledged(s, now))
  {
    hide Path, SetState, Abandon;
    if s.state == SYN_RECEIVED {
      SetStateGood(h, s, ESTABLISHED, now);
    } else if s.state == FIN_WAIT_1 {
      SetStateGood(h, s, FIN_WAIT_2, now);
    } else if s.state == CLOSING {
      SetStateGood(h, s, TIME_WAIT, now);
    } else if s.state == LAST_ACK {
      ForceCloseGood(h, s, now);
    }
  }

  lemma RefusalsGood(h: bool, s: Sock, g: Arrival, now: nat)
    requires Good(h, s)
    ensures Good(h, Refused(s, g, now)) && Good(h, DoForceClose(s, now))
  {
    hide Good, Reset, Abandon, DoForceClose, SendSegment, Fire, Has, Low, Unsynchronized, Synchronized;
    SendGood(h, s, ACK, [], 0, 0);
    ResetGood(h, s, g.ackNo, 0, now);
    ResetGood(h, s, 0, Add32(g.seqNo, g.size), now);
    ForceCloseGood(h, s, now);
    FireGood(h, Abandon(s, now), now);
  }

  lemma HandleEstablishedGood(h: bool, s: Sock, g: Arrival, now: nat)
    requires Good(h, s) && Low(s.state) == ESTABLISHED
    ensures Good(h, HandleEstablished(s, g, now))
  {
    hide Path, Has, TakeData, TakeFin, SendSegment, Fire, Awaiting;
    SendGood(h, s, ACK, [], 0, 0);
    var t := if PayloadSize(g) > 0 then TakeData(s, g, now) else s;
    TakeDataGood(h, s, g, now);
    TakeFinGood(h, t, g, now);
    var u := if Has(g.opt, FIN) then TakeFin(t, g, now) else t;
    LowGood(h, u);
    FireGood(h, u.(state := Low(u.state)), now);
  }

  lemma LowGood(h: bool, s: Sock)
    requires Good(h, s)
    ensures Good(h, s.(state := Low(s.state)))
  {
    hide Path;
  }

  lemma TakeDataGood(h: bool, s: Sock, g: Arrival, now: nat)
    requires Good(h, s)
    ensures Good(h, TakeData(s, g, now))
  {
    hide Path, Has, SendSegment, Fire;
    var t := if Has(g.opt, FIN) then s.(remoteSeq := Add32(s.remoteSeq, 1)) else s;
    FireGood(h, t, now);
    var f := if g.recv != [] then Offer(t, g, now) else t;
    assert Good(h, f);
    SendGood(h, f, ACK, [], 0, 0);
  }

  lemma TakeFinGood(h: bool, s: Sock, g: Arrival, now: nat)
    requires Good(h, s)
    ensures Good(h, TakeFin(s, g, now))
  {
    hide Path, Has, SetState, Fire;
    var t := if PayloadSize(g) == 0 then SendSegment(s.(remoteSeq := Add32(s.remoteSeq, 1)), ACK, []) else s;
    var next :=
      if t.state == FIN_WAIT_1 then
        if Has(g.opt, ACK) && g.ackNo == t.localSeq then TIME_WAIT else CLOSING
      else if t.state == FIN_WAIT_2 then TIME_WAIT
      else CLOSE_WAIT;
    if t.state == FIN_WAIT_1 || t.state == FIN_WAIT_2 || Low(t.state) == ESTABLISHED {
      SetStateGood(h, t, next, now);
      FireGood(h, SetState(t, next, now), now);
    } else {
      FireGood(h, t, now);
    }
  }

  lemma StepGood(h: bool, s0: Sock, e: Event)
    requires Good(h, s0)
    ensures Good(h, Step(s0, e))
  {
    var s := s0.(script := e.script, window := e.window);
    match e.act
    case Open =>
      if s.state == CLOSED {
        SetStateGood(h, SendSegment(s, SYN, []).(attempts := 1), SYN_SENT, e.now);
      }
    case Tick => CheckStateGood(h, s, e.now);
    case Arrive(g) => HandleSegmentGood(h, s, g, e.now);
    case Api(Send(data)) => StableGood(h, e.now);
    case Api(Close) => CloseGood(h, s, e.now);
    case Api(ForceClose) => ForceCloseGood(h, s, e.now);
    case Api(OtherWrite(_)) =>
    case Api(Done(_, _)) =>
  }

  /** Over every run of calls, ticks and segments, with callbacks that may send,
      close and abort, from a closed client or a listening host. */
  lemma {:induction false} StatesFollowTheDiagram(s: Sock, es: seq<Event>)
    requires s.edges == [] && s.state == Idle(s)
    ensures StateByte(Run(s, es).state)
    ensures Path(s.host, Run(s, es).edges, Low(Run(s, es).state))
  {
    RunGood(s.host, s, es);
  }

  lemma {:induction false} RunGood(h: bool, s: Sock, es: seq<Event>)
    requires Good(h, s)
    ensures Good(h, Run(s, es)) 
  {
    if es != [] {
      RunGood(s.host, s, es[..|es| - 1]);
      StepGood(h, Run(s, es[..|es| - 1]), es[|es| - 1]);
    }
  }
}
