/** TIME_WAIT, which the peer that closes first should enter once both have closed: over every run it is
    entered only if the application calls close() inside a callback while a FIN is being handled. */
module SocketTimeWait {
  import opened Words
  import opened SocketModel
  import opened SocketKeeps
  import opened SocketReactions
  import opened SocketEvents

  /** Neither in CLOSING nor in TIME_WAIT. */
  predicate Early(s: Sock) { s.state & 0x0F != 8 && s.state & 0x0F != 10 }

  // -------------------------------------------------------- what keeps this

  lemma EarlyState(s: Sock, x: Sock)
    requires Early(s) && (x.state == s.state || x.state == s.state | 0xF0 || x.state == s.state & 0x0F ||
                          x.state == 1 || x.state == 2 || x.state == 3 || x.state == 4 || x.state == 5 ||
                          x.state == 6 || x.state == 7 || x.state == 9 || x.state == 11)
    ensures Early(x)
  {
  }

  lemma SendsEarly(s: Sock, control: bv8, payload: seq<byte>, q: nat, a: nat)
    requires Early(s)
    ensures Early(SendSegment(s, control, payload, q, a))
  {
    hide Has, Early;
    EarlyState(s, SendSegment(s, control, payload, q, a));
  }

  lemma DoSendEarly(s: Sock, data: seq<byte>, now: nat)
    requires Early(s)
    ensures Early(DoSend(s, data, now))
  {
    hide Early, Has, ReadyToSend;
    EarlyState(s, DoSend(s, data, now));
  }

  lemma FinEarly(s: Sock, now: nat)
    requires Early(s)
    ensures Early(FinStep(s, now))
  {
    hide Early, Has, Low;
    EarlyState(s, FinStep(s, now));
  }

  lemma StableEarly(now: nat)
    ensures Stable(s => Early(s), now)
  {
    hide DoSend, EmitReset, FinStep, LocalClosed, Early;
    forall s: Sock, data: seq<byte> | Early(s) ensures Early(DoSend(s, data, now)) {
      DoSendEarly(s, data, now);
    }
    forall s: Sock, q: nat, a: nat | Early(s) ensures Early(EmitReset(s, q, a)) {
      ResetEarly(s, q, a);
    }
    forall s: Sock | Early(s) && s.script != [] ensures Early(FinStep(Pop(s), now)) {
      EarlyState(s, Pop(s));
      FinEarly(Pop(s), now);
    }
    forall s: Sock | Early(s) ensures Early(Put(s, Idle(s), now)) {
      EarlyState(s, Put(s, Idle(s), now));
    }
    RestEarly();
  }

  lemma ResetEarly(s: Sock, q: nat, a: nat)
    requires Early(s)
    ensures Early(EmitReset(s, q, a))
  {
    hide Early, Has, SendSegment;
    SendsEarly(s, RST | ACK, [], q, a);
    SendsEarly(s, RST, [], q, a);
  }

  lemma RestEarly()
    ensures forall s: Sock {:trigger Exhausted(s)} :: Early(s) ==> Early(Exhausted(s))
    ensures forall s: Sock {:trigger Return(s)} :: Early(s) && s.script != [] && s.script[0].Done? ==> Early(Return(s))
    ensures forall s: Sock {:trigger Pop(s)} :: Early(s) && s.script != [] ==> Early(Pop(s))
    ensures forall s: Sock, w: nibble {:trigger Overwritten(s, w)} :: Early(s) ==> Early(Overwritten(s, w))
  {
  }

  lemma CallbacksEarly(s: Sock, now: nat)
    requires Early(s)
    ensures Early(Fire(s, now)) && Early(DoForceClose(s, now)) && Early(DoClose(s, now)) && Early(Abandon(s, now))
    ensures Early(Fire(Abandon(s, now), now))
    ensures forall q: nat, a: nat :: Early(Reset(s, q, a, now))
  {
    hide Early, Stable, Fire, DoForceClose, Abandon, FinStep, LocalClosed, Reset;
    var P := x => Early(x);
    StableEarly(now);
    FireKeeps(P, s, now);
    ForceCloseKeeps(P, s, now);
    AbandonKeeps(P, s, now);
    FireKeeps(P, Abandon(s, now), now);
    FinEarly(s, now);
    FireKeeps(P, FinStep(s, now), now);
    forall q: nat, a: nat ensures Early(Reset(s, q, a, now)) {
      ResetKeeps(P, s, q, a, now);
    }
  }

  lemma EntersEarly(s: Sock, state: bv8, now: nat)
    requires Early(s) && (state == SYN_SENT || state == SYN_RECEIVED || state == ESTABLISHED || state == FIN_WAIT_2 ||
                          state == CLOSE_WAIT)
    ensures Early(SetState(s, state, now))
  {
    hide Early, Fire;
    var p := Put(s, state, now);
    EarlyState(s, p);
    CallbacksEarly(p, now);
    CallbacksEarly(Fire(p, now), now);
  }

  // --------------------------------------- the data phase without close()

  /** In the data phase or aborted, and no close() to come. */
  ghost predicate Open(s: Sock) {
    NoClose(s.script) && (s.state & 0x0F == 4 || s.state == Idle(s))
  }

  lemma StableOpen(now: nat)
    ensures Stable(s => Open(s), now)
  {
    hide FinStep, LocalClosed, DoSend, EmitReset;
    forall s: Sock, data: seq<byte> | Open(s) ensures Open(DoSend(s, data, now)) {
      DoSendOpen(s, data, now);
    }
    forall s: Sock, q: nat, a: nat | Open(s) ensures Open(EmitReset(s, q, a)) {
      ResetOpen(s, q, a);
    }
  }

  lemma DoSendOpen(s: Sock, data: seq<byte>, now: nat)
    requires Open(s)
    ensures Open(DoSend(s, data, now))
  {
    assert (s.state | 0xF0) & 0x0F == s.state & 0x0F;
    hide Has;
  }

  lemma ResetOpen(s: Sock, q: nat, a: nat)
    requires Open(s)
    ensures Open(EmitReset(s, q, a))
  {
    hide Has;
  }

  lemma OpenTakesData(s: Sock, g: Arrival, now: nat)
    requires Open(s)
    ensures Open(TakeData(s, g, now))
  {
    hide Has, Fire, Stable;
    var t := if Has(g.opt, FIN) then s.(remoteSeq := Add32(s.remoteSeq, 1)) else s;
    StableOpen(now);
    FireKeeps(x => Open(x), t, now);
    var f := if g.recv != [] then Offer(t, g, now) else t;
    assert f.state == Fire(t, now).state || f.state == t.state;
    assert Open(f);
    hide Offer;
    AckOpen(f);
  }

  lemma AckOpen(s: Sock)
    requires Open(s)
    ensures Open(SendSegment(s, ACK, []))
  {
    AckSends(s);
    hide SendSegment;
  }

  lemma OpenIsEarly(s: Sock)
    requires Open(s)
    ensures Early(s) && s.state != FIN_WAIT_1 && s.state != FIN_WAIT_2
  {
  }

  lemma OpenTakesFin(s: Sock, g: Arrival, now: nat)
    requires Open(s)
    ensures Early(TakeFin(s, g, now))
  {
    hide Has, Open, Early, Fire, SendSegment, SetState, Low;
    var t := if PayloadSize(g) == 0 then SendSegment(s.(remoteSeq := Add32(s.remoteSeq, 1)), ACK, []) else s;
    OpenSame(s, s.(remoteSeq := Add32(s.remoteSeq, 1)));
    AckOpen(s.(remoteSeq := Add32(s.remoteSeq, 1)));
    OpenIsEarly(t);
    EntersEarly(t, CLOSE_WAIT, now);
    CallbacksEarly(t, now);
    CallbacksEarly(SetState(t, CLOSE_WAIT, now), now);
  }

  lemma OpenSame(s: Sock, t: Sock)
    requires Open(s) && t.state == s.state && t.script == s.script && t.host == s.host
    ensures Open(t)
  {
  }

  // -------------------------------------------------------------- arrivals

  lemma TakesDataEarly(s: Sock, g: Arrival, now: nat)
    requires Early(s)
    ensures Early(TakeData(s, g, now))
  {
    hide Has, Fire, Early, SendSegment;
    var t := if Has(g.opt, FIN) then s.(remoteSeq := Add32(s.remoteSeq, 1)) else s;
    EarlyState(s, t);
    CallbacksEarly(t, now);
    var f := if g.recv != [] then Offer(t, g, now) else t;
    EarlyState(if g.recv != [] then Fire(t, now) else t, f);
    SendsEarly(f, ACK, [], 0, 0);
  }

  lemma EstablishedEarly(s: Sock, g: Arrival, now: nat)
    requires Early(s) && Low(s.state) == ESTABLISHED && (FinBit(g.opt) ==> NoClose(s.script))
    ensures Early(HandleEstablished(s, g, now))
  {
    hide Has, Early, Fire, SendSegment, TakeData, TakeFin, Awaiting;
    Bits(g.opt);
    SendsEarly(s, ACK, [], 0, 0);
    var t := if PayloadSize(g) > 0 then TakeData(s, g, now) else s;
    TakesDataEarly(s, g, now);
    if FinBit(g.opt) {
      OpenTakesData(s, g, now);
      OpenTakesFin(t, g, now);
    }
    var u := if Has(g.opt, FIN) then TakeFin(t, g, now) else t;
    assert Early(u);
    EarlyState(u, u.(state := Low(u.state)));
    CallbacksEarly(u.(state := Low(u.state)), now);
  }

  lemma RefusedEarly(s: Sock, g: Arrival, now: nat)
    requires Early(s)
    ensures Early(Refused(s, g, now))
  {
    hide Has, Early, Fire, SendSegment, Reset, Abandon, Synchronized, Unsynchronized;
    CallbacksEarly(s, now);
    SendsEarly(s, ACK, [], 0, 0);
  }

  lemma AcknowledgedEarly(s: Sock, now: nat)
    requires Early(s)
    ensures Early(Acknowledged(s, now))
  {
    hide SetState, Abandon;
    CallbacksEarly(s, now);
    if s.state == SYN_RECEIVED {
      EntersEarly(s, ESTABLISHED, now);
    } else if s.state == FIN_WAIT_1 {
      EntersEarly(s, FIN_WAIT_2, now);
    }
  }

  lemma OpeningEarly(s: Sock, g: Arrival, now: nat)
    requires Early(s)
    ensures Early(SetState(SendSegment(Learn(s, g), SYN | ACK, []), SYN_RECEIVED, now).(attempts := 1))
    ensures Early(SendSegment(SetState(Learn(s, g), SYN_RECEIVED, now), ACK, []))
    ensures Early(SetState(SendSegment(Learn(s, g), ACK, []), ESTABLISHED, now))
  {
    hide Early, SendSegment, SetState;
    var l := Learn(s, g);
    EarlyState(s, l);
    SendsEarly(l, SYN | ACK, [], 0, 0);
    SendsEarly(l, ACK, [], 0, 0);
    var x := SendSegment(l, SYN | ACK, []);
    EntersEarly(x, SYN_RECEIVED, now);
    EarlyState(SetState(x, SYN_RECEIVED, now), SetState(x, SYN_RECEIVED, now).(attempts := 1));
    EntersEarly(l, SYN_RECEIVED, now);
    SendsEarly(SetState(l, SYN_RECEIVED, now), ACK, [], 0, 0);
    EntersEarly(SendSegment(l, ACK, []), ESTABLISHED, now);
  }

  lemma ArrivalEarly(s0: Sock, g: Arrival, now: nat)
    requires Early(s0) && (FinBit(g.opt) ==> NoClose(s0.script))
    ensures Early(HandleSegment(s0, g, now))
  {
    hide Has, Early, SendSegment, SetState, Learn, Unacceptable, Refused, HandleEstablished, Acknowledged;
    hide DoForceClose, Low;
    var s := s0.(remoteWindow := g.window);
    EarlyState(s0, s);
    RefusedEarly(s, g, now);
    OpeningEarly(s, g, now);
    if Low(s.state) == ESTABLISHED {
      EstablishedEarly(s, g, now);
    }
    AcknowledgedEarly(s, now);
    CallbacksEarly(s, now);
  }

  lemma ResendEarly(s: Sock, now: nat)
    requires Early(s)
    ensures Early(Resend(s, now))
  {
    hide Early, SendSegment, DoForceClose;
    var x, y := s.(localSeq := Sub32(s.localSeq, 1)), s.(localSeq := Sub32(s.localSeq, s.lastDataLength));
    EarlyState(s, x);
    EarlyState(s, y);
    CallbacksEarly(y, now);
    SendsEarly(x, SYN, [], 0, 0);
    SendsEarly(x, SYN | ACK, [], 0, 0);
    SendsEarly(x, FIN | ACK, [], 0, 0);
    if s.lastDataLength <= |s.stash| {
      SendsEarly(y, ACK, s.stash[..s.lastDataLength], 0, 0);
    }
  }

  lemma TickEarly(s: Sock, now: nat)
    requires Early(s)
    ensures Early(CheckState(s, now))
  {
    hide Early, DoForceClose, DoClose, Abandon, Resend, LocalClosed, Retries;
    CallbacksEarly(s, now);
    var late := s.timeout > 0 && Sub32(now, s.stateTime) > s.timeout;
    var t := if late then DoForceClose(s, now) else s;
    var u := t.(attempts := (t.attempts + 1) % 256);
    EarlyState(t, u);
    CallbacksEarly(t, now);
    CallbacksEarly(u, now);
    ResendEarly(u, now);
  }

  // ----------------------------------------------------------- the theorems

  /** No callback closes the socket while it handles a FIN. */
  predicate ClosesOutside(e: Event) { e.act.Arrive? && FinBit(e.act.g.opt) ==> NoClose(e.script) }

  lemma StepEarly(s0: Sock, e: Event)
    requires Early(s0) && ClosesOutside(e)
    ensures Early(Step(s0, e))
  {
    hide Early, HandleSegment, CheckState, DoSend, DoClose, DoForceClose, SendSegment, SetState;
    var s := s0.(script := e.script, window := e.window);
    EarlyState(s0, s);
    CallbacksEarly(s, e.now);
    match e.act
    case Open =>
      SendsEarly(s, SYN, [], 0, 0);
      var t := SendSegment(s, SYN, []).(attempts := 1);
      EarlyState(SendSegment(s, SYN, []), t);
      EntersEarly(t, SYN_SENT, e.now);
    case Tick => TickEarly(s, e.now);
    case Arrive(g) => ArrivalEarly(s, g, e.now);
    case Api(Send(data)) => DoSendEarly(s, data, e.now);
    case Api(Close) =>
    case Api(ForceClose) =>
    case Api(OtherWrite(words)) => EarlyState(s, Overwritten(s, words));
    case Api(Done(_, _)) =>
  }

  /** Over every run of calls, ticks and segments in which no callback calls close() while a FIN is being
      handled, the socket never enters CLOSING or TIME_WAIT, however both sides close. */
  lemma {:induction false} NeverTimeWait(s: Sock, es: seq<Event>)
    requires Early(s) && forall i :: 0 <= i < |es| ==> ClosesOutside(es[i])
    ensures Early(Run(s, es))
  {
    hide Early, Step, ClosesOutside;
    if es != [] {
      var n := |es| - 1;
      NeverTimeWait(s, es[..n]);
      StepEarly(Run(s, es[..n]), es[n]);
    }
  }

  /** The way there: data and FIN arrive in one segment and onDataReceived calls close(); then an
      acknowledgement of everything sent leads to TIME_WAIT. */
  lemma TimeWaitReached(s: Sock, g: Arrival, a: Arrival, w: word, now: nat, later: nat)
    requires InOrder(s, g) && FinBit(g.opt) && 4 * g.words < g.size < 0x1_0000 && g.recv != []
    requires s.localSeq < 0xFFFF_FFFF && s.script == [Close, Done(true, w), Done(true, w), Done(true, w), Done(true, w)]
    requires a.valid && a.opt == 16 && a.ackNo == s.localSeq + 1
    ensures var r := HandleSegment(s, g, now);
      && r.state == CLOSING
      && (a.seqNo <= r.remoteSeq ==> HandleSegment(r.(script := []), a, later).state == TIME_WAIT)
  {
    var r := HandleSegment(s, g, now);
    ClosingReached(s, g, w, now);
    var t := r.(script := []);
    assert AckBit(16) && !RstBit(16) && !SynBit(16);
    if a.seqNo <= r.remoteSeq {
      AckMoves(t, a, later);
    }
  }

  lemma ClosingReached(s: Sock, g: Arrival, w: word, now: nat)
    requires InOrder(s, g) && FinBit(g.opt) && 4 * g.words < g.size < 0x1_0000 && g.recv != []
    requires s.localSeq < 0xFFFF_FFFF && s.script == [Close, Done(true, w), Done(true, w), Done(true, w), Done(true, w)]
    ensures var r := HandleSegment(s, g, now); r.state == CLOSING && r.localSeq == s.localSeq + 1
  {
    hide HandleSegment, Has, Low, Fire, Released, SendSegment, TakeFin, TakeData, Heard, LocalClosed;
    var u := Noted(s, g);
    var n := u.(remoteSeq := Add32(u.remoteSeq, 1));
    ClosesInCallback(n, w, now);
    var t := Offer(n, g, now);
    AckSends(t);
    var v := Emit(t, BareAck(t));
    FinData(u, g, now);
    EntersClosing(v, g, now);
    var x := TakeFin(v, g, now);
    HandledInOrder(s, g, v, x, now);
    ReleasedFrom(s, x, g);
  }

  lemma FinData(s: Sock, g: Arrival, now: nat)
    requires g.recv != [] && FinBit(g.opt)
    ensures TakeData(s, g, now) == SendSegment(Offer(s.(remoteSeq := Add32(s.remoteSeq, 1)), g, now), ACK, [])
  {
    Bits(g.opt);
    hide Has, SendSegment, Offer;
  }

  /** The callback that closes. */
  lemma ClosesInCallback(s: Sock, w: word, now: nat)
    requires Connected(s) && s.localSeq < 0xFFFF_FFFF
    requires s.script == [Close, Done(true, w), Done(true, w), Done(true, w), Done(true, w)]
    ensures var r := Fire(s, now);
      r.accept && r.state == FIN_WAIT_1 && r.localSeq == s.localSeq + 1 && r.script == [Done(true, w), Done(true, w)]
  {
    hide DoClose, Low;
    var p := Pop(s);
    CloseHeard(p, now);
    var c := DoClose(p, now);
    assert p.state & 0x0F == 4;
    assert c.script == [Done(true, w), Done(true, w), Done(true, w)];
    assert Fire(s, now) == Fire(c, now) == Return(c);
  }

  lemma EntersClosing(s: Sock, g: Arrival, now: nat)
    requires s.state == FIN_WAIT_1 && PayloadSize(g) > 0 && g.ackNo < s.localSeq && Passive(s, 2)
    ensures var r := TakeFin(s, g, now);
      r.state == CLOSING && r.localSeq == s.localSeq && Passive(r, 1)
  {
    Entered(s, CLOSING, now);
    HearOnce(Put(s, CLOSING, now), now);
    hide SendSegment, Fire, Has, SetState;
  }

  lemma ReleasedFrom(s: Sock, r: Sock, g: Arrival)
    requires r.state == CLOSING && Passive(r, 1)
    ensures Released(s, r, g).state == CLOSING && Released(s, r, g).localSeq == r.localSeq
  {
  }
}
