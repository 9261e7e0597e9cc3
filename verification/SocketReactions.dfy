/** How a socket reacts to single segments, case by case as section 3.4 and 3.9 of RFC 793 lay
    them out, and how a connection that both sides close comes to rest. */
module SocketReactions {
  import opened Words
  import opened SocketModel
  import opened SocketHandshake
  import opened SocketRetry
  import opened SocketStream
  import opened SocketProgress

  // ---------------------------------------------- the bits of section 3.1

  predicate AckBit(opt: bv8) { opt & 16 != 0 }

  predicate RstBit(opt: bv8) { opt & 4 != 0 }

  predicate SynBit(opt: bv8) { opt & 2 != 0 }

  predicate FinBit(opt: bv8) { opt & 1 != 0 }

  lemma Bits(opt: bv8)
    ensures Has(opt, ACK) == AckBit(opt) && Has(opt, RST) == RstBit(opt)
    ensures Has(opt, SYN) == SynBit(opt) && Has(opt, FIN) == FinBit(opt)
  {
  }

  /** The socket after it has taken note of a segment's window. */
  function Noted(s: Sock, g: Arrival): Sock { s.(remoteWindow := g.window) }

  /** A reset with the given numbers; it acknowledges when its number is the expected one. */
  function RstWith(s: Sock, q: nat, a: nat): Segment {
    Segment(if a == s.remoteSeq then 4 | 16 else 4, q, a, s.window, 5, [])
  }

  function BareAck(s: Sock): Segment { Segment(16, s.localSeq, s.remoteSeq, s.window, 5, []) }

  lemma ResetSends(s: Sock, q: nat, a: nat, now: nat)
    requires s.script == []
    ensures Reset(s, q, a, now) == Emit(s, RstWith(s, q, a)).(accept := false)
  {
    assert !Has(RST | ACK, SYN) && !Has(RST, SYN) && !Has(RST | ACK, FIN) && !Has(RST, FIN);
    assert Has(RST | ACK, RST) && Has(RST, RST);
    hide Has;
    var e := EmitReset(s, q, a);
    assert Fire(e, now) == Exhausted(e);
  }

  lemma AckSends(s: Sock)
    ensures SendSegment(s, ACK, []) == Emit(s, BareAck(s))
  {
  }

  lemma AbortSends(s: Sock, now: nat)
    requires s.script == [] && s.state != TIME_WAIT
    ensures var r := DoForceClose(s, now);
      r.state == Idle(s) && r.out == s.out + [RstWith(s, s.localSeq, s.remoteSeq)] && r.sent == s.sent &&
      r.accepted == s.accepted && r.edges == s.edges + [(Low(s.state), Idle(s))]
  {
    QuietForceClose(s, now);
    ResetSends(s, s.localSeq, s.remoteSeq, now);
    var e := EmitReset(s, s.localSeq, s.remoteSeq);
    assert Fire(e, now) == Exhausted(e);
    hide DoForceClose, Fire;
  }

  // -------------------------------------------------- segments out of place

  /** Damaged segments only bring a window. */
  lemma DamagedIgnored(s: Sock, g: Arrival, now: nat)
    requires !g.valid
    ensures HandleSegment(s, g, now) == Noted(s, g)
  {
  }

  /** Nothing is expected on a closed connection, and nothing but a SYN by a listener: a reset
      that takes its number from the acknowledgement, or else acknowledges the segment. */
  lemma NothingExpected(s: Sock, g: Arrival, now: nat)
    requires s.script == [] && g.valid && !RstBit(g.opt)
    requires s.state == CLOSED || (s.state == LISTEN && !SynBit(g.opt))
    ensures var u := Noted(s, g);
      HandleSegment(s, g, now) ==
        Emit(u, if AckBit(g.opt) then RstWith(u, g.ackNo, 0)
                else RstWith(u, 0, (g.seqNo + g.size) % 0x1_0000_0000)).(accept := false)
  {
    Bits(g.opt);
    var u := Noted(s, g);
    ResetSends(u, g.ackNo, 0, now);
    ResetSends(u, 0, Add32(g.seqNo, g.size), now);
    hide Has, Reset, RstWith;
  }

  /** An acknowledgement of something not yet sent, before the connection is established: a reset
      that takes its number from it. */
  lemma AckedTooMuch(s: Sock, g: Arrival, now: nat)
    requires s.script == [] && g.valid && AckBit(g.opt) && g.ackNo > s.localSeq
    requires s.state == SYN_SENT || s.state == SYN_RECEIVED || (s.state == LISTEN && SynBit(g.opt))
    ensures var u := Noted(s, g);
      HandleSegment(s, g, now) == Emit(u, RstWith(u, g.ackNo, 0)).(accept := false)
  {
    Bits(g.opt);
    var u := Noted(s, g);
    ResetSends(u, g.ackNo, 0, now);
    hide Has, Reset, RstWith;
  }

  /** Synchronized, and the segment acknowledges what was not sent or lies beyond what is
      expected: a bare acknowledgement says where things stand. */
  lemma BeyondExpected(s: Sock, g: Arrival, now: nat)
    requires g.valid && ((AckBit(g.opt) && g.ackNo > s.localSeq) || g.seqNo > s.remoteSeq)
    requires s.state == ESTABLISHED || s.state == FIN_WAIT_1 || s.state == FIN_WAIT_2 || s.state == CLOSE_WAIT ||
             s.state == CLOSING || s.state == LAST_ACK || s.state == TIME_WAIT
    ensures HandleSegment(s, g, now) == Emit(Noted(s, g), BareAck(s))
  {
    Bits(g.opt);
    AckSends(Noted(s, g));
    hide Has, SendSegment;
  }

  // ---------------------------------------------------------- incoming resets

  /** A reset that section 3.4 lets through to the state it finds. */
  predicate ResetArrives(s: Sock, g: Arrival) {
    && g.valid && RstBit(g.opt) && g.ackNo <= s.localSeq && g.seqNo <= s.remoteSeq
    && s.state != LISTEN && s.state != SYN_SENT && s.state != CLOSED
  }

  lemma AbandonIs(s: Sock, now: nat)
    requires s.script == []
    ensures var p := Put(s, Idle(s), now);
      && Abandon(s, now) == (if s.host then p else p.(accept := false))
      && Fire(Abandon(s, now), now) == p.(accept := false)
  {
    var p := Put(s, Idle(s), now);
    assert Fire(p, now) == Exhausted(p);
    assert Fire(Exhausted(p), now) == Exhausted(p);
  }

  /** A reset ends the connection exactly when it carries the expected sequence number.  Nothing
      goes out either way, and a reset with another number changes nothing at all. */
  lemma ResetEndsIff(s: Sock, g: Arrival, now: nat)
    requires s.script == [] && ResetArrives(s, g)
    ensures var r := HandleSegment(s, g, now);
      && (r.state == Idle(s) <==> g.seqNo == s.remoteSeq)
      && r.out == s.out && r.localSeq == s.localSeq && r.remoteSeq == s.remoteSeq
      && r.sent == s.sent && r.accepted == s.accepted
      && (if g.seqNo == s.remoteSeq then r.edges == s.edges + [(Low(s.state), Idle(s))] else r == Noted(s, g))
  {
    Bits(g.opt);
    AbandonIs(Noted(s, g), now);
    hide Has, Abandon, Fire, Low;
  }

  /** While connecting, an acknowledgement of the SYN will do as well. */
  lemma ResetRefusesIff(s: Sock, g: Arrival, now: nat)
    requires s.script == [] && s.state == SYN_SENT && g.valid && RstBit(g.opt)
    requires AckBit(g.opt) ==> g.ackNo <= s.localSeq
    ensures var r := HandleSegment(s, g, now); var over := g.ackNo == s.localSeq || g.seqNo == s.remoteSeq;
      && (r.state == Idle(s) <==> over)
      && r.out == s.out && r.localSeq == s.localSeq && r.sent == s.sent && r.accepted == s.accepted
      && (if over then r.edges == s.edges + [(SYN_SENT, Idle(s))] else r == Noted(s, g))
  {
    Bits(g.opt);
    AbandonIs(Noted(s, g), now);
    assert Low(SYN_SENT) == SYN_SENT;
    hide Has, Abandon, Fire, Low;
  }

  /** A listener ignores resets. */
  lemma ListenerIgnoresReset(s: Sock, g: Arrival, now: nat)
    requires s.state == LISTEN && g.valid && RstBit(g.opt) && (AckBit(g.opt) ==> g.ackNo <= s.localSeq)
    ensures HandleSegment(s, g, now) == Noted(s, g)
  {
    Bits(g.opt);
    hide Has;
  }

  /** Whatever callbacks do: without the expected number nothing happens, with it the first state
      change is the end of the connection. */
  lemma ResetWithCallbacks(s: Sock, g: Arrival, now: nat)
    requires g.valid && RstBit(g.opt) && g.ackNo <= s.localSeq && s.state != LISTEN && s.state != CLOSED
    requires s.state != SYN_SENT ==> g.seqNo <= s.remoteSeq
    ensures var r := HandleSegment(s, g, now);
      if g.seqNo == s.remoteSeq || (s.state == SYN_SENT && g.ackNo == s.localSeq)
      then s.edges + [(Low(s.state), Idle(s))] <= r.edges
      else r == Noted(s, g)
  {
    Bits(g.opt);
    var u := Noted(s, g);
    var p := Put(u, Idle(u), now);
    assert Idle(u) != ESTABLISHED;
    AfterFire(p, now);
    AfterFire(Abandon(u, now), now);
    assert p.edges == s.edges + [(Low(s.state), Idle(s))];
    hide Has, Fire, Low;
    assert p.edges <= Abandon(u, now).edges;
  }

  // ---------------------------------------------- acknowledgements and FINs

  /** What an acknowledgement of everything sent makes of a state.  A FIN on it goes unnoticed in
      these states. */
  function AfterAck(s: Sock): bv8 {
    if s.state == SYN_RECEIVED then ESTABLISHED
    else if s.state == FIN_WAIT_1 then FIN_WAIT_2
    else if s.state == CLOSING then TIME_WAIT
    else if s.state == LAST_ACK then Idle(s)
    else s.state
  }

  /** States outside the data phase and the idle states. */
  predicate Unsettled(state: bv8) {
    state == SYN_SENT || state == SYN_RECEIVED || state == FIN_WAIT_1 || state == FIN_WAIT_2 || state == CLOSE_WAIT ||
    state == CLOSING || state == LAST_ACK || state == TIME_WAIT
  }

  /** A segment that section 3.4 lets through and that does not open the connection. */
  predicate Plain(s: Sock, g: Arrival) {
    && g.valid && !RstBit(g.opt) && (AckBit(g.opt) ==> g.ackNo <= s.localSeq)
    && (s.state != SYN_SENT && s.state != SYN_RECEIVED ==> g.seqNo <= s.remoteSeq)
    && (s.state == SYN_SENT ==> !SynBit(g.opt))
  }

  lemma EntersState(s: Sock, state: bv8, now: nat)
    requires s.script == []
    ensures SetState(s, state, now) ==
      if state == CLOSED || state == ESTABLISHED then Put(s, state, now).(accept := false) else Put(s, state, now)
  {
    var p := Put(s, state, now);
    assert Fire(p, now) == Exhausted(p);
    assert Fire(Exhausted(p), now) == Exhausted(p);
  }

  /** An acknowledgement of everything sent: the state moves as above, and nothing goes out. */
  lemma AckMoves(s: Sock, g: Arrival, now: nat)
    requires s.script == [] && Unsettled(s.state) && Plain(s, g) && AckBit(g.opt) && g.ackNo == s.localSeq
    ensures var r := HandleSegment(s, g, now);
      && r.state == AfterAck(s) && r.out == s.out && r.localSeq == s.localSeq && r.remoteSeq == s.remoteSeq
      && r.sent == s.sent && r.accepted == s.accepted
      && (if AfterAck(s) == s.state then r == Noted(s, g)
          else r.edges == s.edges + [(Low(s.state), AfterAck(s))] && r.stateTime == now)
  {
    Bits(g.opt);
    NotOpening(g.opt);
    var u := Noted(s, g);
    EntersState(u, AfterAck(u), now);
    assert Low(s.state) == s.state;
    hide Has, SetState, Put;
    assert AfterAck(u) == AfterAck(s) && Unsettled(u.state);
    PutIs(u, AfterAck(u), now);
  }

  lemma PutIs(s: Sock, state: bv8, now: nat)
    ensures Put(s, state, now) ==
      s.(edges := s.edges + [(Low(s.state), state)], state := state, stateTime := now)
  {
  }

  /** Anything else in such a state, also a SYN sent again, ends the connection with a reset. */
  lemma OtherwiseReset(s: Sock, g: Arrival, now: nat)
    requires s.script == [] && Unsettled(s.state) && s.state != TIME_WAIT && Plain(s, g)
    requires !(AckBit(g.opt) && g.ackNo == s.localSeq)
    ensures var r := HandleSegment(s, g, now);
      && r.state == Idle(s) && r.out == s.out + [RstWith(s, s.localSeq, s.remoteSeq)]
      && r.sent == s.sent && r.accepted == s.accepted && r.edges == s.edges + [(Low(s.state), Idle(s))]
  {
    Bits(g.opt);
    NotOpening(g.opt);
    AbortSends(Noted(s, g), now);
    assert Low(s.state) == s.state;
    hide Has, DoForceClose;
  }

  lemma NotOpening(opt: bv8)
    ensures !SynBit(opt) ==> opt != SYN && opt != ACK | SYN
  {
  }

  predicate Connected(s: Sock) { s.state == ESTABLISHED || s.state == ESTABLISHED | AWAITING_ACK }

  /** In the data phase a segment without an acknowledgement is ignored. */
  lemma WithoutAckIgnored(s: Sock, g: Arrival, now: nat)
    requires Connected(s) && g.valid && !RstBit(g.opt) && !AckBit(g.opt) && g.seqNo <= s.remoteSeq
    ensures HandleSegment(s, g, now) == Noted(s, g)
  {
    Bits(g.opt);
    assert Low(s.state) == ESTABLISHED;
    hide Has, Low;
  }

  /** One that is not the next in order is answered with a bare acknowledgement of what is
      expected, and changes nothing else. */
  lemma OutOfOrderAnswered(s: Sock, g: Arrival, now: nat)
    requires Connected(s) && g.valid && !RstBit(g.opt) && AckBit(g.opt) && g.seqNo != s.remoteSeq
    ensures HandleSegment(s, g, now) == Emit(Noted(s, g), BareAck(s))
  {
    Bits(g.opt);
    assert Low(s.state) == ESTABLISHED;
    AckSends(Noted(s, g));
    hide Has, Low, SendSegment;
  }

  /** Data that the application refuses is not acknowledged: the answer still asks for it. */
  lemma RefusedDataAskedAgain(s: Sock, g: Arrival, w: word, now: nat)
    requires Connected(s) && g.valid && !RstBit(g.opt) && !FinBit(g.opt) && AckBit(g.opt) && g.seqNo == s.remoteSeq
    requires g.ackNo < s.localSeq && g.recv != [] && PayloadSize(g) > 0 && s.script == [Done(false, w)]
    ensures var r := HandleSegment(s, g, now);
      && r.remoteSeq == s.remoteSeq && r.accepted == s.accepted && r.state == s.state && r.sent == s.sent
      && r.out == s.out + [Segment(16, s.localSeq, s.remoteSeq, w, 5, [])]
  {
    Bits(g.opt);
    assert Low(s.state) == ESTABLISHED;
    var u := Noted(s, g);
    assert Fire(u, now) == Return(u);
    AckSends(Return(u));
    hide Has, Low, SendSegment, Fire;
    assert TakeData(u, g, now) == SendSegment(Return(u), ACK, []);
  }

  /** The peer's FIN, in order and without data: one number is acknowledged, and the socket waits
      for its own side to close. */
  lemma FinMoves(s: Sock, g: Arrival, now: nat)
    requires s.script == [] && Connected(s) && g.valid && !RstBit(g.opt) && AckBit(g.opt) && FinBit(g.opt)
    requires g.seqNo == s.remoteSeq && g.ackNo <= s.localSeq && g.recv == []
    ensures var r := HandleSegment(s, g, now);
      && r.state == CLOSE_WAIT && r.remoteSeq == (s.remoteSeq + 1) % 0x1_0000_0000 && r.localSeq == s.localSeq
      && r.out == s.out + [Segment(16, s.localSeq, r.remoteSeq, s.window, 5, [])]
      && r.edges == s.edges + [(ESTABLISHED, CLOSE_WAIT)] && r.sent == s.sent && r.accepted == s.accepted
      && r.script == [] && r.staleWords == 5 && r.timeout == s.timeout
  {
    Bits(g.opt);
    assert Low(s.state) == ESTABLISHED && Low(CLOSE_WAIT) == CLOSE_WAIT;
    var u := Noted(s, g);
    var n := u.(remoteSeq := Add32(u.remoteSeq, 1));
    AckSends(n);
    var t := if PayloadSize(g) > 0 then TakeData(u, g, now) else u;
    assert PayloadSize(g) > 0 ==> t == SendSegment(n, ACK, []);
    var v := Emit(n, BareAck(n));
    EntersState(v, CLOSE_WAIT, now);
    var p := Put(v, CLOSE_WAIT, now);
    PutIs(v, CLOSE_WAIT, now);
    FinTakenUp(u, t, g, v, now);
    assert Fire(p, now) == Exhausted(p);
    assert Fire(Exhausted(p), now) == Exhausted(p);
    hide Has, Low, SendSegment, Fire, TakeData, TakeFin, SetState, Put;
    assert TakeFin(t, g, now) == Exhausted(p);
    assert Exhausted(p).(state := CLOSE_WAIT) == Exhausted(p);
  }

  lemma FinTakenUp(u: Sock, t: Sock, g: Arrival, v: Sock, now: nat)
    requires Low(u.state) == ESTABLISHED && v.state == u.state
    requires v == SendSegment(u.(remoteSeq := Add32(u.remoteSeq, 1)), ACK, [])
    requires if PayloadSize(g) > 0 then t == v else t == u
    ensures TakeFin(t, g, now) == Fire(SetState(v, CLOSE_WAIT, now), now)
  {
    assert v.state != FIN_WAIT_1 && v.state != FIN_WAIT_2;
    hide Low, SendSegment, SetState, Fire, Has;
  }

  // ------------------------------------------------------ both sides close

  /** close() in the data phase or after the peer's FIN. */
  lemma CloseSends(s: Sock, window: word, now: nat)
    requires Connected(s) || s.state == CLOSE_WAIT
    requires s.localSeq < MOD32
    ensures var r := Step(s, Event(Api(Close), [], window, now));
      && r.state == (if s.state == CLOSE_WAIT then LAST_ACK else FIN_WAIT_1)
      && r.localSeq == (s.localSeq + 1) % 0x1_0000_0000 && r.remoteSeq == s.remoteSeq && r.timeout == s.timeout
      && r.out == s.out + [Segment(17, s.localSeq, s.remoteSeq, window, s.staleWords, [])] && r.script == []
  {
    var t := s.(script := [], window := window);
    assert !LocalClosed(t) && Low(ESTABLISHED) == ESTABLISHED == Low(ESTABLISHED | AWAITING_ACK);
    assert Low(CLOSE_WAIT) != ESTABLISHED;
    assert !Has(FIN | ACK, RST) && !Has(FIN | ACK, SYN) && Has(FIN | ACK, FIN);
    hide Has, Low, LocalClosed;
    var f := FinStep(t, now);
    assert Fire(f, now) == Exhausted(f);
    hide Fire;
    assert DoClose(t, now) == Exhausted(f);
  }

  /** Two quiet connected sockets, in step, whose numbers do not pass 2^32. */
  predicate QuietPair(a: Sock, b: Sock) {
    && a.state == ESTABLISHED && b.state == ESTABLISHED && a.localSeq == b.remoteSeq && b.localSeq == a.remoteSeq
    && a.localSeq < MOD32 - 1 && b.localSeq < MOD32 - 1 && a.staleWords == 5 && b.staleWords == 5
  }

  /** a closes, b's application closes in turn, and every segment of the exchange arrives.
      b's FIN finds a in FIN_WAIT_2, where a FIN goes unnoticed: it is not acknowledged, a never
      enters TIME_WAIT, and b waits in LAST_ACK.  Without a timeout no tick ever ends this. */
  lemma OrderlyCloseHangs(a: Sock, b: Sock, w: word, now: nat, ticks: seq<nat>)
    requires QuietPair(a, b)
    ensures var a1 := Step(a, Event(Api(Close), [], w, now));
      a1.out != [] &&
      var b1 := Deliver(b, Last(a1), [], w, now);
      b1.out != [] &&
      var a2 := Deliver(a1, Last(b1), [], w, now);
      var b2 := Step(b1, Event(Api(Close), [], w, now));
      b2.out != [] &&
      var a3 := Deliver(a2, Last(b2), [], w, now);
      && b1.state == CLOSE_WAIT && a2.state == FIN_WAIT_2 && b2.state == LAST_ACK
      && a3.state == FIN_WAIT_2 && a3.out == a2.out
      && (a.timeout == 0 ==> Ticks(a3, ticks) == a3) && (b.timeout == 0 ==> Ticks(b2, ticks) == b2)
  {
    hide Deliver, Step, CheckState, Ticks, Late;
    CloseSends(a, w, now);
    var a1 := Step(a, Event(Api(Close), [], w, now));
    FinDelivered(b, Last(a1), w, now);
    var b1 := Deliver(b, Last(a1), [], w, now);
    AckDelivered(a1, Last(b1), w, now);
    var a2 := Deliver(a1, Last(b1), [], w, now);
    CloseSends(b1, w, now);
    var b2 := Step(b1, Event(Api(Close), [], w, now));
    AckDelivered(a2, Last(b2), w, now);
    var a3 := Deliver(a2, Last(b2), [], w, now);
    if a.timeout == 0 {
      NeverLate(a3, ticks);
      DeafEndsIff(a3, ticks);
    }
    if b.timeout == 0 {
      NeverLate(b2, ticks);
      DeafEndsIff(b2, ticks);
    }
  }

  lemma NeverLate(s: Sock, ticks: seq<nat>)
    requires s.timeout == 0
    ensures forall i :: 0 <= i < |ticks| ==> !Late(s, ticks[i])
  {
  }

  lemma FinDelivered(b: Sock, g: Segment, w: word, now: nat)
    requires Connected(b) && g.opt == 17 && g.seqNo == b.remoteSeq && g.ackNo <= b.localSeq
    requires g.payload == [] && g.words == 5
    ensures var r := Deliver(b, g, [], w, now);
      && r.state == CLOSE_WAIT && r.remoteSeq == (b.remoteSeq + 1) % 0x1_0000_0000 && r.localSeq == b.localSeq
      && r.out == b.out + [Segment(16, b.localSeq, r.remoteSeq, w, 5, [])] && r.staleWords == 5
      && r.timeout == b.timeout
  {
    var s := b.(script := [], window := w);
    Delivered(b, g, w, now);
    WireFields(g);
    EmptyWire(g);
    FinMoves(s, Wire(g), now);
    assert !RstBit(17) && AckBit(17) && FinBit(17);
    hide HandleSegment, Wire;
  }

  lemma EmptyWire(g: Segment)
    requires g.payload == []
    ensures Wire(g).recv == []
  {
    hide Has;
  }

  /** An acknowledgement of everything sent, with or without a FIN, at a socket that has sent its
      own. */
  lemma AckDelivered(a: Sock, g: Segment, w: word, now: nat)
    requires (a.state == FIN_WAIT_1 || a.state == FIN_WAIT_2) && (g.opt == 16 || g.opt == 17)
    requires g.ackNo == a.localSeq && g.seqNo <= a.remoteSeq
    ensures var r := Deliver(a, g, [], w, now);
      && r.state == FIN_WAIT_2 && r.out == a.out && r.timeout == a.timeout && r.script == []
      && r.localSeq == a.localSeq && r.remoteSeq == a.remoteSeq
  {
    var s := a.(script := [], window := w);
    Delivered(a, g, w, now);
    WireFields(g);
    assert !RstBit(16) && !RstBit(17) && AckBit(16) && AckBit(17);
    AckMoves(s, Wire(g), now);
    KeepsTimeout(s, Wire(g), now);
    hide HandleSegment, Wire;
  }

  lemma KeepsTimeout(s: Sock, g: Arrival, now: nat)
    requires s.script == [] && (s.state == FIN_WAIT_1 || s.state == FIN_WAIT_2) && Plain(s, g)
    requires AckBit(g.opt) && g.ackNo == s.localSeq
    ensures HandleSegment(s, g, now).timeout == s.timeout && HandleSegment(s, g, now).script == []
  {
    Bits(g.opt);
    assert Low(s.state) != ESTABLISHED;
    hide Has, Low;
  }
}
