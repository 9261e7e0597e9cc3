/** Two connected BufferedSockets: each application reads, whenever it likes, a prefix of what
    the other one sends. */
module SocketReads {
  import opened Words
  import opened SocketModel
  import opened SocketKeeps
  import opened SocketStream
  import opened BufferedSockets

  datatype Side = Side(s: Sock, box: Inbox)

  /** The event brings data that the socket hands to onDataReceived. */
  predicate Offers(s: Sock, e: Event) {
    e.act.Arrive? && Offered(s, e.act.g)
  }

  predicate Offered(s: Sock, g: Arrival) {
    && g.valid && !Unacceptable(s, g) && Low(s.state) == ESTABLISHED
    && Has(g.opt, ACK) && g.seqNo == s.remoteSeq && PayloadSize(g) > 0 && g.recv != []
  }

  /** onDataReceived is the first callback when data is offered; it does not touch the socket
      and returns what the buffer's own rule says.  Other callbacks do what they like. */
  predicate Answers(x: Side, e: Event) {
    Offers(x.s, e) ==>
      e.script != [] && e.script[0].Done? && e.script[0].accept == Received(x.box, e.act.g.recv).0
  }

  /** The buffer takes what its onDataReceived is offered, by its own rule. */
  function SideStep(x: Side, e: Event): Side {
    Side(Step(x.s, e), if Offers(x.s, e) then Received(x.box, e.act.g.recv).1 else x.box)
  }

  // ------------------------------------------- only offered data is accepted

  ghost predicate Same(s: Sock, accepted: seq<byte>) { s.accepted == accepted }

  lemma CallbacksSame(s: Sock, now: nat)
    ensures Fire(s, now).accepted == s.accepted
    ensures DoForceClose(s, now).accepted == s.accepted
    ensures Abandon(s, now).accepted == s.accepted
    ensures forall q: nat, a: nat :: Reset(s, q, a, now).accepted == s.accepted
  {
    var P := x => Same(x, s.accepted);
    assert Stable(P, now);
    assert P(s);
    FireKeeps(P, s, now);
    ForceCloseKeeps(P, s, now);
    AbandonKeeps(P, s, now);
    forall q: nat, a: nat ensures Same(Reset(s, q, a, now), s.accepted) {
      ResetKeeps(P, s, q, a, now);
    }
  }

  lemma SetStateSame(s: Sock, state: bv8, now: nat)
    ensures SetState(s, state, now).accepted == s.accepted
  {
    var p := Put(s, state, now);
    CallbacksSame(p, now);
    CallbacksSame(Fire(p, now), now);
  }

  lemma TakeFinSame(s: Sock, g: Arrival, now: nat)
    ensures TakeFin(s, g, now).accepted == s.accepted
  {
    hide Has, Fire, SetState, Low;
    var t := if PayloadSize(g) == 0 then SendSegment(s.(remoteSeq := Add32(s.remoteSeq, 1)), ACK, []) else s;
    SetStateSame(t, TIME_WAIT, now);
    SetStateSame(t, CLOSING, now);
    SetStateSame(t, CLOSE_WAIT, now);
    var u :=
      if t.state == FIN_WAIT_1 then
        SetState(t, if Has(g.opt, ACK) && g.ackNo == t.localSeq then TIME_WAIT else CLOSING, now)
      else if t.state == FIN_WAIT_2 then SetState(t, TIME_WAIT, now)
      else if Low(t.state) == ESTABLISHED then SetState(t, CLOSE_WAIT, now)
      else t;
    CallbacksSame(u, now);
  }

  lemma AcknowledgedSame(s: Sock, now: nat)
    ensures Acknowledged(s, now).accepted == s.accepted
  {
    SetStateSame(s, ESTABLISHED, now);
    SetStateSame(s, FIN_WAIT_2, now);
    SetStateSame(s, TIME_WAIT, now);
    CallbacksSame(s, now);
  }

  lemma HandshakeSame(s: Sock, g: Arrival, now: nat)
    ensures SetState(SendSegment(Learn(s, g), SYN | ACK, []), SYN_RECEIVED, now).accepted == s.accepted
    ensures SendSegment(SetState(Learn(s, g), SYN_RECEIVED, now), ACK, []).accepted == s.accepted
    ensures SetState(SendSegment(Learn(s, g), ACK, []), ESTABLISHED, now).accepted == s.accepted
  {
    var l := Learn(s, g);
    SetStateSame(SendSegment(l, SYN | ACK, []), SYN_RECEIVED, now);
    SetStateSame(l, SYN_RECEIVED, now);
    SetStateSame(SendSegment(l, ACK, []), ESTABLISHED, now);
  }

  lemma CheckStateSame(s: Sock, now: nat)
    ensures CheckState(s, now).accepted == s.accepted
  {
    hide Fire, DoForceClose, Retry, DoClose, LocalClosed;
    CloseSame(s, now);
    CallbacksSame(s, now);
    RetrySame(s, Sub32(now, s.stateTime), now);
    RetrySame(DoForceClose(s, now), Sub32(now, s.stateTime), now);
  }

  lemma RetrySame(s: Sock, elapsed: nat, now: nat)
    ensures Retry(s, elapsed, now).accepted == s.accepted
  {
    hide DoForceClose, Abandon, Fire, Retries;
    CallbacksSame(s, now);
    var t := s.(attempts := (s.attempts + 1) % 256);
    CallbacksSame(t, now);
    CallbacksSame(t.(localSeq := Sub32(t.localSeq, t.lastDataLength)), now);
  }

  /** What the socket accepts: the data it offers, if the callback takes it, and nothing else. */
  ghost predicate Takes(s: Sock, g: Arrival, r: Sock) {
    if Offered(s, g) then
      s.script != [] && s.script[0].Done? ==>
        r.accepted == s.accepted + if s.script[0].accept then g.recv else []
    else r.accepted == s.accepted
  }

  lemma SendSame(s: Sock)
    ensures SendSegment(s, ACK, []).accepted == s.accepted
  {
  }

  lemma TakeDataTakes(s: Sock, g: Arrival, now: nat)
    ensures g.recv == [] ==> TakeData(s, g, now).accepted == s.accepted
    ensures g.recv != [] && s.script != [] && s.script[0].Done? ==>
              TakeData(s, g, now).accepted == s.accepted + if s.script[0].accept then g.recv else []
  {
    var t := if Has(g.opt, FIN) then s.(remoteSeq := Add32(s.remoteSeq, 1)) else s;
    hide Has, SendSegment;
    if g.recv != [] && s.script != [] && s.script[0].Done? {
      assert Fire(t, now) == Return(t);
      SendSame(Offer(t, g, now));
    } else {
      SendSame(t);
    }
  }

  lemma EstablishedTakes(s: Sock, g: Arrival, now: nat)
    requires Low(s.state) == ESTABLISHED && g.valid && !Unacceptable(s, g)
    ensures Takes(s, g, HandleEstablished(s, g, now))
  {
    hide Has, Low, Awaiting, TakeFin, TakeData, SendSegment, Unacceptable, Fire;
    var t := if PayloadSize(g) > 0 then TakeData(s, g, now) else s;
    TakeDataTakes(s, g, now);
    TakeFinSame(t, g, now);
    var u := if Has(g.opt, FIN) then TakeFin(t, g, now) else t;
    CallbacksSame(u.(state := Low(u.state)), now);
    SendSame(s);
  }

  lemma RefusedSame(s: Sock, g: Arrival, now: nat)
    ensures Refused(s, g, now).accepted == s.accepted
  {
    hide Has, Reset, Abandon, Fire, SendSegment, Unsynchronized, Synchronized;
    CallbacksSame(s, now);
    CallbacksSame(Abandon(s, now), now);
    SendSame(s);
  }

  lemma ArrivalTakes(s0: Sock, g: Arrival, now: nat)
    ensures Takes(s0, g, HandleSegment(s0, g, now))
  {
    var s := s0.(remoteWindow := g.window);
    WindowIgnored(s0, s, g);
    hide Has, Low, Learn, SendSegment, SetState, HandleEstablished, Acknowledged, Refused, DoForceClose, Unacceptable;
    if !g.valid {
    } else if Unacceptable(s, g) {
      RefusedSame(s, g, now);
    } else if Low(s.state) == ESTABLISHED {
      NotOpening(s);
      EstablishedTakes(s, g, now);
    } else {
      CallbacksSame(s, now);
      HandshakeSame(s, g, now);
      AcknowledgedSame(s, now);
    }
  }

  lemma WindowIgnored(s0: Sock, s: Sock, g: Arrival)
    requires s == s0.(remoteWindow := s.remoteWindow)
    ensures Unacceptable(s0, g) == Unacceptable(s, g) && Offered(s0, g) == Offered(s, g)
  {
    hide Has, Low, Unsynchronized, Synchronized;
  }

  lemma NotOpening(s: Sock)
    requires Low(s.state) == ESTABLISHED
    ensures s.state != LISTEN && s.state != SYN_SENT
  {
  }

  /** Over one entry into the socket, with any script in the callbacks. */
  lemma StepTakes(s: Sock, e: Event)
    ensures !Offers(s, e) ==> Step(s, e).accepted == s.accepted
    ensures Offers(s, e) && e.script != [] && e.script[0].Done? ==>
              Step(s, e).accepted == s.accepted + if e.script[0].accept then e.act.g.recv else []
  {
    var t := s.(script := e.script, window := e.window);
    hide HandleSegment, CheckState, SetState, DoForceClose, DoClose, Offered;
    match e.act
    case Open => SetStateSame(SendSegment(t, SYN, []).(attempts := 1), SYN_SENT, e.now);
    case Tick => CheckStateSame(t, e.now);
    case Arrive(g) =>
      ArrivalTakes(t, g, e.now);
      ScriptIgnored(s, t, g);
    case Api(Send(data)) =>
    case Api(Close) => CloseSame(t, e.now);
    case Api(ForceClose) => CallbacksSame(t, e.now);
    case Api(OtherWrite(_)) =>
    case Api(Done(_, _)) =>
  }

  lemma CloseSame(s: Sock, now: nat)
    ensures DoClose(s, now).accepted == s.accepted
  {
    hide LocalClosed, Fire;
    CallbacksSame(FinStep(s, now), now);
  }

  lemma ScriptIgnored(s: Sock, t: Sock, g: Arrival)
    requires t == s.(script := t.script, window := t.window)
    ensures Offered(s, g) == Offered(t, g)
  {
    hide Has, Low, Unsynchronized, Synchronized;
  }

  // ------------------------------------------------------------- the system

  datatype Duo = Duo(a: Side, b: Side)

  datatype Deed = Moves(m: Move) | Reads(atA: bool, n: nat)

  function Sockets(d: Duo): Pair { Pair(d.a.s, d.b.s) }

  function NextDuo(d: Duo, x: Deed): Duo {
    match x
    case Moves(m) => if m.atA then d.(a := SideStep(d.a, m.e)) else d.(b := SideStep(d.b, m.e))
    case Reads(atA, n) =>
      if atA then d.(a := d.a.(box := ReadOut(d.a.box, n))) else d.(b := d.b.(box := ReadOut(d.b.box, n)))
  }

  function EndDuo(d: Duo, xs: seq<Deed>): Duo {
    if xs == [] then d else NextDuo(EndDuo(d, xs[..|xs| - 1]), xs[|xs| - 1])
  }

  /** The moves of the sockets alone. */
  function OnlyMoves(xs: seq<Deed>): seq<Move> {
    if xs == [] then []
    else
      var before, x := OnlyMoves(xs[..|xs| - 1]), xs[|xs| - 1];
      if x.Moves? then before + [x.m] else before
  }

  /** Each arrival is answered according to the buffer as it is then. */
  predicate Answered(d: Duo, xs: seq<Deed>) {
    xs != [] ==>
      && Answered(d, xs[..|xs| - 1])
      && (var q, x := EndDuo(d, xs[..|xs| - 1]), xs[|xs| - 1];
          x.Moves? ==> Answers(if x.m.atA then q.a else q.b, x.m.e))
  }

  /** Accepted bytes are the bytes read followed by the bytes waiting. */
  predicate Conserved(x: Side) {
    x.s.accepted == x.box.taken + x.box.buffered && |x.box.buffered| <= x.box.capacity
  }

  lemma SideKeeps(x: Side, e: Event)
    requires Conserved(x) && Answers(x, e)
    ensures Conserved(SideStep(x, e))
  {
    hide Step, Offers;
    StepTakes(x.s, e);
  }

  lemma ReadKeeps(x: Side, n: nat)
    requires Conserved(x)
    ensures Conserved(x.(box := ReadOut(x.box, n)))
  {
    var k := if n > |x.box.buffered| then |x.box.buffered| else n;
    assert x.box.buffered == x.box.buffered[..k] + x.box.buffered[k..];
  }

  lemma {:induction false} DuoKeeps(d: Duo, xs: seq<Deed>)
    requires Conserved(d.a) && Conserved(d.b) && Answered(d, xs)
    ensures Conserved(EndDuo(d, xs).a) && Conserved(EndDuo(d, xs).b)
    ensures Sockets(EndDuo(d, xs)) == Final(Sockets(d), OnlyMoves(xs))
  {
    hide Conserved, SideStep, ReadOut, Answers, Step;
    if xs != [] {
      var q, x := EndDuo(d, xs[..|xs| - 1]), xs[|xs| - 1];
      DuoKeeps(d, xs[..|xs| - 1]);
      match x
      case Moves(m) =>
        SideKeeps(if m.atA then q.a else q.b, m.e);
        StepOf(if m.atA then q.a else q.b, m.e);
        var before := OnlyMoves(xs[..|xs| - 1]);
        assert (before + [m])[..|before + [m]| - 1] == before;
      case Reads(atA, n) => ReadKeeps(if atA then q.a else q.b, n);
    }
  }

  lemma StepOf(x: Side, e: Event)
    ensures SideStep(x, e).s == Step(x.s, e)
  {
  }

  /** For every interleaving of sends, arrivals, losses, ticks and reads: what has been read is
      a prefix of what the peer has sent, and what is missing from it so far is either waiting
      in the buffer or not accepted yet. */
  lemma ReadsArePrefix(d: Duo, xs: seq<Deed>)
    requires Agreed(Sockets(d)) && Conserved(d.a) && Conserved(d.b)
    requires Answered(d, xs) && Legal(Sockets(d), OnlyMoves(xs))
    ensures var q := EndDuo(d, xs);
      && q.a.box.taken <= q.b.s.sent && q.b.box.taken <= q.a.s.sent
      && q.a.s.accepted == q.a.box.taken + q.a.box.buffered
      && q.b.s.accepted == q.b.box.taken + q.b.box.buffered
      && |q.a.box.buffered| <= q.a.box.capacity && |q.b.box.buffered| <= q.b.box.capacity
  {
    hide Legal, Agreed;
    DuoKeeps(d, xs);
    StreamIsPrefix(Sockets(d), OnlyMoves(xs));
  }
}
