/** Two connected sockets over a network that loses, duplicates and reorders segments.
    The network is the set of everything either side has emitted since the connection was
    opened: any of it may arrive at any time, any number of times, or never; a segment
    damaged on the way arrives with a checksum that does not match.  Either application
    may send, close and abort, also from inside callbacks, and either socket may have a
    timeout. */
module SocketStream {
  import opened Words
  import opened SocketModel
  import opened SocketKeeps

  // ------------------------------------------------------------- the system

  datatype Pair = Pair(a: Sock, b: Sock)

  datatype Move = Move(atA: bool, e: Event)

  function HeaderSize(g: Segment): nat { if Has(g.opt, SYN) then 24 else 20 }

  /** How an emitted segment is seen by its receiver when its header length is not less
      than its header; a SYN also brings a segment size. */
  function Wire(g: Segment): Arrival {
    var size, at := HeaderSize(g) + |g.payload|, 4 * g.words;
    Arrival(true, g.opt, g.seqNo, g.ackNo, g.window, g.words, size,
            if HeaderSize(g) <= at <= size then g.payload[at - HeaderSize(g)..] else [], None)
  }

  predicate Brings(g: Segment, x: Arrival) { x == Wire(g).(mss := x.mss) }

  /** Whatever else writes into the send buffer leaves at least 5 words in byte 12. */
  predicate Clean(script: seq<Call>) {
    forall c :: c in script ==> c.OtherWrite? ==> c.words >= 5
  }

  /** Only what the peer emitted, or damaged segments, arrive; no new connection is begun. */
  ghost predicate Allowed(e: Event, self: Sock, peer: Sock) {
    && Clean(e.script)
    && !e.act.Open?
    && (e.act.Api? ==> Clean([e.act.call]))
    && (e.act.Arrive? && e.act.g.valid ==>
          && (exists g :: g in peer.out && Brings(g, e.act.g))
          && !(self.state == LISTEN && e.act.g.opt == SYN))
  }

  function Next(p: Pair, m: Move): Pair {
    if m.atA then p.(a := Step(p.a, m.e)) else p.(b := Step(p.b, m.e))
  }

  function Final(p: Pair, ms: seq<Move>): Pair {
    if ms == [] then p else Next(Final(p, ms[..|ms| - 1]), ms[|ms| - 1])
  }

  predicate Bounded(s: Sock) { |s.sent| < MOD32 }

  /** Every move is allowed where it is made, and neither side sends 2^32 bytes. */
  ghost predicate Legal(p: Pair, ms: seq<Move>) {
    ms != [] ==>
      && Legal(p, ms[..|ms| - 1])
      && (var q, m := Final(p, ms[..|ms| - 1]), ms[|ms| - 1];
          if m.atA then Allowed(m.e, q.a, q.b) else Allowed(m.e, q.b, q.a))
      && Bounded(Final(p, ms).a) && Bounded(Final(p, ms).b)
  }

  /** What a handshake leaves in the network: no data, no FIN, and no acknowledgement but of
      the peer's SYN. */
  predicate FromOpening(g: Segment, ackNo: nat) {
    g.payload == [] && !Has(g.opt, FIN) && (Has(g.opt, ACK) && !Has(g.opt, RST) ==> g.ackNo == ackNo)
  }

  ghost predicate Fresh(s: Sock) {
    && s.state == ESTABLISHED && |s.stash| < MOD16 && s.lastDataLength == 0 && s.staleWords >= 5
    && s.localSeq < MOD32 && s.sent == [] && s.accepted == []
    && forall g :: g in s.out ==> FromOpening(g, s.remoteSeq)
  }

  /** Both established, each expecting the other's next sequence number. */
  ghost predicate Agreed(p: Pair) {
    Fresh(p.a) && Fresh(p.b) && p.a.remoteSeq == p.b.localSeq && p.b.remoteSeq == p.a.localSeq
  }

  // ---------------------------------------------------------- the invariant

  /** Payload of g is the sender's bytes from position k, and unless g is the segment
      in flight it ends where the segment in flight starts, or earlier. */
  ghost predicate Carries(g: Segment, base: nat, sent: seq<byte>, last: nat, k: nat) {
    && k + |g.payload| <= |sent|
    && g.seqNo == Add32(base, k)
    && g.payload == sent[k..k + |g.payload|]
    && (k + |g.payload| + last <= |sent| || (k + last == |sent| && |g.payload| == last))
  }

  ghost predicate SegOk(g: Segment, base: nat, sent: seq<byte>, last: nat) {
    if g.payload == [] then Has(g.opt, FIN) ==> !Has(g.opt, SYN) && g.words >= 5
    else
      && !Has(g.opt, SYN) && !Has(g.opt, FIN) && g.words == 5 && |g.payload| < MOD16
      && exists k: nat :: Carries(g, base, sent, last, k)
  }

  /** The acknowledgement in g is for some byte the receiver had accepted. */
  ghost predicate AckOk(g: Segment, base: nat, taken: nat) {
    Has(g.opt, ACK) && !Has(g.opt, RST) ==> exists j: nat :: j <= taken && g.ackNo == Add32(base, j)
  }

  /** The socket has not sent a FIN. */
  ghost predicate NoFin(s: Sock) { forall g :: g in s.out ==> !Has(g.opt, FIN) }

  /** Until the peer sends a FIN, only its bytes are acknowledged. */
  ghost predicate Outs(s: Sock, base: nat, peerBase: nat, peerOpen: bool) {
    forall g :: g in s.out ==>
      SegOk(g, base, s.sent, s.lastDataLength) && (peerOpen ==> AckOk(g, peerBase, |s.accepted|))
  }

  predicate Phase(s: Sock) {
    && |s.stash| < MOD16 && s.staleWords >= 5
    && (s.state == ESTABLISHED || s.state == ESTABLISHED | AWAITING_ACK || Ended(s.state))
  }

  /** States in which nothing is sent or accepted any more. */
  predicate Ended(state: bv8) {
    state == FIN_WAIT_1 || state == FIN_WAIT_2 || state == CLOSE_WAIT || state == CLOSING || state == LAST_ACK ||
    state == TIME_WAIT || state == CLOSED || state == LISTEN
  }

  /** The direction from x to y. */
  ghost predicate Half(x: Sock, y: Sock, base: nat) {
    && (NoFin(x) ==> x.localSeq == Add32(base, |x.sent|) && y.remoteSeq == Add32(base, |y.accepted|))
    && (Low(x.state) == ESTABLISHED ==> NoFin(x))
    && (Low(y.state) == ESTABLISHED ==> y.remoteSeq == Add32(base, |y.accepted|))
    && x.lastDataLength <= |x.sent|
    && y.accepted <= x.sent
    && (|y.accepted| == |x.sent| || |y.accepted| + x.lastDataLength == |x.sent|)
    && (x.state == ESTABLISHED ==> |y.accepted| == |x.sent|)
    && (x.state == ESTABLISHED | AWAITING_ACK ==>
          && 1 <= x.lastDataLength <= |x.stash|
          && x.stash[..x.lastDataLength] == x.sent[|x.sent| - x.lastDataLength..])
  }

  ghost predicate Inv(a: Sock, b: Sock, ba: nat, bb: nat) {
    && Phase(a) && Phase(b)
    && Half(a, b, ba) && Half(b, a, bb)
    && Outs(a, ba, bb, NoFin(b)) && Outs(b, bb, ba, NoFin(a))
  }

  // ------------------------------------------------- arithmetic modulo 2^32

  lemma Rewind(base: nat, m: nat, n: nat)
    requires n <= m
    ensures Sub32(Add32(base, m), n) == Add32(base, m - n)
    ensures Add32(Add32(base, m - n), n) == Add32(base, m)
  {
    var back: int := n;
    Around32(base + m, -back);
    Around32(base + m - n, n);
  }

  lemma Around32(x: nat, d: int)
    ensures (x % MOD32 + d) % MOD32 == (x + d) % MOD32
  {
    var q, r := x / MOD32, x % MOD32;
    assert x + d == q * MOD32 + (r + d);
  }

  lemma SamePosition(base: nat, j: nat, k: nat)
    requires j < MOD32 && k < MOD32 && Add32(base, j) == Add32(base, k)
    ensures j == k
  {
  }

  // ------------------------------------------------------- primitive effects

  lemma FinEmit(s: Sock, g: Segment)
    ensures NoFin(Emit(s, g)) <==> NoFin(s) && !Has(g.opt, FIN)
  {
    var r := Emit(s, g);
    assert g in r.out;
    assert forall h :: h in s.out ==> h in r.out;
  }

  /** Emitting a segment that is no FIN. */
  lemma EmitKeeps(s: Sock, b: Sock, ba: nat, bb: nat, g: Segment)
    requires Inv(s, b, ba, bb) && !Has(g.opt, FIN) && g.words >= 5
    requires SegOk(g, ba, s.sent, s.lastDataLength) && (NoFin(b) ==> AckOk(g, bb, |s.accepted|))
    ensures Inv(Emit(s, g), b, ba, bb)
  {
    FinEmit(s, g);
    hide SegOk, AckOk, NoFin, Has;
  }

  lemma AckKeeps(s: Sock, b: Sock, ba: nat, bb: nat)
    requires Inv(s, b, ba, bb)
    ensures Inv(SendSegment(s, ACK, []), b, ba, bb)
  {
    EmitKeeps(s, b, ba, bb, Segment(ACK, s.localSeq, s.remoteSeq, s.window, 5, []));
  }

  lemma ResetEmitKeeps(s: Sock, b: Sock, ba: nat, bb: nat, q: nat, a: nat)
    requires Inv(s, b, ba, bb)
    ensures Inv(EmitReset(s, q, a), b, ba, bb)
  {
    var g := Segment(if a == s.remoteSeq then RST | ACK else RST, q, a, s.window, 5, []);
    assert !Has(RST | ACK, FIN) && !Has(RST, FIN) && Has(RST | ACK, RST) && Has(RST, RST);
    assert EmitReset(s, q, a) == Emit(s, g);
    EmitKeeps(s, b, ba, bb, g);
  }

  /** Fields that the invariant does not speak of. */
  lemma OthersKeep(s: Sock, t: Sock, b: Sock, ba: nat, bb: nat)
    requires Inv(s, b, ba, bb) && 5 <= t.staleWords
    requires t.(script := s.script, window := s.window, attempts := s.attempts, remoteWindow := s.remoteWindow,
                staleWords := s.staleWords) == s
    ensures Inv(t, b, ba, bb) && (Bounded(s) ==> Bounded(t))
  {
    hide SegOk, AckOk;
    assert NoFin(t) == NoFin(s);
    assert Half(t, b, ba) && Half(b, t, bb) && Outs(t, ba, bb, NoFin(b)) && Outs(b, bb, ba, NoFin(t));
  }

  /** Leaving the connection. */
  lemma PutKeeps(s: Sock, b: Sock, ba: nat, bb: nat, state: bv8, now: nat)
    requires Inv(s, b, ba, bb) && Ended(state)
    ensures Inv(Put(s, state, now), b, ba, bb)
  {
    var p := Put(s, state, now);
    assert Low(state) != ESTABLISHED && state != ESTABLISHED && state != ESTABLISHED | AWAITING_ACK;
    hide SegOk, AckOk, Low, Ended;
    assert NoFin(p) == NoFin(s);
    assert Half(p, b, ba) && Half(b, p, bb) && Outs(p, ba, bb, NoFin(b)) && Outs(b, bb, ba, NoFin(p));
  }

  /** A send extends the stream; every older segment is now behind the new one. */
  lemma SendKeeps(s: Sock, b: Sock, ba: nat, bb: nat, data: seq<byte>, now: nat)
    requires Inv(s, b, ba, bb)
    ensures Inv(DoSend(s, data, now), b, ba, bb)
  {
    var r := DoSend(s, data, now);
    if r != s {
      Launched(s, data, now);
      var g := Segment(ACK | PSH, s.localSeq, s.remoteSeq, s.window, 5, data);
      assert !Has(ACK | PSH, FIN) && !Has(ACK | PSH, SYN);
      FinEmit(s, g);
      assert NoFin(r) == NoFin(Emit(s, g));
      SentOuts(s, r, g, b, ba, bb, data);
      SentHalf(s, r, b, ba, data);
      hide Outs, Carries;
    }
  }

  lemma Launched(s: Sock, data: seq<byte>, now: nat)
    requires DoSend(s, data, now) != s && Phase(s)
    ensures var r := DoSend(s, data, now);
      && s.state == ESTABLISHED && r.state == ESTABLISHED | AWAITING_ACK && 1 <= |data| <= |s.stash|
      && r.out == s.out + [Segment(ACK | PSH, s.localSeq, s.remoteSeq, s.window, 5, data)]
      && r.sent == s.sent + data && r.lastDataLength == |data| && r.localSeq == Add32(s.localSeq, |data|)
      && r.stash == data + s.stash[|data|..] && r.remoteSeq == s.remoteSeq && r.accepted == s.accepted && Phase(r)
  {
  }

  lemma SentOuts(s: Sock, r: Sock, g: Segment, b: Sock, ba: nat, bb: nat, data: seq<byte>)
    requires Inv(s, b, ba, bb) && s.state == ESTABLISHED && 1 <= |data| < MOD16
    requires g.opt == ACK | PSH && g.seqNo == s.localSeq && g.ackNo == s.remoteSeq
    requires g.words == 5 && g.payload == data
    requires r.out == s.out + [g] && r.sent == s.sent + data && r.lastDataLength == |data| && r.accepted == s.accepted
    ensures Outs(r, ba, bb, NoFin(b))
  {
    assert Low(ESTABLISHED) == ESTABLISHED && !Has(ACK | PSH, FIN) && !Has(ACK | PSH, SYN);
    hide NoFin, Has, Low;
    forall h | h in r.out
      ensures SegOk(h, ba, r.sent, r.lastDataLength) && (NoFin(b) ==> AckOk(h, bb, |r.accepted|))
    {
      if h in s.out {
        OlderSegment(h, ba, s.sent, s.lastDataLength, data);
      } else {
        assert Carries(g, ba, r.sent, |data|, |s.sent|);
      }
    }
  }

  lemma SentHalf(s: Sock, r: Sock, b: Sock, ba: nat, data: seq<byte>)
    requires Half(s, b, ba) && s.state == ESTABLISHED && r.state == ESTABLISHED | AWAITING_ACK
    requires 1 <= |data| <= |s.stash| && r.sent == s.sent + data && r.lastDataLength == |data|
    requires r.localSeq == Add32(s.localSeq, |data|) && r.stash == data + s.stash[|data|..] && NoFin(r) == NoFin(s)
    ensures Half(r, b, ba)
  {
    assert Low(ESTABLISHED) == ESTABLISHED;
    Rewind(ba, |r.sent|, |data|);
    assert r.sent[..|s.sent|] == s.sent;
    hide NoFin, Low;
  }

  lemma OlderSegment(g: Segment, base: nat, sent: seq<byte>, last: nat, data: seq<byte>)
    requires SegOk(g, base, sent, last)
    ensures SegOk(g, base, sent + data, |data|)
  {
    if g.payload != [] {
      var k: nat :| Carries(g, base, sent, last, k);
      assert (sent + data)[k..k + |g.payload|] == sent[k..k + |g.payload|];
      assert Carries(g, base, sent + data, |data|, k);
    }
  }

  lemma ResendKeeps(s: Sock, b: Sock, ba: nat, bb: nat)
    requires Inv(s, b, ba, bb) && s.state == ESTABLISHED | AWAITING_ACK
    ensures ResendData(s).localSeq == s.localSeq
    ensures Inv(ResendData(s), b, ba, bb)
  {
    var n := s.lastDataLength;
    assert Low(ESTABLISHED | AWAITING_ACK) == ESTABLISHED;
    Rewind(ba, |s.sent|, n);
    var g := Segment(ACK, Add32(ba, |s.sent| - n), s.remoteSeq, s.window, 5, s.stash[..n]);
    assert Carries(g, ba, s.sent, n, |s.sent| - n);
    assert ResendData(s) == Emit(s, g);
    hide Half, Outs, Carries;
    EmitKeeps(s, b, ba, bb, g);
  }

  /** A FIN goes out and the state leaves the connection. */
  lemma FinSent(s: Sock, b: Sock, ba: nat, bb: nat, q: nat, localSeq: nat)
    requires Inv(s, b, ba, bb) && Ended(s.state)
    ensures var g := Segment(FIN | ACK, q, s.remoteSeq, s.window, s.staleWords, []);
      Inv(Emit(s, g).(localSeq := localSeq), b, ba, bb)
  {
    var g := Segment(FIN | ACK, q, s.remoteSeq, s.window, s.staleWords, []);
    var r := Emit(s, g).(localSeq := localSeq);
    assert Has(FIN | ACK, FIN) && !Has(FIN | ACK, SYN);
    assert Low(s.state) != ESTABLISHED && s.state != ESTABLISHED && s.state != ESTABLISHED | AWAITING_ACK;
    FinEmit(s, g);
    assert g in r.out && !NoFin(r);
    assert SegOk(g, ba, s.sent, s.lastDataLength);
    assert NoFin(b) ==> AckOk(g, bb, |s.accepted|);
    hide SegOk, AckOk, Has, Low, Ended, NoFin;
    assert Half(r, b, ba) && Half(b, r, bb) && Outs(r, ba, bb, NoFin(b)) && Outs(b, bb, ba, NoFin(r));
  }

  lemma FinStepKeeps(s: Sock, b: Sock, ba: nat, bb: nat, now: nat)
    requires Inv(s, b, ba, bb) && !LocalClosed(s)
    ensures Inv(FinStep(s, now), b, ba, bb) && Ended(FinStep(s, now).state)
  {
    var next := if s.state == CLOSE_WAIT then LAST_ACK else FIN_WAIT_1;
    PutKeeps(s, b, ba, bb, next, now);
    var p := Put(s, next, now);
    FinSent(p, b, ba, bb, s.localSeq, Add32(s.localSeq, 1));
    FinCommutes(s, next, now);
    var r := SendSegment(p, FIN | ACK, []);
    assert r == Emit(p, Segment(FIN | ACK, p.localSeq, p.remoteSeq, p.window, p.staleWords, []))
                .(localSeq := Add32(s.localSeq, 1));
    hide Phase, Half, Outs, FinStep, SendSegment;
    OthersKeep(r, r.(attempts := 1), b, ba, bb);
  }

  /** The FIN and the state change may be taken in either order. */
  lemma FinCommutes(s: Sock, next: bv8, now: nat)
    requires !LocalClosed(s) && Phase(s) && next == if s.state == CLOSE_WAIT then LAST_ACK else FIN_WAIT_1
    ensures FinStep(s, now) == SendSegment(Put(s, next, now), FIN | ACK, []).(attempts := 1)
  {
  }

  // --------------------------------------------------------------- callbacks

  /** The peer, and what a callback leaves alone.  While a segment is in flight it cannot
      send either: `frozen` then holds the bytes sent so far.  A connection that has been
      left stays left. */
  datatype Context = Context(b: Sock, ba: nat, bb: nat, remoteSeq: nat, accepted: seq<byte>,
                             frozen: Option<seq<byte>>, ended: bool)

  function At(s: Sock, b: Sock, ba: nat, bb: nat): Context {
    Context(b, ba, bb, s.remoteSeq, s.accepted, if s.state == ESTABLISHED then None else Some(s.sent), Ended(s.state))
  }

  ghost predicate Kept(s: Sock, c: Context) {
    && Clean(s.script) && Phase(s) && s.remoteSeq == c.remoteSeq && s.accepted == c.accepted
    && (c.frozen.Some? ==> s.sent == c.frozen.value && s.state != ESTABLISHED)
    && (c.ended ==> Ended(s.state))
    && (Bounded(s) ==> Inv(s, c.b, c.ba, c.bb))
  }

  lemma SendKept(s: Sock, c: Context, data: seq<byte>, now: nat)
    requires Kept(s, c)
    ensures Kept(DoSend(s, data, now), c)
  {
    hide Inv, Clean;
    if Bounded(DoSend(s, data, now)) {
      SendKeeps(s, c.b, c.ba, c.bb, data, now);
    }
  }

  lemma PutKept(s: Sock, c: Context, now: nat)
    requires Kept(s, c)
    ensures Kept(Put(s, Idle(s), now), c)
  {
    if Bounded(s) {
      PutKeeps(s, c.b, c.ba, c.bb, Idle(s), now);
    }
    hide Inv, Clean;
  }

  lemma ResetEmits(s: Sock, q: nat, a: nat)
    ensures EmitReset(s, q, a) ==
      Emit(s, Segment(if a == s.remoteSeq then RST | ACK else RST, q, a, s.window, 5, []))
  {
    assert Has(RST | ACK, RST) && Has(RST, RST) && !Has(RST | ACK, SYN) && !Has(RST, SYN);
    assert !Has(RST | ACK, FIN) && !Has(RST, FIN);
    hide Has;
  }

  lemma EmitResetKept(s: Sock, c: Context, q: nat, a: nat)
    requires Kept(s, c)
    ensures Kept(EmitReset(s, q, a), c)
  {
    hide Inv, Clean;
    if Bounded(s) {
      ResetEmitKeeps(s, c.b, c.ba, c.bb, q, a);
    }
    ResetEmits(s, q, a);
    hide EmitReset;
  }

  lemma FinStepKept(s: Sock, c: Context, now: nat)
    requires Kept(s, c) && !LocalClosed(s)
    ensures Kept(FinStep(s, now), c)
  {
    FinCommutes(s, if s.state == CLOSE_WAIT then LAST_ACK else FIN_WAIT_1, now);
    if Bounded(s) {
      FinStepKeeps(s, c.b, c.ba, c.bb, now);
    }
    hide Inv, Clean;
  }

  lemma ScriptKept(s: Sock, c: Context)
    requires Kept(s, c)
    ensures s.script == [] ==> Kept(Exhausted(s), c)
    ensures s.script != [] ==> Kept(Pop(s), c) && Clean([s.script[0]])
    ensures s.script != [] && s.script[0].Done? ==> Kept(Return(s), c)
  {
    if s.script != [] {
      assert forall x :: x in s.script[1..] ==> x in s.script;
      var t := Pop(s);
      if Bounded(s) {
        OthersKeep(s, t, c.b, c.ba, c.bb);
        if s.script[0].Done? {
          AcceptKeeps(s, Return(s), c.b, c.ba, c.bb);
        }
      }
    } else if Bounded(s) {
      AcceptKeeps(s, Exhausted(s), c.b, c.ba, c.bb);
    }
    hide Inv;
  }

  lemma AcceptKeeps(s: Sock, t: Sock, b: Sock, ba: nat, bb: nat)
    requires Inv(s, b, ba, bb) && t.(script := s.script, window := s.window, accept := s.accept) == s
    ensures Inv(t, b, ba, bb)
  {
    hide SegOk, AckOk;
    assert NoFin(t) == NoFin(s);
    assert Half(t, b, ba) && Half(b, t, bb) && Outs(t, ba, bb, NoFin(b)) && Outs(b, bb, ba, NoFin(t));
  }

  lemma OverwrittenKept(s: Sock, c: Context, words: nibble)
    requires Kept(s, c) && words >= 5
    ensures Kept(Overwritten(s, words), c)
  {
    if Bounded(s) {
      OthersKeep(s, Overwritten(s, words), c.b, c.ba, c.bb);
    }
    hide Inv, Clean;
  }

  lemma StableKept(c: Context, now: nat)
    ensures Stable(x => Kept(x, c), now)
  {
    hide Kept, DoSend, EmitReset, FinStep, Put, Pop, Return, Exhausted, Overwritten, LocalClosed;
    forall s: Sock | Kept(s, c)
      ensures s.script == [] ==> Kept(Exhausted(s), c)
      ensures s.script != [] && s.script[0].Done? ==> Kept(Return(s), c)
      ensures Kept(Put(s, Idle(s), now), c)
    {
      ScriptKept(s, c);
      PutKept(s, c, now);
    }
    forall s: Sock | Kept(s, c) && s.script != []
      ensures Kept(Pop(s), c)
      ensures s.script[0].OtherWrite? ==> Kept(Overwritten(Pop(s), s.script[0].words), c)
    {
      ScriptKept(s, c);
      if s.script[0].OtherWrite? {
        OverwrittenKept(Pop(s), c, s.script[0].words);
      }
    }
    forall s: Sock, data: seq<byte> | Kept(s, c) ensures Kept(DoSend(s, data, now), c) {
      SendKept(s, c, data, now);
    }
    forall s: Sock, q: nat, a: nat | Kept(s, c) ensures Kept(EmitReset(s, q, a), c) {
      EmitResetKept(s, c, q, a);
    }
    forall s: Sock | Kept(s, c) && s.script != [] && s.script[0].Close? && !LocalClosed(s)
      ensures Kept(FinStep(Pop(s), now), c)
    {
      ScriptKept(s, c);
      SameClosed(s);
      FinStepKept(Pop(s), c, now);
    }
  }

  lemma SameClosed(s: Sock)
    requires s.script != []
    ensures LocalClosed(Pop(s)) == LocalClosed(s)
  {
  }

  lemma CallbacksKept(s: Sock, b: Sock, ba: nat, bb: nat, now: nat)
    requires Clean(s.script) && Inv(s, b, ba, bb)
    ensures Kept(Fire(s, now), At(s, b, ba, bb))
    ensures Kept(DoForceClose(s, now), At(s, b, ba, bb))
    ensures Kept(Abandon(s, now), At(s, b, ba, bb))
    ensures Kept(Fire(Abandon(s, now), now), At(s, b, ba, bb))
    ensures forall q: nat, a: nat :: Kept(Reset(s, q, a, now), At(s, b, ba, bb))
  {
    var P := x => Kept(x, At(s, b, ba, bb));
    StableKept(At(s, b, ba, bb), now);
    assert P(s);
    hide Kept;
    FireKeeps(P, s, now);
    ForceCloseKeeps(P, s, now);
    AbandonKeeps(P, s, now);
    FireKeeps(P, Abandon(s, now), now);
    forall q: nat, a: nat ensures P(Reset(s, q, a, now)) {
      ResetKeeps(P, s, q, a, now);
    }
  }

  lemma CloseKept(s: Sock, b: Sock, ba: nat, bb: nat, now: nat)
    requires Clean(s.script) && Inv(s, b, ba, bb)
    ensures Bounded(DoClose(s, now)) ==> Inv(DoClose(s, now), b, ba, bb)
  {
    if !LocalClosed(s) {
      FinStepKeeps(s, b, ba, bb, now);
      FinCommutes(s, if s.state == CLOSE_WAIT then LAST_ACK else FIN_WAIT_1, now);
      hide Inv, Phase, FinStep, LocalClosed;
      CallbacksKept(FinStep(s, now), b, ba, bb, now);
    }
  }

  // -------------------------------------------------------------- the steps

  /** A segment in order and with data is the one in flight: taking it completes the
      stream up to what the peer has sent. */
  lemma TakenIsNext(a: Sock, b: Sock, ba: nat, bb: nat, g: Segment)
    requires Inv(a, b, ba, bb) && Bounded(b) && g in b.out && g.payload != []
    requires Low(a.state) == ESTABLISHED && g.seqNo == a.remoteSeq
    ensures a.accepted + g.payload == b.sent
    ensures PayloadSize(Wire(g)) == |g.payload| && Wire(g).recv == g.payload && !Has(g.opt, FIN)
    ensures Add32(g.seqNo, |g.payload|) == Add32(bb, |b.sent|)
  {
    assert SegOk(g, bb, b.sent, b.lastDataLength);
    DataOnWire(g);
    hide Wire, Has, Phase, Outs, Low;
    var k: nat :| Carries(g, bb, b.sent, b.lastDataLength, k);
    SamePosition(bb, k, |a.accepted|);
    assert b.sent == b.sent[..k] + b.sent[k..k + |g.payload|];
    Rewind(bb, |b.sent|, |g.payload|);
  }

  lemma DataOnWire(g: Segment)
    requires !Has(g.opt, SYN) && g.words == 5 && |g.payload| < MOD16
    ensures PayloadSize(Wire(g)) == |g.payload| && Wire(g).recv == g.payload
  {
    assert HeaderSize(g) == 20;
    hide Has, HeaderSize;
    var x := Wire(g);
    assert x.size == 20 + |g.payload| && x.words == 5;
    assert x.recv == g.payload[0..] == g.payload;
  }

  /** An acknowledgement of everything sent means the peer has accepted it all. */
  lemma AckedIsAccepted(a: Sock, b: Sock, ba: nat, bb: nat, g: Segment)
    requires Inv(a, b, ba, bb) && Bounded(a) && g in b.out && Low(a.state) == ESTABLISHED
    requires Has(g.opt, ACK) && !Has(g.opt, RST) && g.ackNo == a.localSeq
    ensures |b.accepted| == |a.sent|
  {
    assert NoFin(a) && AckOk(g, ba, |b.accepted|);
    var j: nat :| j <= |b.accepted| && g.ackNo == Add32(ba, j);
    SamePosition(ba, j, |a.sent|);
  }

  /** What a step must keep: a Clean script, and a socket that could not send still cannot. */
  ghost predicate StepKept(s: Sock, r: Sock, b: Sock, ba: nat, bb: nat) {
    && Clean(r.script) && (s.state != ESTABLISHED ==> r.sent == s.sent && r.state != ESTABLISHED)
    && (Bounded(r) ==> Inv(r, b, ba, bb))
  }

  /** Taking the data in flight. */
  lemma TakenKeeps(f: Sock, r: Sock, b: Sock, ba: nat, bb: nat)
    requires Inv(f, b, ba, bb) && f.remoteSeq == Add32(bb, |f.accepted|) && f.accepted <= b.sent
    requires r == f.(remoteSeq := r.remoteSeq, accepted := b.sent, stateTime := r.stateTime)
    requires r.remoteSeq == Add32(bb, |b.sent|)
    ensures Inv(r, b, ba, bb)
  {
    hide SegOk;
    assert NoFin(r) == NoFin(f);
    forall h | h in r.out && NoFin(b) ensures AckOk(h, bb, |r.accepted|) {
      assert AckOk(h, bb, |f.accepted|);
    }
    assert Half(r, b, ba) && Half(b, r, bb) && Outs(r, ba, bb, NoFin(b)) && Outs(b, bb, ba, NoFin(r));
  }

  lemma OfferKeeps(s: Sock, b: Sock, ba: nat, bb: nat, g: Segment, x: Arrival, now: nat)
    requires Inv(s, b, ba, bb) && Bounded(b) && Clean(s.script) && Low(s.state) == ESTABLISHED && Brings(g, x)
    requires g in b.out && g.payload != [] && g.seqNo == s.remoteSeq
    ensures StepKept(s, Offer(s, x, now), b, ba, bb)
  {
    CallbacksKept(s, b, ba, bb, now);
    TakenIsNext(s, b, ba, bb, g);
    var f, r := Fire(s, now), Offer(s, x, now);
    assert s.remoteSeq == Add32(bb, |s.accepted|);
    hide Phase, Half, Outs, Fire, Low;
    if f.accept && Bounded(f) {
      TakenKeeps(f, r, b, ba, bb);
    }
  }

  lemma TakeDataKeeps(s: Sock, b: Sock, ba: nat, bb: nat, g: Segment, x: Arrival, now: nat)
    requires Inv(s, b, ba, bb) && Bounded(b) && Clean(s.script) && Low(s.state) == ESTABLISHED && Brings(g, x)
    requires g in b.out && g.payload != [] && g.seqNo == s.remoteSeq
    ensures StepKept(s, TakeData(s, x, now), b, ba, bb)
  {
    TakenIsNext(s, b, ba, bb, g);
    OfferKeeps(s, b, ba, bb, g, x, now);
    hide Phase, Half, Outs, Offer, Has;
    var f := Offer(s, x, now);
    if Bounded(f) {
      AckKeeps(f, b, ba, bb);
    }
    AckIsQuiet(f);
  }

  lemma AckIsQuiet(s: Sock)
    ensures var r := SendSegment(s, ACK, []);
      r.script == s.script && r.sent == s.sent && r.state == s.state
  {
  }

  /** Dropping the AWAITING_ACK flag once the peer has everything. */
  lemma ClearKeeps(s: Sock, b: Sock, ba: nat, bb: nat, now: nat)
    requires Inv(s, b, ba, bb) && Clean(s.script) && (Low(s.state) == ESTABLISHED ==> |b.accepted| == |s.sent|)
    ensures var r := Fire(s.(state := Low(s.state)), now); Bounded(r) ==> Inv(r, b, ba, bb)
  {
    var u := s.(state := Low(s.state));
    assert Low(u.state) == u.state && Low(ESTABLISHED | AWAITING_ACK) == ESTABLISHED;
    assert Phase(u);
    ClearedInv(s, u, b, ba, bb);
    hide Inv, Phase, Low;
    CallbacksKept(u, b, ba, bb, now);
  }

  lemma ClearedInv(s: Sock, u: Sock, b: Sock, ba: nat, bb: nat)
    requires Inv(s, b, ba, bb) && (Low(s.state) == ESTABLISHED ==> |b.accepted| == |s.sent|)
    requires u == s.(state := Low(s.state)) && Phase(u) && Low(u.state) == u.state
    ensures Inv(u, b, ba, bb)
  {
    assert u.state != ESTABLISHED | AWAITING_ACK;
    hide SegOk, AckOk, Phase, Low;
    assert NoFin(u) == NoFin(s);
    assert Half(u, b, ba) && Half(b, u, bb) && Outs(u, ba, bb, NoFin(b)) && Outs(b, bb, ba, NoFin(u));
  }

  /** Taking up the peer's FIN. */
  lemma FinTakenKeeps(s: Sock, b: Sock, ba: nat, bb: nat, g: Segment, remoteSeq: nat, now: nat)
    requires Inv(s, b, ba, bb) && g in b.out && Has(g.opt, FIN)
    ensures Inv(SendSegment(Put(s, CLOSE_WAIT, now).(remoteSeq := remoteSeq), ACK, []), b, ba, bb)
  {
    PutKeeps(s, b, ba, bb, CLOSE_WAIT, now);
    var p := Put(s, CLOSE_WAIT, now);
    var r := p.(remoteSeq := remoteSeq);
    assert Low(CLOSE_WAIT) != ESTABLISHED;
    assert !NoFin(b);
    hide SegOk, AckOk, Has, Low;
    assert NoFin(r) == NoFin(p);
    assert Half(r, b, ba) && Half(b, r, bb) && Outs(r, ba, bb, NoFin(b)) && Outs(b, bb, ba, NoFin(r));
    AckKeeps(r, b, ba, bb);
  }

  /** A FIN of the peer brings no data, and the socket leaves the connection. */
  lemma FinArrives(s: Sock, g: Segment, x: Arrival, now: nat)
    requires Low(s.state) == ESTABLISHED && Brings(g, x) && g.payload == [] && g.words >= 5
    requires Has(g.opt, FIN) && !Has(g.opt, SYN)
    ensures var t := if PayloadSize(x) > 0 then TakeData(s, x, now) else s;
      TakeFin(t, x, now) ==
        Fire(SendSegment(Put(s, CLOSE_WAIT, now).(remoteSeq := Add32(s.remoteSeq, 1)), ACK, []), now)
  {
    var v := SendSegment(s.(remoteSeq := Add32(s.remoteSeq, 1)), ACK, []);
    assert x.recv == [];
    assert v.state == s.state && Low(FIN_WAIT_1) != ESTABLISHED && Low(FIN_WAIT_2) != ESTABLISHED;
    AckPut(s, now);
    hide Low, SendSegment, Fire;
    assert SetState(v, CLOSE_WAIT, now) == Put(v, CLOSE_WAIT, now);
  }

  lemma AckPut(s: Sock, now: nat)
    ensures Put(SendSegment(s.(remoteSeq := Add32(s.remoteSeq, 1)), ACK, []), CLOSE_WAIT, now) ==
            SendSegment(Put(s, CLOSE_WAIT, now).(remoteSeq := Add32(s.remoteSeq, 1)), ACK, [])
  {
  }

  lemma DataKeeps(s: Sock, b: Sock, ba: nat, bb: nat, g: Segment, x: Arrival, now: nat)
    requires Inv(s, b, ba, bb) && Bounded(b) && Bounded(s) && Clean(s.script) && Brings(g, x)
    requires Low(s.state) == ESTABLISHED && g in b.out && !Has(g.opt, RST) && Has(g.opt, ACK)
    requires g.payload != [] && g.seqNo == s.remoteSeq
    ensures var r := HandleEstablished(s, x, now); Bounded(r) ==> Inv(r, b, ba, bb)
  {
    TakenIsNext(s, b, ba, bb, g);
    TakeDataKeeps(s, b, ba, bb, g, x, now);
    var t := TakeData(s, x, now);
    if x.ackNo == s.localSeq && Awaiting(s.state) {
      AckedIsAccepted(s, b, ba, bb, g);
      assert s.state != ESTABLISHED;
      hide Inv, TakeData, Has, Low, Awaiting, Fire;
      ClearKeeps(t, b, ba, bb, now);
    }
  }

  lemma FinKeeps(s: Sock, b: Sock, ba: nat, bb: nat, g: Segment, x: Arrival, now: nat)
    requires Inv(s, b, ba, bb) && Bounded(s) && Clean(s.script) && Brings(g, x)
    requires Low(s.state) == ESTABLISHED && g in b.out && g.payload == [] && Has(g.opt, FIN)
    ensures var t := if PayloadSize(x) > 0 then TakeData(s, x, now) else s;
      var u := TakeFin(t, x, now);
      && (Bounded(u) ==> Inv(u, b, ba, bb))
      && (Bounded(Fire(u.(state := Low(u.state)), now)) ==> Inv(Fire(u.(state := Low(u.state)), now), b, ba, bb))
  {
    assert SegOk(g, bb, b.sent, b.lastDataLength);
    FinArrives(s, g, x, now);
    FinTakenKeeps(s, b, ba, bb, g, Add32(s.remoteSeq, 1), now);
    var p := SendSegment(Put(s, CLOSE_WAIT, now).(remoteSeq := Add32(s.remoteSeq, 1)), ACK, []);
    FinIsQuiet(s, now);
    var u := Fire(p, now);
    hide Inv, Has, TakeData, TakeFin, SendSegment, Fire;
    CallbacksKept(p, b, ba, bb, now);
    EndedLow(u.state);
    hide Low, Phase;
    ClearKeeps(u, b, ba, bb, now);
  }

  lemma FinIsQuiet(s: Sock, now: nat)
    ensures var p := SendSegment(Put(s, CLOSE_WAIT, now).(remoteSeq := Add32(s.remoteSeq, 1)), ACK, []);
      p.script == s.script && p.sent == s.sent && p.state == CLOSE_WAIT && Ended(CLOSE_WAIT)
  {
  }

  lemma EndedLow(state: bv8)
    requires Ended(state)
    ensures Low(state) == state && state != ESTABLISHED
  {
  }

  lemma EstablishedKeeps(s: Sock, b: Sock, ba: nat, bb: nat, g: Segment, x: Arrival, now: nat)
    requires Inv(s, b, ba, bb) && Bounded(b) && Bounded(s) && Clean(s.script) && Brings(g, x)
    requires Low(s.state) == ESTABLISHED && g in b.out && !Has(g.opt, RST)
    ensures var r := HandleEstablished(s, x, now); Bounded(r) ==> Inv(r, b, ba, bb)
  {
    AckKeeps(s, b, ba, bb);
    if Has(g.opt, ACK) && g.seqNo == s.remoteSeq {
      if g.payload != [] {
        DataKeeps(s, b, ba, bb, g, x, now);
      } else if Has(g.opt, FIN) {
        hide Inv, TakeData, TakeFin, Fire, Has, Low, Awaiting;
        FinKeeps(s, b, ba, bb, g, x, now);
      } else {
        EmptyKeeps(s, b, ba, bb, g, x, now);
      }
    }
  }

  /** A segment without data and FIN: at most an acknowledgement. */
  lemma EmptyKeeps(s: Sock, b: Sock, ba: nat, bb: nat, g: Segment, x: Arrival, now: nat)
    requires Inv(s, b, ba, bb) && Bounded(b) && Bounded(s) && Clean(s.script) && Brings(g, x)
    requires Low(s.state) == ESTABLISHED && g in b.out && !Has(g.opt, RST) && Has(g.opt, ACK)
    requires g.payload == [] && !Has(g.opt, FIN) && g.seqNo == s.remoteSeq
    ensures var r := HandleEstablished(s, x, now); Bounded(r) ==> Inv(r, b, ba, bb)
  {
    AckKeeps(s, b, ba, bb);
    if x.ackNo == s.localSeq {
      AckedIsAccepted(s, b, ba, bb, g);
    }
    assert x.recv == [];
    EmptyTaken(s, x, now);
    var t := if PayloadSize(x) > 0 then SendSegment(s, ACK, []) else s;
    AckIsQuiet(s);
    hide Inv, TakeData, Has, Low, Awaiting, Fire, SendSegment;
    if x.ackNo == s.localSeq {
      ClearKeeps(t, b, ba, bb, now);
    }
  }

  lemma EmptyTaken(s: Sock, x: Arrival, now: nat)
    requires x.recv == [] && !Has(x.opt, FIN)
    ensures TakeData(s, x, now) == SendSegment(s, ACK, [])
  {
  }

  lemma RefusedKeeps(s: Sock, b: Sock, ba: nat, bb: nat, x: Arrival, now: nat)
    requires Inv(s, b, ba, bb) && Clean(s.script)
    ensures var r := Refused(s, x, now); Bounded(r) ==> Inv(r, b, ba, bb)
  {
    CallbacksKept(s, b, ba, bb, now);
    AckKeeps(s, b, ba, bb);
    hide Inv, Fire, Reset, Abandon, SendSegment, Has, Phase;
  }

  lemma AcknowledgedKeeps(s: Sock, b: Sock, ba: nat, bb: nat, now: nat)
    requires Inv(s, b, ba, bb) && Clean(s.script)
    ensures var r := Acknowledged(s, now); Bounded(r) ==> Inv(r, b, ba, bb)
  {
    CallbacksKept(s, b, ba, bb, now);
    PutKeeps(s, b, ba, bb, FIN_WAIT_2, now);
    PutKeeps(s, b, ba, bb, TIME_WAIT, now);
    assert SetState(s, FIN_WAIT_2, now) == Put(s, FIN_WAIT_2, now);
    assert SetState(s, TIME_WAIT, now) == Put(s, TIME_WAIT, now);
    assert s.state != SYN_RECEIVED;
    hide Inv, SetState, Abandon, Put, Phase;
  }

  lemma ArrivalKeeps(s0: Sock, b: Sock, ba: nat, bb: nat, g: Segment, x: Arrival, now: nat)
    requires Inv(s0, b, ba, bb) && Bounded(b) && Bounded(s0) && Clean(s0.script) && g in b.out && Brings(g, x)
    requires !(s0.state == LISTEN && x.opt == SYN)
    ensures var r := HandleSegment(s0, x, now); Bounded(r) ==> Inv(r, b, ba, bb)
  {
    var s := s0.(remoteWindow := x.window);
    OthersKeep(s0, s, b, ba, bb);
    assert s.state != SYN_SENT;
    hide Inv, Phase, Refused, Acknowledged, HandleEstablished, DoForceClose;
    if Unacceptable(s, x) {
      RefusedKeeps(s, b, ba, bb, x, now);
    } else {
      hide Unacceptable;
      if Low(s.state) == ESTABLISHED {
        EstablishedKeeps(s, b, ba, bb, g, x, now);
      } else {
        AcknowledgedKeeps(s, b, ba, bb, now);
        CallbacksKept(s, b, ba, bb, now);
      }
    }
  }

  lemma ResendsFin(s: Sock, now: nat)
    requires s.state == FIN_WAIT_1 || s.state == CLOSING
    ensures Resend(s, now) ==
      Emit(s, Segment(FIN | ACK, Sub32(s.localSeq, 1), s.remoteSeq, s.window, s.staleWords, []))
      .(localSeq := Add32(Sub32(s.localSeq, 1), 1))
  {
    assert !Has(FIN | ACK, RST) && !Has(FIN | ACK, SYN) && Has(FIN | ACK, FIN);
    hide Has;
  }

  lemma ResendsKeep(s: Sock, b: Sock, ba: nat, bb: nat, now: nat)
    requires Inv(s, b, ba, bb) && Retries(s.state)
    ensures Inv(Resend(s, now), b, ba, bb)
  {
    assert s.state != SYN_SENT && s.state != SYN_RECEIVED;
    if s.state == ESTABLISHED | AWAITING_ACK {
      ResendKeeps(s, b, ba, bb);
      assert s.lastDataLength <= |s.stash|;
      hide Inv, ResendData, DoForceClose;
    } else {
      assert Ended(s.state);
      ResendsFin(s, now);
      FinSent(s, b, ba, bb, Sub32(s.localSeq, 1), Add32(Sub32(s.localSeq, 1), 1));
    }
  }

  lemma RetryKeeps(s: Sock, b: Sock, ba: nat, bb: nat, elapsed: nat, now: nat)
    requires Inv(s, b, ba, bb) && Clean(s.script)
    ensures var r := Retry(s, elapsed, now); Bounded(r) ==> Inv(r, b, ba, bb)
  {
    var t := s.(attempts := (s.attempts + 1) % 256);
    hide Inv, Phase, DoForceClose, Abandon, Resend, Retries;
    if Retries(s.state) {
      SamePhase(s, b, ba, bb);
      OthersKeep(s, t, b, ba, bb);
      CallbacksKept(t, b, ba, bb, now);
      ResendsKeep(t, b, ba, bb, now);
    } else {
      CallbacksKept(s, b, ba, bb, now);
    }
  }

  lemma SamePhase(s: Sock, b: Sock, ba: nat, bb: nat)
    requires Inv(s, b, ba, bb)
    ensures s.staleWords >= 5
  {
  }

  lemma TickKeeps(s: Sock, b: Sock, ba: nat, bb: nat, now: nat)
    requires Inv(s, b, ba, bb) && Clean(s.script) && Bounded(s)
    ensures var r := CheckState(s, now); Bounded(r) ==> Inv(r, b, ba, bb)
  {
    var elapsed := Sub32(now, s.stateTime);
    if s.state == CLOSED || s.state == LISTEN {
    } else if s.timeout > 0 && elapsed > s.timeout {
      if LocalClosed(s) {
        assert s.state != ESTABLISHED;
        hide Inv, Phase, DoForceClose, Retry;
        CallbacksKept(s, b, ba, bb, now);
        RetryKeeps(DoForceClose(s, now), b, ba, bb, elapsed, now);
      } else {
        hide Inv, DoClose;
        CloseKept(s, b, ba, bb, now);
      }
    } else {
      hide Inv, Retry;
      RetryKeeps(s, b, ba, bb, elapsed, now);
    }
  }

  lemma StepKeeps(a: Sock, b: Sock, ba: nat, bb: nat, e: Event)
    requires Inv(a, b, ba, bb) && Bounded(a) && Bounded(b) && Allowed(e, a, b)
    ensures Bounded(Step(a, e)) ==> Inv(Step(a, e), b, ba, bb)
  {
    var s := a.(script := e.script, window := e.window);
    SamePhase(a, b, ba, bb);
    OthersKeep(a, s, b, ba, bb);
    hide Inv, HandleSegment, CheckState, DoForceClose, DoClose, DoSend;
    match e.act
    case Tick => TickKeeps(s, b, ba, bb, e.now);
    case Arrive(x) =>
      if x.valid {
        var g :| g in b.out && Brings(g, x);
        ArrivalKeeps(s, b, ba, bb, g, x, e.now);
      } else {
        DamagedKeeps(s, b, ba, bb, x, e.now);
      }
    case Api(Send(data)) => SendKeeps(s, b, ba, bb, data, e.now);
    case Api(Close) => CloseKept(s, b, ba, bb, e.now);
    case Api(ForceClose) => CallbacksKept(s, b, ba, bb, e.now);
    case Api(OtherWrite(words)) =>
      assert e.act.call in [e.act.call];
      OthersKeep(s, Overwritten(s, words), b, ba, bb);
    case Api(Done(_, _)) =>
  }

  lemma DamagedKeeps(s: Sock, b: Sock, ba: nat, bb: nat, x: Arrival, now: nat)
    requires Inv(s, b, ba, bb) && !x.valid
    ensures Inv(HandleSegment(s, x, now), b, ba, bb)
  {
    SamePhase(s, b, ba, bb);
    OthersKeep(s, s.(remoteWindow := x.window), b, ba, bb);
    hide Inv;
  }

  /** The two sides of the invariant are alike. */
  lemma Mirrored(a: Sock, b: Sock, ba: nat, bb: nat)
    requires Inv(a, b, ba, bb)
    ensures Inv(b, a, bb, ba)
  {
  }

  lemma StartKeeps(p: Pair)
    requires Agreed(p)
    ensures Inv(p.a, p.b, p.a.localSeq, p.b.localSeq)
  {
    assert Low(ESTABLISHED) == ESTABLISHED;
    OpeningOuts(p.a, p.b.localSeq);
    OpeningOuts(p.b, p.a.localSeq);
    hide Outs;
    assert Half(p.a, p.b, p.a.localSeq) && Half(p.b, p.a, p.b.localSeq);
  }

  lemma OpeningOuts(s: Sock, peerBase: nat)
    requires Fresh(s) && s.remoteSeq == peerBase < MOD32
    ensures NoFin(s) && forall open: bool :: Outs(s, s.localSeq, peerBase, open)
  {
    forall g | g in s.out ensures SegOk(g, s.localSeq, [], 0) && AckOk(g, peerBase, 0) {
      assert FromOpening(g, peerBase);
      assert Add32(peerBase, 0) == peerBase;
    }
  }

  lemma {:induction false} RunKeeps(p: Pair, ms: seq<Move>)
    requires Agreed(p) && Legal(p, ms)
    ensures var q := Final(p, ms);
      Bounded(q.a) && Bounded(q.b) && Inv(q.a, q.b, p.a.localSeq, p.b.localSeq)
  {
    hide Inv, Step, Allowed;
    if ms == [] {
      StartKeeps(p);
    } else {
      var q, m := Final(p, ms[..|ms| - 1]), ms[|ms| - 1];
      RunKeeps(p, ms[..|ms| - 1]);
      if m.atA {
        StepKeeps(q.a, q.b, p.a.localSeq, p.b.localSeq, m.e);
      } else {
        Mirrored(q.a, q.b, p.a.localSeq, p.b.localSeq);
        StepKeeps(q.b, q.a, p.b.localSeq, p.a.localSeq, m.e);
        Mirrored(Step(q.b, m.e), q.a, p.b.localSeq, p.a.localSeq);
      }
    }
  }

  // ---------------------------------------------------------- the theorems

  /** In every reachable state each side has accepted a prefix of what the other
      side sent: no gap, no repeat, no reordering, in both directions at once. */
  lemma StreamIsPrefix(p: Pair, ms: seq<Move>)
    requires Agreed(p) && Legal(p, ms)
    ensures Final(p, ms).b.accepted <= Final(p, ms).a.sent
    ensures Final(p, ms).a.accepted <= Final(p, ms).b.sent
  {
    RunKeeps(p, ms);
  }

  /** The peer expects the next new byte or the first byte in flight. */
  ghost predicate InStep(x: Sock, y: Sock) {
    || (y.remoteSeq == x.localSeq && y.accepted == x.sent)
    || (y.remoteSeq == Sub32(x.localSeq, x.lastDataLength) && |y.accepted| + x.lastDataLength == |x.sent|)
  }

  /** As long as a side has not sent a FIN the other is in step with it. */
  lemma PeersStayInStep(p: Pair, ms: seq<Move>)
    requires Agreed(p) && Legal(p, ms)
    ensures var q := Final(p, ms);
      (NoFin(q.a) ==> InStep(q.a, q.b)) && (NoFin(q.b) ==> InStep(q.b, q.a))
  {
    RunKeeps(p, ms);
    var q := Final(p, ms);
    HalfInStep(q.a, q.b, p.a.localSeq);
    HalfInStep(q.b, q.a, p.b.localSeq);
  }

  lemma HalfInStep(x: Sock, y: Sock, base: nat)
    requires Half(x, y, base)
    ensures NoFin(x) ==> InStep(x, y)
  {
    Rewind(base, |x.sent|, x.lastDataLength);
  }

  /** A socket that is established and not awaiting an ACK knows that the peer's
      application has accepted every byte sent so far. */
  lemma QuietMeansAccepted(p: Pair, ms: seq<Move>)
    requires Agreed(p) && Legal(p, ms)
    ensures ReadyToSend(Final(p, ms).a) ==> Final(p, ms).b.accepted == Final(p, ms).a.sent
    ensures ReadyToSend(Final(p, ms).b) ==> Final(p, ms).a.accepted == Final(p, ms).b.sent
  {
    RunKeeps(p, ms);
  }
}
