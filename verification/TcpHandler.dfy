/** TCPHandler: one outbound buffer cut into a stash for each socket, and a timer that drives
    all the sockets, which share that buffer and one send buffer. */
module TcpHandler {
  import opened Words
  import opened Buffers
  import opened TcpWire
  import opened SegmentIO
  import opened Sockets
  import opened SocketShared
  import M = SocketModel

  // -------------------------------------------------------------- the slices

  /** The size of each socket's stash, in the 16-bit arithmetic of the constructor. */
  function MaxOutbound(stashSize: nat, ipPayloadSize: nat, capacity: nat): nat
    requires capacity >= 1
  {
    var s := (ipPayloadSize - TCP_HEADER) % MOD16;
    (if stashSize > s then s else stashSize) / capacity
  }

  /** Slot i of a buffer of the given size; a length of 0 means everything. */
  function Slot(i: nat, m: nat, size: nat): (nat, nat) { (Base(i, m), if m == 0 then size else m) }

  predicate Apart(x: (nat, nat), y: (nat, nat)) { x.0 + x.1 <= y.0 || y.0 + y.1 <= x.0 }

  lemma SlotsFit(stashSize: nat, ipPayloadSize: nat, capacity: nat)
    requires capacity >= 1
    ensures capacity * MaxOutbound(stashSize, ipPayloadSize, capacity) <= stashSize
  {
    var s := (ipPayloadSize - TCP_HEADER) % MOD16;
    var t := if stashSize > s then s else stashSize;
    assert capacity * (t / capacity) == t - t % capacity;
  }

  /** A stash is as large as it can be with all of them in the outbound buffer and, together with
      one header, in an IP packet. */
  lemma LargestStash(stashSize: nat, ipPayloadSize: nat, capacity: nat, n: nat)
    requires capacity >= 1 && 20 <= ipPayloadSize < MOD16
    ensures n <= MaxOutbound(stashSize, ipPayloadSize, capacity) <==>
              capacity * n <= stashSize && 20 + capacity * n <= ipPayloadSize
  {
    var t := if stashSize > ipPayloadSize - 20 then ipPayloadSize - 20 else stashSize;
    DividedIff(t, capacity, n);
  }

  lemma DividedIff(t: nat, c: nat, n: nat)
    requires c >= 1
    ensures n <= t / c <==> c * n <= t
  {
    var q := t / c;
    assert c * q <= t < c * (q + 1);
    if n <= q {
      assert c * n <= c * q;
    } else {
      assert c * n >= c * (q + 1);
    }
  }

  /** The slots of different sockets are disjoint exactly when each is at least one byte long. */
  lemma SlotsApartIff(stashSize: nat, ipPayloadSize: nat, capacity: nat, i: nat, j: nat)
    requires i < j < capacity && stashSize >= 1
    ensures var m := MaxOutbound(stashSize, ipPayloadSize, capacity);
      Apart(Slot(i, m, stashSize), Slot(j, m, stashSize)) <==> m >= 1
  {
    var m := MaxOutbound(stashSize, ipPayloadSize, capacity);
    SlotsFit(stashSize, ipPayloadSize, capacity);
    SlicesApart(i, j, capacity, m, stashSize);
  }

  ghost predicate IsSlot(v: OffsetBuffer, outbound: MemBuffer, i: nat, m: nat)
    reads v, v.Repr
  {
    v.Valid() && v.root == outbound && (v.base, v.length) == Slot(i, m, outbound.bytes.Length)
  }

  method CutSlot(outbound: MemBuffer, i: nat, m: nat) returns (v: OffsetBuffer)
    requires outbound.bytes.Length < MOD16 && Base(i, m) + m <= outbound.bytes.Length
    ensures IsSlot(v, outbound, i, m) && fresh(v)
  {
    v := new OffsetBuffer(Mem(outbound), i * m, m);
  }

  /** The constructor's loop: a view for each slot. */
  method Partition(outbound: MemBuffer, ipPayloadSize: nat, capacity: nat) returns (m: nat, slots: seq<OffsetBuffer>)
    requires capacity >= 1 && outbound.bytes.Length < MOD16
    ensures m == MaxOutbound(outbound.bytes.Length, ipPayloadSize, capacity) && |slots| == capacity
    ensures forall i :: 0 <= i < capacity ==> IsSlot(slots[i], outbound, i, m)
  {
    hide IsSlot, MaxOutbound, Base;
    m := StashSize(outbound.bytes.Length, ipPayloadSize, capacity);
    SlotsFit(outbound.bytes.Length, ipPayloadSize, capacity);
    slots := [];
    for i := 0 to capacity
      invariant |slots| == i
      invariant forall k :: 0 <= k < i ==> IsSlot(slots[k], outbound, k, m)
    {
      SlicesApart(i, i, capacity, m, outbound.bytes.Length);
      var v := CutSlot(outbound, i, m);
      slots := slots + [v];
    }
  }

  method StashSize(stashSize: nat, ipPayloadSize: nat, capacity: nat) returns (m: nat)
    requires capacity >= 1
    ensures m == MaxOutbound(stashSize, ipPayloadSize, capacity)
  {
    var size := stashSize;
    var s := (ipPayloadSize - TCP_HEADER) % MOD16;
    if size > s {
      size := s;
    }
    m := size / capacity;
  }

  // -------------------------------------------------------- sockets together

  function WithWords(s: M.Sock, words: M.nibble): M.Sock { s.(staleWords := words) }

  /** A memory without the given range. */
  function Around(m: seq<byte>, at: nat, len: nat): (seq<byte>, seq<byte>) {
    if at + len <= |m| then (m[..at], m[at + len..]) else (m, m)
  }

  lemma OutsideIs(v: OffsetBuffer, outbound: MemBuffer)
    requires v.Valid() && v.root == outbound
    ensures Outside(v) == Around(outbound.bytes[..], v.base, v.length) && v.base + v.length <= outbound.bytes.Length
  {
  }

  lemma SliceKept(m: seq<byte>, n: seq<byte>, at: nat, len: nat, other: nat, size: nat)
    requires |m| == |n| && at + len <= |m| && other + size <= |m| && Apart((at, len), (other, size))
    requires Around(m, at, len) == Around(n, at, len)
    ensures m[other..other + size] == n[other..other + size]
  {
    if other + size <= at {
      assert m[other..other + size] == m[..at][other..other + size] == n[..at][other..other + size];
    } else {
      var d := other - (at + len);
      assert m[other..other + size] == m[at + len..][d..d + size] == n[at + len..][d..d + size];
    }
  }

  /** The table of sockets: each has the slice of its slot, and all one send buffer.  `views`
      are the views they use. */
  ghost predicate Team(socks: seq<Socket?>, tx: OffsetBuffer, outbound: MemBuffer, m: nat, views: set<OffsetBuffer>)
    reads views
  {
    && (forall i :: 0 <= i < |socks| && socks[i] != null ==> Member(socks[i], tx, outbound, i, m, views))
    && (forall i, j :: 0 <= i < j < |socks| && socks[i] != null ==> socks[i] != socks[j])
  }

  ghost predicate Member(s: Socket, tx: OffsetBuffer, outbound: MemBuffer, i: nat, m: nat, views: set<OffsetBuffer>)
    reads views
  {
    && s.tx in views && s.tx.Repr <= views && s.sendBuffer in views && s.sendBuffer.Repr <= views
    && s.stash in views && s.stash.Repr <= views
    && s.Valid() && s.tx == tx && s.stash.root == outbound && s.stash.base == Base(i, m) && s.stash.length == m
  }

  /** A socket is what the hub says it is. */
  ghost predicate MirrorOf(s: Socket, h: Hub, i: nat)
    reads s, s.tx, s.tx.Repr, s.tx.root.bytes, s.sendBuffer, s.sendBuffer.Repr
    reads s.stash, s.stash.Repr, s.stash.root.bytes
  {
    s.Valid() && Fits(h) && i < |h.socks| && s.Value() == Load(h, i)
  }

  lemma HubStepLoads(h: Hub, k: nat, e: M.Event, i: nat)
    requires Shared(h) && k < |h.socks| && i < |h.socks|
    ensures |HubStep(h, Turn(k, e)).socks| == |h.socks|
    ensures Fits(h) && Fits(HubStep(h, Turn(k, e)))
    ensures var s := M.Step(Load(h, k), e);
      Load(HubStep(h, Turn(k, e)), i) == if i == k then s else WithWords(Load(h, i), s.staleWords)
  {
    StepHolds(Load(h, k), e, h.size);
    StoredLoads(h, k, M.Step(Load(h, k), e), i);
  }

  lemma SlotsApart(socks: seq<Socket?>, tx: OffsetBuffer, outbound: MemBuffer, m: nat, views: set<OffsetBuffer>,
                   i: nat, j: nat)
    requires Team(socks, tx, outbound, m, views) && i < |socks| && j < |socks| && i != j
    requires socks[i] != null && socks[j] != null
    ensures socks[i] != socks[j] && socks[i].Valid() && socks[j].Valid() && socks[i].tx == socks[j].tx == tx
    ensures socks[i].stash.root == socks[j].stash.root == outbound
    ensures var a, b := socks[i].stash, socks[j].stash; Apart((a.base, a.length), (b.base, b.length))
  {
    TeamMember(socks, tx, outbound, m, views, i);
    TeamMember(socks, tx, outbound, m, views, j);
    SlicesApart(i, j, |socks|, m, |socks| * m);
  }

  lemma TeamMember(socks: seq<Socket?>, tx: OffsetBuffer, outbound: MemBuffer, m: nat, views: set<OffsetBuffer>,
                   i: nat)
    requires Team(socks, tx, outbound, m, views) && i < |socks| && socks[i] != null
    ensures Member(socks[i], tx, outbound, i, m, views) && socks[i].Valid() && socks[i].tx == tx
    ensures socks[i].stash.root == outbound && socks[i].stash.length == m
  {
  }

  /** A socket's own fields, apart from what it finds in the shared buffers. */
  ghost function Fields(b: Socket): M.Sock
    reads b
  {
    M.Sock(b.host, b.timeout, b.state, b.localSeq, b.remoteSeq, b.remoteMSS, b.remoteWindow, b.stateTime, b.attempts,
           b.lastDataLength, [], 0, b.script, b.accept, b.window, b.out, b.sent, b.accepted, b.edges)
  }

  function Finding(fields: M.Sock, mem: seq<byte>, base: nat, length: nat, words: M.nibble): M.Sock
    requires base + length <= |mem|
  {
    fields.(stash := mem[base..base + length], staleWords := words)
  }

  lemma SocketStash(b: Socket)
    requires b.Valid()
    ensures b.stash.Valid()
  {
  }

  lemma ValueParts(b: Socket, outbound: MemBuffer)
    requires b.Valid() && b.stash.root == outbound
    ensures b.stash.base + b.stash.length <= |outbound.bytes[..]|
    ensures b.Value() == Finding(Fields(b), outbound.bytes[..], b.stash.base, b.stash.length, b.Value().staleWords)
  {
  }

  /** When memory has changed only inside the slice a, a socket with another slice finds what
      it found before. */
  lemma NeighbourKept(a: OffsetBuffer, b: Socket, outbound: MemBuffer, was: seq<byte>, v: M.Sock)
    requires b.Valid() && b.stash.root == outbound && |was| == outbound.bytes.Length && a.base + a.length <= |was|
    requires Apart((a.base, a.length), (b.stash.base, b.stash.length))
    requires Around(was, a.base, a.length) == Around(outbound.bytes[..], a.base, a.length)
    requires b.stash.base + b.stash.length <= |was|
    requires v == Finding(Fields(b), was, b.stash.base, b.stash.length, v.staleWords)
    ensures b.Value() == WithWords(v, b.Value().staleWords)
  {
    hide Fields, Around, Socket.Valid, Socket.Value;
    ValueParts(b, outbound);
    SliceKept(was, outbound.bytes[..], a.base, a.length, b.stash.base, b.stash.length);
  }

  /** checkState of one socket.  What another finds in the shared buffers is as it was, but
      for byte 12 of the send buffer. */
  method Check(socks: seq<Socket?>, ghost tx: OffsetBuffer, ghost outbound: MemBuffer, ghost m: nat,
               ghost views: set<OffsetBuffer>, k: nat, now: nat)
    requires Team(socks, tx, outbound, m, views) && k < |socks| && socks[k] != null && Holds(socks[k].Value(), m)
    modifies socks[k], tx.root.bytes, outbound.bytes
    ensures Team(socks, tx, outbound, m, views)
    ensures socks[k].Value() == M.CheckState(old(socks[k].Value()), now)
    ensures forall i :: 0 <= i < |socks| && i != k && socks[i] != null ==>
      socks[i].Value() == WithWords(old(socks[i].Value()), socks[k].Value().staleWords)
  {
    hide OffsetBuffer.Valid, Holds, M.CheckState, Team, Member, Socket.Valid, Socket.Value;
    hide Fields, Finding, Outside, Around;
    TeamMember(socks, tx, outbound, m, views, k);
    SocketStash(socks[k]);
    OutsideIs(socks[k].stash, outbound);
    ghost var was := outbound.bytes[..];
    forall i | 0 <= i < |socks| && i != k && socks[i] != null
      ensures socks[i].Valid() && socks[i].stash.root == outbound
      ensures socks[i].stash.base + socks[i].stash.length <= |was|
      ensures socks[i].Value() ==
        Finding(Fields(socks[i]), was, socks[i].stash.base, socks[i].stash.length, socks[i].Value().staleWords)
    {
      TeamMember(socks, tx, outbound, m, views, i);
      ValueParts(socks[i], outbound);
    }
    socks[k].CheckState(now);
    OutsideIs(socks[k].stash, outbound);
    forall i | 0 <= i < |socks| && i != k && socks[i] != null
      ensures socks[i].Value() == WithWords(old(socks[i].Value()), socks[k].Value().staleWords)
    {
      SlotsApart(socks, tx, outbound, m, views, k, i);
      NeighbourKept(socks[k].stash, socks[i], outbound, was, old(socks[i].Value()));
    }
  }

  /** The tick of the timer as socket k takes it. */
  function TickOf(s: M.Sock, k: nat, now: nat): Turn { Turn(k, M.Event(M.Tick, s.script, s.window, now)) }

  lemma TickIsCheck(s: M.Sock, k: nat, now: nat)
    ensures M.Step(s, TickOf(s, k, now).e) == M.CheckState(s, now)
  {
    assert s.(script := s.script, window := s.window) == s;
  }

  lemma MirrorHolds(s: Socket, h: Hub, i: nat)
    requires MirrorOf(s, h, i) && Shared(h)
    ensures Holds(s.Value(), h.size)
  {
  }

  /** One turn of handleTimer's loop is one step of the hub. */
  method CheckMirrored(socks: seq<Socket?>, ghost tx: OffsetBuffer, ghost outbound: MemBuffer,
                       ghost views: set<OffsetBuffer>, k: nat, now: nat, ghost h: Hub)
      returns (ghost t: Turn)
    requires Team(socks, tx, outbound, h.size, views) && k < |socks| == |h.socks| && socks[k] != null && Shared(h)
    requires forall i :: 0 <= i < |socks| && socks[i] != null ==> MirrorOf(socks[i], h, i)
    modifies socks[k], tx.root.bytes, outbound.bytes
    ensures Team(socks, tx, outbound, h.size, views)
    ensures t.i == k && t.e.act == M.Tick && t.e.now == now
    ensures forall i :: 0 <= i < |socks| && socks[i] != null ==> MirrorOf(socks[i], HubStep(h, t), i)
  {
    hide M.CheckState, M.Step, Member, Socket.Valid, Socket.Value, HubStep, Load, Shared, Holds, Team;
    assert MirrorOf(socks[k], h, k);
    MirrorHolds(socks[k], h, k);
    t := TickOf(socks[k].Value(), k, now);
    TickIsCheck(socks[k].Value(), k, now);
    Check(socks, tx, outbound, h.size, views, k, now);
    forall i | 0 <= i < |socks| && socks[i] != null ensures MirrorOf(socks[i], HubStep(h, t), i) {
      assert old(MirrorOf(socks[i], h, i));
      TeamMember(socks, tx, outbound, h.size, views, i);
      HubStepLoads(h, k, t.e, i);
    }
  }

  /** The turns of a tick: every socket in the table takes it once, in slot order. */
  ghost predicate TickTurns(socks: seq<Socket?>, n: nat, ts: seq<Turn>, now: nat)
    requires n <= |socks|
  {
    && (forall k :: 0 <= k < |ts| ==>
          ts[k].i < n && socks[ts[k].i] != null && ts[k].e.act == M.Tick && ts[k].e.now == now)
    && (forall j, k :: 0 <= j < k < |ts| ==> ts[j].i < ts[k].i)
    && (forall i :: 0 <= i < n && socks[i] != null ==> exists k :: 0 <= k < |ts| && ts[k].i == i)
  }

  lemma NextTurn(socks: seq<Socket?>, n: nat, ts: seq<Turn>, t: Turn, now: nat)
    requires n < |socks| && TickTurns(socks, n, ts, now)
    ensures socks[n] == null ==> TickTurns(socks, n + 1, ts, now)
    ensures socks[n] != null && t.i == n && t.e.act == M.Tick && t.e.now == now ==>
              TickTurns(socks, n + 1, ts + [t], now)
  {
    if socks[n] != null && t.i == n && t.e.act == M.Tick && t.e.now == now {
      var us := ts + [t];
      forall i | 0 <= i <= n && socks[i] != null ensures exists k :: 0 <= k < |us| && us[k].i == i {
        if i < n {
          var k :| 0 <= k < |ts| && ts[k].i == i;
          assert us[k].i == i;
        } else {
          assert us[|ts|].i == i;
        }
      }
    }
  }

  lemma NoTurns(socks: seq<Socket?>, h: Hub, now: nat)
    requires Shared(h)
    ensures TickTurns(socks, 0, [], now) && Turns(h, []) && After(h, []) == h
  {
    hide Shared;
  }

  /** One turn of handleTimer's loop, in a run that has come to ts. */
  method TakeTurn(socks: seq<Socket?>, ghost tx: OffsetBuffer, ghost outbound: MemBuffer,
                  ghost views: set<OffsetBuffer>, k: nat, now: nat, ghost h: Hub, ghost ts: seq<Turn>)
      returns (ghost us: seq<Turn>)
    requires Team(socks, tx, outbound, h.size, views) && k < |socks| == |h.socks| && socks[k] != null && Shared(h)
    requires Turns(h, ts) && TickTurns(socks, k, ts, now)
    requires forall i :: 0 <= i < |socks| && socks[i] != null ==> MirrorOf(socks[i], After(h, ts), i)
    modifies socks[k], tx.root.bytes, outbound.bytes
    ensures Team(socks, tx, outbound, h.size, views) && Turns(h, us) && TickTurns(socks, k + 1, us, now)
    ensures forall i :: 0 <= i < |socks| && socks[i] != null ==> MirrorOf(socks[i], After(h, us), i)
  {
    hide Member, Socket.Valid, Socket.Value, Load, Shared, Holds, Team, MirrorOf, HubStep, After, TickTurns, Turns;
    ghost var t := CheckMirrored(socks, tx, outbound, views, k, now, After(h, ts));
    AfterMore(h, ts, t);
    NextTurn(socks, k, ts, t, now);
    us := ts + [t];
  }

  /** handleTimer: every socket in the table takes the tick, in slot order, and what the objects
      have become is what a run of the hub makes of them; all that is proved of hubs holds of
      them.  Slots may be empty. */
  method HandleTimer(socks: seq<Socket?>, ghost tx: OffsetBuffer, ghost outbound: MemBuffer,
                     ghost views: set<OffsetBuffer>, now: nat, ghost h: Hub)
      returns (ghost ts: seq<Turn>)
    requires Team(socks, tx, outbound, h.size, views) && |socks| == |h.socks| && Shared(h)
    requires forall i :: 0 <= i < |socks| && socks[i] != null ==> MirrorOf(socks[i], h, i)
    modifies set s <- socks | s != null :: s, tx.root.bytes, outbound.bytes
    ensures Team(socks, tx, outbound, h.size, views) && TickTurns(socks, |socks|, ts, now) && Turns(h, ts)
    ensures forall i :: 0 <= i < |socks| && socks[i] != null ==> MirrorOf(socks[i], After(h, ts), i)
  {
    hide Member, Socket.Valid, Socket.Value, Load, Shared, Holds, Team, MirrorOf, HubStep, After, TickTurns, Turns;
    NoTurns(socks, h, now);
    ts := [];
    for k := 0 to |socks|
      invariant Turns(h, ts)
      invariant Team(socks, tx, outbound, h.size, views) && TickTurns(socks, k, ts, now)
      invariant forall i :: 0 <= i < |socks| && socks[i] != null ==> MirrorOf(socks[i], After(h, ts), i)
    {
      if socks[k] != null {
        assert socks[k] in socks;
        ts := TakeTurn(socks, tx, outbound, views, k, now, h, ts);
      } else {
        NextTurn(socks, k, ts, Turn(k, M.Event(M.Tick, [], 0, now)), now);
      }
    }
  }
}
