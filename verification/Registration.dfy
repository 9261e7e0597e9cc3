/** How a socket and a TCPHandler register each other.  Each side's method calls the other's;
    a socket may be registered from either side. */
module Registration {
  import opened Words
  import opened Timers
  import M = SocketModel

  /** The handler's name in the timer registry. */
  const TCP := 2

  // ------------------------------------------------------------- on values

  /** All that registration looks at and changes: the handler's table and timer, the shared
      timer registry, and the socket's handler, stash slot and state. */
  datatype Link = Link(table: seq<Endpoint?>, timer: nat, registry: Slots,
                       tcp: TCPHandler?, stash: Option<nat>, state: bv8)

  function Find(t: seq<Endpoint?>, e: Endpoint?, i: nat): (k: nat)
    requires i <= |t|
    ensures i <= k <= |t| && (k < |t| ==> t[k] == e) && forall j :: i <= j < k ==> t[j] != e
    decreases |t| - i
  {
    if i == |t| || t[i] == e then i else Find(t, e, i + 1)
  }

  /** The socket takes what the table gives it. */
  function Adopted(e: Endpoint, v: Link): Link {
    var k := Find(v.table, e, 0);
    v.(stash := if k < |v.table| then Some(k) else None, state := if e.host then M.LISTEN else v.state)
  }

  /** The outcome of registering from the handler's side. */
  function ByHandler(e: Endpoint, h: TCPHandler, v: Link): (bool, Link) {
    var free := Find(v.table, null, 0);
    if Find(v.table, e, 0) < |v.table| then (true, v)
    else if free == |v.table| || (v.tcp != null && v.tcp != h) then (false, v)
    else
      var seated := v.(table := v.table[free := e]);
      var linked := if v.tcp == null then Adopted(e, seated.(tcp := h)) else seated;
      if v.timer != 0 then (true, linked)
      else
        var (registry, timer) := Registered(v.registry, TCP);
        if timer == 0 then (false, linked.(table := v.table))
        else (true, linked.(registry := registry, timer := timer))
  }

  /** The outcome of registering from the socket's side. */
  function BySocket(e: Endpoint, h: TCPHandler, v: Link): (bool, Link) {
    if v.tcp != null then (v.tcp == h, v)
    else
      var (ok, w) := ByHandler(e, h, v.(tcp := h));
      if ok then (true, Adopted(e, w)) else (false, w.(tcp := null))
  }

  /** A socket that is not registered anywhere. */
  predicate Loose(e: Endpoint, v: Link) { v.tcp == null && v.stash == None && e !in v.table }

  predicate Full(v: Link) { null !in v.table }

  /** A timer is running, or one can be had. */
  predicate TimerToHave(v: Link) { v.timer != 0 || Occupied(v.registry) < |v.registry| }

  /** Exactly one slot holds the socket, which points back, holds that slot's stash, and
      listens if it is a host; nothing else in the table changed. */
  ghost predicate Joined(e: Endpoint, h: TCPHandler, v: Link, w: Link) {
    exists k :: 0 <= k < |v.table| && v.table[k] == null && w.table == v.table[k := e] && w.stash == Some(k) &&
      w.tcp == h && w.state == (if e.host then M.LISTEN else v.state) && w.timer != 0
  }

  lemma FreeSlotIff(r: Slots)
    ensures Registered(r, TCP).1 != 0 <==> Occupied(r) < |r|
  {
    FullIff(r);
  }

  lemma FindIn(t: seq<Endpoint?>, e: Endpoint?)
    ensures Find(t, e, 0) < |t| <==> e in t
  {
  }

  lemma FindSeated(t: seq<Endpoint?>, k: nat, e: Endpoint)
    requires k < |t| && e !in t
    ensures Find(t[k := e], e, 0) == k
  {
    var u := t[k := e];
    assert u[k] == e && forall j :: 0 <= j < k ==> u[j] == t[j];
  }

  /** From the socket's side: registered completely, or nothing changed. */
  lemma BySocketJoins(e: Endpoint, h: TCPHandler, v: Link)
    requires Loose(e, v)
    ensures var (ok, w) := BySocket(e, h, v);
      ok == (!Full(v) && TimerToHave(v)) && (if ok then Joined(e, h, v, w) else w == v)
  {
    var free := Find(v.table, null, 0);
    FindIn(v.table, e);
    FindIn(v.table, null);
    FreeSlotIff(v.registry);
    if free < |v.table| {
      FindSeated(v.table, free, e);
      assert v.table[free := e][free := null] == v.table;
    }
  }

  /** From the handler's side the same, except when there is room but no timer: then the
      handler reports failure and the socket stays linked to it. */
  lemma ByHandlerJoins(e: Endpoint, h: TCPHandler, v: Link)
    requires Loose(e, v)
    ensures var (ok, w) := ByHandler(e, h, v);
      && ok == (!Full(v) && TimerToHave(v))
      && (ok ==> Joined(e, h, v, w))
      && (!ok ==> w.table == v.table && w.timer == v.timer && w.registry == v.registry)
      && (!ok && Full(v) ==> w == v)
      && (!ok && !Full(v) ==> w.tcp == h && w.stash.Some? && (e.host ==> w.state == M.LISTEN))
  {
    var free := Find(v.table, null, 0);
    FindIn(v.table, e);
    FindIn(v.table, null);
    FreeSlotIff(v.registry);
    if free < |v.table| {
      FindSeated(v.table, free, e);
    }
  }

  /** Exactly when the two entry points come to the same result and the same state. */
  lemma EntryPointsAgreeIff(e: Endpoint, h: TCPHandler, v: Link)
    requires Loose(e, v)
    ensures BySocket(e, h, v) == ByHandler(e, h, v) <==> Full(v) || TimerToHave(v)
  {
    var free := Find(v.table, null, 0);
    FindIn(v.table, e);
    FindIn(v.table, null);
    FreeSlotIff(v.registry);
    if free < |v.table| {
      FindSeated(v.table, free, e);
    }
  }

  /** Registering again, from either side, changes nothing. */
  lemma RegisteringAgain(e: Endpoint, h: TCPHandler, v: Link)
    requires v.tcp == h && e in v.table
    ensures ByHandler(e, h, v) == (true, v) == BySocket(e, h, v)
  {
    FindIn(v.table, e);
  }

  /** A socket that belongs to another handler is refused on both sides, and nothing changes. */
  lemma RegisteredElsewhere(e: Endpoint, h: TCPHandler, v: Link)
    requires v.tcp != null && v.tcp != h && e !in v.table
    ensures BySocket(e, h, v) == (false, v) == ByHandler(e, h, v)
  {
    FindIn(v.table, e);
  }

  /** A socket that was left linked but has no slot: its own side takes it for registered, and the
      handler's side gives it a slot but no stash. */
  lemma LeftLinked(e: Endpoint, h: TCPHandler, v: Link)
    requires v.tcp == h && e !in v.table
    ensures BySocket(e, h, v) == (true, v)
    ensures var (ok, w) := ByHandler(e, h, v);
      && ok == (!Full(v) && TimerToHave(v))
      && w.tcp == v.tcp && w.stash == v.stash && w.state == v.state && (!ok ==> w == v)
      && (ok ==> w.timer != 0 && exists k :: 0 <= k < |v.table| && v.table[k] == null && w.table == v.table[k := e])
  {
    var free := Find(v.table, null, 0);
    FindIn(v.table, e);
    FindIn(v.table, null);
    FreeSlotIff(v.registry);
    if free < |v.table| {
      assert v.table[free := e][free := null] == v.table;
    }
  }

  /** So two registered sockets can have one stash: x is registered when there is no timer, which
      fails; a timer comes free, y is registered, and then x again. */
  lemma TwoShareAStash(x: Endpoint, y: Endpoint, h: TCPHandler, v: Link, registry: Slots, state: bv8)
    requires x != y && Loose(x, v) && y !in v.table && !Full(v) && !TimerToHave(v)
    requires Occupied(registry) < |registry|
    ensures var (failed, w) := ByHandler(x, h, v);
      var (joined, u) := BySocket(y, h, Link(w.table, w.timer, registry, null, None, state));
      && !failed && joined && w.stash.Some? && u.stash == w.stash
      && (!Full(u) ==>
            var (again, r) := ByHandler(x, h, Link(u.table, u.timer, u.registry, w.tcp, w.stash, w.state));
            again && x in r.table && y in r.table && r.stash == u.stash)
  {
    var free := Find(v.table, null, 0);
    FindIn(v.table, x);
    FindIn(v.table, y);
    FindIn(v.table, null);
    FindSeated(v.table, free, x);
    FindSeated(v.table, free, y);
    FreeSlotIff(v.registry);
    FreeSlotIff(registry);
    var w := ByHandler(x, h, v).1;
    var v2 := Link(w.table, w.timer, registry, null, None, state);
    assert w.table == v.table && w.tcp == h && w.stash == Some(free);
    var u := BySocket(y, h, v2).1;
    assert u.table == v.table[free := y] && u.stash == Some(free) && u.timer != 0;
    var v3 := Link(u.table, u.timer, u.registry, w.tcp, w.stash, w.state);
    LeftLinked(x, h, v3);
    if !Full(v3) {
      var r := ByHandler(x, h, v3).1;
      var k :| 0 <= k < |v3.table| && v3.table[k] == null && r.table == v3.table[k := x];
      assert r.table[k] == x && r.table[free] == y;
    }
  }

  // ------------------------------------------------------------ the objects

  /** The fields of a Socket that registration uses. */
  class Endpoint {
    const host: bool
    var tcp: TCPHandler?
    var stash: Option<nat>
    var state: bv8

    constructor (host: bool, state: bv8)
      ensures this.host == host && tcp == null && stash == None && this.state == state
    {
      this.host, this.state := host, state;
      tcp, stash := null, None;
    }

    method RegisterTCPHandler(h: TCPHandler) returns (ok: bool)
      requires h.Valid()
      modifies this, h, h.table, h.registry, h.registry.slots
      ensures h.Valid() && (ok, h.Value(this)) == BySocket(this, h, old(h.Value(this)))
      decreases h.Missing(this)
    {
      if tcp != null {
        return tcp == h;
      }
      tcp := h;
      ok := h.RegisterSocket(this);
      if ok {
        stash := h.GetStash(this);
        if host {
          state := M.LISTEN;
        }
      } else {
        tcp := null;
      }
    }
  }

  class TCPHandler {
    const table: array<Endpoint?>
    const registry: TimerRegistry
    var timerIndex: nat

    constructor (socketCapacity: nat, registry: TimerRegistry)
      requires registry.Valid()
      ensures Valid() && timerIndex == 0 && table.Length == socketCapacity && this.registry == registry
      ensures forall i :: 0 <= i < table.Length ==> table[i] == null
    {
      table := new Endpoint?[socketCapacity](_ => null);
      this.registry := registry;
      timerIndex := 0;
    }

    ghost predicate Valid()
      reads registry, registry.slots
    {
      registry.Valid()
    }

    ghost function Value(e: Endpoint): Link
      reads this, table, registry.slots, e
    {
      Link(table[..], timerIndex, registry.slots[..], e.tcp, e.stash, e.state)
    }

    /** How much of the mutual link is missing: each nested call finds less. */
    ghost function Missing(e: Endpoint): nat
      reads table, e
    {
      (if e.tcp == null then 1 else 0) + (if e in table[..] then 0 else 1)
    }

    method GetStash(e: Endpoint) returns (stash: Option<nat>)
      ensures var k := Find(table[..], e, 0); stash == if k < table.Length then Some(k) else None
    {
      var k := Search(e);
      stash := if k < table.Length then Some(k) else None;
    }

    method Search(e: Endpoint?) returns (k: nat)
      ensures k == Find(table[..], e, 0)
    {
      ghost var t := table[..];
      for i := 0 to table.Length
        invariant Find(t, e, 0) == Find(t, e, i)
      {
        if table[i] == e {
          return i;
        }
      }
      return table.Length;
    }

    method RegisterSocket(e: Endpoint) returns (ok: bool)
      requires Valid()
      modifies this, table, registry, registry.slots, e
      ensures Valid() && (ok, Value(e)) == ByHandler(e, this, old(Value(e)))
      decreases Missing(e)
    {
      var k := Search(e);
      if k < table.Length {
        return true;
      }
      var i := Search(null);
      if i == table.Length {
        return false;
      }
      ghost var t := table[..];
      table[i] := e;
      ok := e.RegisterTCPHandler(this);
      FindSeatedAgain(t, i, e);
      if ok && timerIndex == 0 {
        timerIndex := registry.RegisterTimer(TCP);
        ok := timerIndex != 0;
      }
      if !ok {
        table[i] := null;
        assert table[..] == t;
      }
    }
  }

  lemma FindSeatedAgain(t: seq<Endpoint?>, k: nat, e: Endpoint)
    requires k < |t|
    ensures Find(t[k := e], e, 0) < |t|
  {
    FindIn(t[k := e], e);
    assert t[k := e][k] == e;
  }
}
