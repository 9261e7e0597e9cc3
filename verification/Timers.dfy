/** The timer registry of EtherControl: a fixed number of slots shared by the handlers. */
module Timers {
  import opened Words

  /** A slot holds the handler whose timer it is. */
  type Slots = seq<Option<nat>>

  function Occupied(r: Slots): nat {
    if r == [] then 0 else Occupied(r[..|r| - 1]) + if r[|r| - 1].Some? then 1 else 0
  }

  /** The first free slot at or after i. */
  function FirstFree(r: Slots, i: nat): (k: nat)
    requires i <= |r|
    ensures i <= k <= |r| && (k < |r| ==> r[k] == None) && forall j :: i <= j < k ==> r[j].Some?
    decreases |r| - i
  {
    if i == |r| || r[i] == None then i else FirstFree(r, i + 1)
  }

  /** registerTimer: the new registry and the timer's index, 0 when there is no slot. */
  function Registered(r: Slots, handler: nat): (Slots, nat) {
    var k := FirstFree(r, 0);
    if k == |r| then (r, 0) else (r[k := Some(handler)], k + 1)
  }

  function Unregistered(r: Slots, index: nat): Slots
    requires 1 <= index <= |r|
  {
    r[index - 1 := None]
  }

  /** A registration takes the first slot nobody has and disturbs no other; it fails only when
      every slot is taken, and giving the timer back restores the registry. */
  lemma RegisteredIff(r: Slots, handler: nat)
    ensures var (t, index) := Registered(r, handler);
      && (index == 0 <==> forall i :: 0 <= i < |r| ==> r[i].Some?) && (index == 0 ==> t == r)
      && (index != 0 ==>
            && index <= |r| == |t| && r[index - 1] == None && t[index - 1] == Some(handler)
            && (forall i :: 0 <= i < index - 1 ==> r[i].Some?)
            && (forall i :: 0 <= i < |r| && i != index - 1 ==> t[i] == r[i])
            && Unregistered(t, index) == r)
  {
  }

  lemma {:induction false} OccupiedUpdate(r: Slots, i: nat, x: Option<nat>)
    requires i < |r|
    ensures Occupied(r[i := x]) + (if r[i].Some? then 1 else 0) == Occupied(r) + (if x.Some? then 1 else 0)
  {
    var k := |r| - 1;
    if i < k {
      OccupiedUpdate(r[..k], i, x);
      assert r[i := x][..k] == r[..k][i := x];
    } else {
      assert r[i := x][..k] == r[..k];
    }
  }

  /** A slot is free exactly when the count is below the capacity. */
  lemma {:induction false} FullIff(r: Slots)
    ensures Occupied(r) <= |r|
    ensures Occupied(r) == |r| <==> forall i :: 0 <= i < |r| ==> r[i].Some?
  {
    if r != [] {
      FullIff(r[..|r| - 1]);
    }
  }

  class TimerRegistry {
    const slots: array<Option<nat>>
    var timers: nat

    ghost predicate Valid()
      reads this, slots
    {
      timers == Occupied(slots[..])
    }

    constructor (capacity: nat)
      ensures Valid() && slots.Length == capacity && timers == 0
    {
      slots := new Option<nat>[capacity](_ => None);
      timers := 0;
      new;
      AllFree(slots[..]);
    }

    method RegisterTimer(handler: nat) returns (index: nat)
      requires Valid()
      modifies this, slots
      ensures Valid() && (slots[..], index) == Registered(old(slots[..]), handler)
      ensures index == 0 <==> old(timers) == slots.Length
    {
      FullIff(slots[..]);
      ghost var r := slots[..];
      for i := 0 to slots.Length
        invariant slots[..] == r && timers == Occupied(r)
        invariant FirstFree(r, 0) == FirstFree(r, i)
      {
        if slots[i] == None {
          OccupiedUpdate(r, i, Some(handler));
          slots[i] := Some(handler);
          timers := timers + 1;
          return i + 1;
        }
      }
      return 0;
    }

    method UnregisterTimer(index: nat)
      requires Valid() && 1 <= index <= slots.Length
      modifies this, slots
      ensures Valid() && slots[..] == Unregistered(old(slots[..]), index)
    {
      if slots[index - 1] != None {
        OccupiedUpdate(slots[..], index - 1, None);
        timers := timers - 1;
        slots[index - 1] := None;
      }
    }
  }

  lemma {:induction false} AllFree(r: Slots)
    requires forall i :: 0 <= i < |r| ==> r[i] == None
    ensures Occupied(r) == 0
  {
    if r != [] {
      AllFree(r[..|r| - 1]);
    }
  }
}
