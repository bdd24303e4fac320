/**
 src/object_heap.c over its real storage: a growable slot array with the free list threaded
 through it.  Every method is proved to do to its abstract value what ObjectPool says.
 */
module ObjectHeap {
  import opened Options
  import opened Integers
  import Pools = ObjectPool


  const NO_SLOT := 0xffff_ffff

  /** RKObjectBase; `destroyed` counts the calls of the destroy function. */
  class RKObject {
    var refs: u32
    var destroyed: nat

    constructor ()
      ensures refs == 1 && destroyed == 0
    {
      refs, destroyed := 1, 0;
    }

    /** rk_object_ref without contention; module ReferenceCount treats the interleavings. */
    method Ref() returns (ok: bool)
      modifies this
      ensures ok == (old(refs) != 0 && old(refs) != UINT_MAX)
      ensures refs == old(refs) + (if ok then 1 else 0) && destroyed == old(destroyed)
    {
      ok := refs != 0 && refs != UINT_MAX;
      if ok {
        refs := refs + 1;
      }
    }

    /** rk_object_unref: the unsigned counter wraps below 0. */
    method Unref()
      modifies this
      ensures refs == if old(refs) == 0 then UINT_MAX else old(refs) - 1
      ensures destroyed == old(destroyed) + (if old(refs) == 1 then 1 else 0)
    {
      var previous := refs;
      refs := if previous == 0 then UINT_MAX else previous - 1;
      if previous == 1 {
        destroyed := destroyed + 1;
      }
    }
  }

  datatype Slot = Slot(content: Option<RKObject>, nextFree: nat, generation: nat, retired: bool)

  function CellOf(s: Slot): Pools.Cell<RKObject> {
    Pools.Cell(s.content, s.generation, s.retired)
  }

  class RKObjectHeap {
    var kind: nat
    var slots: array<Slot>
    var highWater: nat
    var freeHead: nat
    var count: nat
    ghost var free: seq<nat>

    ghost predicate Valid()
      reads this, slots
    {
      && Consistent()
      && count == |Pools.Bindings(View())|
    }

    ghost predicate Consistent()
      reads this, slots
    {
      && highWater <= slots.Length
      && LinkedFrom(slots[..highWater], freeHead, free)
      && Pools.Valid(View())
    }

    ghost function View(): Pools.Pool<RKObject>
      reads this, slots
      requires highWater <= slots.Length
    {
      Pools.Pool(kind, Cells(slots[..highWater]), free, slots.Length)
    }

    /** After rk_object_heap_finish: the type is cleared with everything else. */
    predicate Finished()
      reads this
    {
      kind == 0 && highWater == 0 && count == 0 && slots.Length == 0
    }

    lemma KindWhileValid()
      ensures Valid() ==> 1 <= kind <= 5
    {
      hide LinkedFrom, Pools.Bindings;
    }

    constructor (kind: nat)
      requires 1 <= kind <= 5
      ensures Valid() && View() == Pools.Empty(kind) && fresh(slots)
    {
      this.kind := kind;
      slots := new Slot[0];
      highWater, freeHead, count := 0, NO_SLOT, 0;
      free := [];
      new;
      Pools.EmptyIsValid<RKObject>(kind);
      assert Pools.Bindings(View()) == map[];
    }

    /** grow_heap. */
    method Grow(memory: bool) returns (ok: bool)
      requires highWater <= slots.Length
      modifies this`slots
      ensures ok == (old(slots.Length) < Pools.MAX_SLOTS && memory)
      ensures !ok ==> slots == old(slots)
      ensures ok ==> fresh(slots) && slots.Length == Pools.Grown(old(slots.Length)) && slots[..highWater] == old(slots[..highWater])
    {
      var capacity := slots.Length;
      if capacity >= Pools.MAX_SLOTS || !memory {
        return false;
      }
      var newCapacity := if capacity == 0 then Pools.INITIAL_CAPACITY else 2 * capacity;
      if newCapacity > Pools.MAX_SLOTS {
        newCapacity := Pools.MAX_SLOTS;
      }
      var grown := new Slot[newCapacity](_ => Slot(None, 0, 0, false));
      forall i | 0 <= i < capacity {
        grown[i] := slots[i];
      }
      slots := grown;
      ok := true;
    }

    /** rk_object_heap_insert; the failure behind a popped slot cannot happen. */
    method Insert(x: RKObject, memory: bool) returns (id: Option<nat>)
      requires Valid() || Finished()
      modifies this, slots
      ensures old(Valid()) ==> Valid() && (View(), id) == Pools.Insert(old(View()), x, memory)
      ensures old(Finished()) ==> Finished() && id == None
    {
      KindWhileValid();
      if kind < 1 || kind > 5 {
        return None;
      }
      id := InsertSlot(x, memory);
    }

    method InsertSlot(x: RKObject, memory: bool) returns (id: Option<nat>)
      requires Valid()
      modifies this, slots
      ensures Valid() && (View(), id) == Pools.Insert(old(View()), x, memory)
    {
      hide Pools.Valid, Pools.Bindings, Pools.MakeId, LinkedFrom;
      ghost var p := View();
      Pools.InsertSucceeds(p, x, memory);
      InsertCounts(p, x, memory);
      Pools.InsertKeepsValid(p, x, memory);
      HeadIsFree(slots[..highWater], freeHead, free, p);
      var index;
      if freeHead != NO_SLOT {
        index := PopSlot(x);
      } else {
        if highWater == slots.Length {
          var ok := Grow(memory);
          if !ok {
            return None;
          }
        }
        index := PushSlot(x);
      }
      count := count + 1;
      assert View() == Pools.Insert(p, x, memory).0;
      id := Some(Pools.MakeId(Pools.Key(kind, slots[index].generation, index)));
    }

    /** Reuse of the slot at the head of the free list. */
    method PopSlot(x: RKObject) returns (index: nat)
      requires Consistent() && freeHead != NO_SLOT
      modifies this`freeHead, this`free, slots
      ensures Consistent() && old(free) != [] && index == old(free)[0] < highWater
      ensures View() == Pools.Insert(old(View()), x, true).0
      ensures slots[index].generation == old(slots[index].generation)
    {
      hide Pools.Valid, LinkedFrom;
      ghost var p, all := View(), slots[..highWater];
      HeadIsFree(all, freeHead, free, p);
      Pools.InsertKeepsValid(p, x, true);
      index := freeHead;
      freeHead := slots[index].nextFree;
      free := free[1..];
      if slots[index].retired || slots[index].content.Some? || slots[index].generation == 0 {
        assert false;
      }
      slots[index] := slots[index].(content := Some(x), nextFree := NO_SLOT);
      LinkedElsewhere(all, slots[..highWater], freeHead, free, index);
      assert View() == Pools.Insert(p, x, true).0;
    }

    /** A slot above high_water. */
    method PushSlot(x: RKObject) returns (index: nat)
      requires highWater < slots.Length && LinkedFrom(slots[..highWater], freeHead, free)
      modifies this`highWater, slots
      ensures index == old(highWater) && highWater == index + 1 <= slots.Length && slots[index].generation == 1
      ensures LinkedFrom(slots[..highWater], freeHead, free)
      ensures View() == old(View()).(cells := old(View()).cells + [Pools.Cell(Some(x), 1, false)])
    {
      hide LinkedFrom;
      ghost var all := slots[..highWater];
      LinkedInside(all, freeHead, free);
      index := highWater;
      highWater := highWater + 1;
      slots[index] := Slot(Some(x), NO_SLOT, 1, false);
      assert slots[..highWater] == all + [slots[index]];
      LinkedElsewhere(all, slots[..highWater], freeHead, free, index);
    }

    /** decode_id and the checks behind it. */
    method Locate(id: nat) returns (at: Option<nat>)
      requires Valid() || Finished()
      ensures at == Pools.Find(View(), id)
    {
      var k := Pools.Decode(id);
      if k.kind != kind || k.generation == 0 || k.index >= highWater {
        return None;
      }
      var slot := slots[k.index];
      if slot.content.None? || slot.retired || slot.generation != k.generation {
        return None;
      }
      at := Some(k.index);
    }

    /** In a finished heap no id is found. */
    lemma FinishedIsEmpty(id: nat)
      ensures Finished() ==> Pools.Find(View(), id) == None
    {
    }

    /** rk_object_heap_acquire. */
    method Acquire(id: nat) returns (r: Option<RKObject>)
      requires Valid() || Finished()
      modifies if Pools.Lookup(View(), id).Some? then {Pools.Lookup(View(), id).value} else {}
      ensures View() == old(View()) && (old(Valid()) ==> Valid()) && (old(Finished()) ==> Finished() && r == None)
      ensures var x := Pools.Lookup(View(), id);
              r == if x.Some? && 0 < old(x.value.refs) != UINT_MAX then x else None
      ensures r.Some? ==> r.value.refs == old(r.value.refs) + 1
      ensures r.None? ==> forall o: RKObject | old(allocated(o)) :: o.refs == old(o.refs)
    {
      FinishedIsEmpty(id);
      var at := Locate(id);
      if at.None? {
        return None;
      }
      var x := slots[at.value].content.value;
      var ok := x.Ref();
      r := if ok then Some(x) else None;
    }

    /** rk_object_heap_remove. */
    method Remove(id: nat) returns (r: Option<RKObject>)
      requires (Valid() || Finished()) && id < 0x1_0000_0000
      modifies this, slots
      ensures slots == old(slots)
      ensures old(Valid()) ==> Valid() && (View(), r) == Pools.Remove(old(View()), id)
      ensures old(Finished()) ==> Finished() && r == None
    {
      FinishedIsEmpty(id);
      var at := Locate(id);
      if at.None? {
        return None;
      }
      r := RemoveAt(id, at.value);
    }

    method RemoveAt(ghost id: nat, at: nat) returns (r: Option<RKObject>)
      requires Valid() && id < 0x1_0000_0000 && Pools.Find(View(), id) == Some(at)
      modifies this, slots
      ensures Valid() && slots == old(slots)
      ensures (View(), r) == Pools.Remove(old(View()), id)
    {
      hide Pools.Valid, Pools.Bindings, LinkedFrom, Pools.Find;
      RemoveCounts(View(), id);
      r := slots[at].content;
      Vacate(id, at);
      count := count - 1;
    }

    /** The slot goes back to the free list, or is retired with its last generation. */
    method Vacate(ghost id: nat, index: nat)
      requires Consistent() && Pools.Find(View(), id) == Some(index)
      modifies this`freeHead, this`free, slots
      ensures Consistent()
      ensures View() == Pools.Remove(old(View()), id).0
    {
      hide Pools.Valid, LinkedFrom, Pools.Find;
      ghost var p, all := View(), slots[..highWater];
      Pools.RemoveKeepsValid(p, id);
      OccupiedNotFree(p, index);
      var slot := slots[index];
      if slot.generation == Pools.MAX_GENERATION {
        slots[index] := Slot(None, NO_SLOT, slot.generation, true);
        LinkedElsewhere(all, slots[..highWater], freeHead, free, index);
      } else {
        slots[index] := Slot(None, freeHead, slot.generation + 1, false);
        LinkedElsewhere(all, slots[..highWater], freeHead, free, index);
        LinkedCons(slots[..highWater], index, free);
        freeHead := index;
        free := [index] + free;
      }
      assert View() == Pools.Remove(p, id).0;
    }

    /** The objects in the slots. */
    ghost function Contents(): set<RKObject>
      reads this, slots
      requires highWater <= slots.Length
    {
      set i | 0 <= i < highWater && slots[i].content.Some? :: slots[i].content.value
    }

    /** rk_object_heap_finish: every slot gives up its reference, each object is destroyed at its last one. */
    method Finish()
      requires Valid()
      modifies this, slots, Contents()
      ensures Finished()
      ensures forall o: RKObject :: o in old(Contents()) ==>
        var n := Holds(old(slots[..highWater]), o);
        && o.refs == RefsAfter(old(o.refs), n)
        && o.destroyed == old(o.destroyed) + (if 1 <= old(o.refs) <= n then 1 else 0)
    {
      hide Pools.Valid, Pools.Bindings, LinkedFrom, Holds, RefsAfter;
      AtMostMaxSlots(View());
      ghost var all, objects := slots[..highWater], Contents();
      HoldsNothing();
      forall o: RKObject | o in objects ensures RefsAfter(o.refs, 0) == o.refs { NothingReleased(o.refs); }
      for i := 0 to highWater
        invariant highWater == |all| <= slots.Length && slots == old(slots)
        invariant forall k :: i <= k < highWater ==> slots[k] == all[k]
        invariant forall o: RKObject :: o in objects ==>
          && o.refs == RefsAfter(old(o.refs), Holds(all[..i], o))
          && o.destroyed == old(o.destroyed) + (if 1 <= old(o.refs) <= Holds(all[..i], o) then 1 else 0)
      {
        HoldsStep(all, i);
        var content := slots[i].content;
        if content.Some? {
          RefsAfterStep(old(content.value.refs), Holds(all[..i], content.value));
        }
        slots[i] := slots[i].(content := None);
        if content.Some? {
          content.value.Unref();
        }
      }
      assert all[..highWater] == all;
      slots := new Slot[0];
      kind, highWater, freeHead, count, free := 0, 0, NO_SLOT, 0, [];
    }
  }

  /** The unsigned counter after `n` releases. */
  function RefsAfter(refs: u32, n: nat): u32 {
    (refs - n) % 0x1_0000_0000
  }

  lemma NothingReleased(refs: u32)
    ensures RefsAfter(refs, 0) == refs
  {
  }

  lemma RefsAfterStep(refs: u32, n: nat)
    requires n <= Pools.MAX_SLOTS
    ensures RefsAfter(refs, n + 1) == if RefsAfter(refs, n) == 0 then UINT_MAX else RefsAfter(refs, n) - 1
    ensures RefsAfter(refs, n) == 1 <==> refs == n + 1
  {
  }

  lemma AtMostMaxSlots(p: Pools.Pool<RKObject>)
    requires Pools.Valid(p)
    ensures |p.cells| <= Pools.MAX_SLOTS
  {
  }

  lemma HoldsNothing()
    ensures forall o :: Holds([], o) == 0
  {
  }

  lemma HoldsStep(s: seq<Slot>, i: nat)
    requires i < |s| <= Pools.MAX_SLOTS
    ensures forall o :: Holds(s[..i + 1], o) == Holds(s[..i], o) + (if s[i].content == Some(o) then 1 else 0)
    ensures forall o :: Holds(s[..i], o) <= i
  {
    assert s[..i + 1][..i] == s[..i];
    forall o ensures Holds(s[..i], o) <= i { HoldsBound(s[..i], o); }
  }

  lemma {:induction false} HoldsBound(s: seq<Slot>, o: RKObject)
    ensures Holds(s, o) <= |s|
  {
    if |s| > 0 {
      HoldsBound(s[..|s| - 1], o);
    }
  }

  /** The free list, followed from its head. */
  ghost predicate LinkedFrom(slots: seq<Slot>, head: nat, free: seq<nat>)
    decreases |free|
  {
    if free == [] then head == NO_SLOT
    else head == free[0] < |slots| && LinkedFrom(slots, slots[head].nextFree, free[1..])
  }

  /** How many slots hold `o`. */
  function Holds(s: seq<Slot>, o: RKObject): nat {
    if |s| == 0 then 0 else Holds(s[..|s| - 1], o) + (if s[|s| - 1].content == Some(o) then 1 else 0)
  }

  function Cells(s: seq<Slot>): (r: seq<Pools.Cell<RKObject>>)
    ensures |r| == |s|
  {
    seq(|s|, i requires 0 <= i < |s| => CellOf(s[i]))
  }

  lemma LinkedCons(slots: seq<Slot>, head: nat, free: seq<nat>)
    requires head < |slots| && LinkedFrom(slots, slots[head].nextFree, free)
    ensures LinkedFrom(slots, head, [head] + free)
  {
    assert ([head] + free)[1..] == free;
  }

  /** The head of a valid pool's list is a slot that can be used. */
  lemma HeadIsFree(slots: seq<Slot>, head: nat, free: seq<nat>, p: Pools.Pool<RKObject>)
    requires LinkedFrom(slots, head, free)
    requires Pools.Valid(p) && p.free == free && p.cells == Cells(slots)
    ensures forall k :: 0 <= k < |p.free| ==> p.free[k] < |p.cells|
    ensures head == NO_SLOT <==> free == []
    ensures free != [] ==>
              && head == free[0] < |slots| && Pools.Vacant(CellOf(slots[head])) && slots[head].generation > 0
              && LinkedFrom(slots, slots[head].nextFree, free[1..]) && head !in free[1..]
  {
    if free != [] {
      assert Pools.ValidCell(p.cells[head]);
    }
  }

  lemma OccupiedNotFree(p: Pools.Pool<RKObject>, i: nat)
    requires Pools.Valid(p) && i < |p.cells| && p.cells[i].content.Some?
    ensures i !in p.free
    ensures forall k :: 0 <= k < |p.free| ==> p.free[k] < |p.cells|
  {
  }

  lemma {:induction false} LinkedInside(slots: seq<Slot>, head: nat, free: seq<nat>)
    requires LinkedFrom(slots, head, free)
    ensures forall i :: i in free ==> i < |slots|
    decreases |free|
  {
    if free != [] {
      LinkedInside(slots, slots[head].nextFree, free[1..]);
      assert free == [free[0]] + free[1..];
    }
  }

  /** Changes off the list do not touch it. */
  lemma {:induction false} LinkedElsewhere(before: seq<Slot>, after: seq<Slot>, head: nat, free: seq<nat>, changed: nat)
    requires LinkedFrom(before, head, free) && |before| <= |after| && changed !in free
    requires forall i :: 0 <= i < |before| && i != changed ==> after[i] == before[i]
    ensures LinkedFrom(after, head, free)
    decreases |free|
  {
    if free != [] {
      LinkedElsewhere(before, after, before[head].nextFree, free[1..], changed);
    }
  }

  lemma InsertCounts(p: Pools.Pool<RKObject>, x: RKObject, memory: bool)
    requires Pools.Valid(p)
    ensures forall k :: 0 <= k < |p.free| ==> p.free[k] < |p.cells|
    ensures var q := Pools.Insert(p, x, memory).0;
            |Pools.Bindings(q)| == |Pools.Bindings(p)| + (if Pools.Insert(p, x, memory).1.Some? then 1 else 0)
  {
    hide Pools.Bindings;
    Pools.InsertRefines(p, x, memory);
  }

  lemma RemoveCounts(p: Pools.Pool<RKObject>, id: nat)
    requires Pools.Valid(p) && id < 0x1_0000_0000
    ensures var q := Pools.Remove(p, id).0;
            |Pools.Bindings(p)| == |Pools.Bindings(q)| + (if Pools.Remove(p, id).1.Some? then 1 else 0)
  {
    hide Pools.Bindings, Pools.Remove;
    Pools.RemoveRefines(p, id);
    if id in Pools.Bindings(p) {
      assert Pools.Bindings(p) == Pools.Bindings(Pools.Remove(p, id).0)[id := Pools.Bindings(p)[id]];
    }
  }
}
