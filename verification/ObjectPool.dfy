/**
 The object heap of src/object_heap.c as a value: slots with generations, a free list, and ids
 that pack type, generation and index.  It is shown to behave as a finite map whose keys are
 never handed out twice.
 */
module ObjectPool {
  import opened Options

  const MAX_SLOTS := 0x10_0000
  const MAX_GENERATION := 0xff
  const INITIAL_CAPACITY := 16

  // ---------- ids ----------

  datatype Key = Key(kind: nat, generation: nat, index: nat) {
    /** The three fields fit into their 4, 8 and 20 bits. */
    predicate Fits() {
      kind < 16 && generation < 0x100 && index < MAX_SLOTS
    }
  }

  /** make_id: the fields do not overlap, so the shifts and ors add up. */
  function MakeId(k: Key): nat {
    (k.kind * 0x100 + k.generation) * MAX_SLOTS + k.index
  }

  /** The field extraction of decode_id. */
  function Decode(id: nat): Key {
    Key(id / 0x1000_0000 % 16, id / MAX_SLOTS % 0x100, id % MAX_SLOTS)
  }

  lemma ShiftsAndOrsAddUp(kind: bv32, generation: bv32, index: bv32)
    requires kind < 16 && generation < 0x100 && index < 0x10_0000
    ensures (kind << 28) | (generation << 20) | index == (kind * 0x100 + generation) * 0x10_0000 + index
    ensures var id := (kind << 28) | (generation << 20) | index;
            (id >> 28) & 0xf == kind && (id >> 20) & 0xff == generation && id & 0xf_ffff == index
  {
  }

  lemma DecodeOfMakeId(k: Key)
    requires k.Fits()
    ensures Decode(MakeId(k)) == k && MakeId(k) < 0x1_0000_0000
  {
  }

  lemma MakeIdOfDecode(id: nat)
    requires id < 0x1_0000_0000
    ensures MakeId(Decode(id)) == id && Decode(id).Fits()
  {
  }

  // ---------- the pool ----------

  datatype Cell<+T> = Cell(content: Option<T>, generation: nat, retired: bool)

  /** The slots below high_water, the free list from its head, and the allocated capacity. */
  datatype Pool<+T> = Pool(kind: nat, cells: seq<Cell<T>>, free: seq<nat>, capacity: nat)

  function Empty<T>(kind: nat): Pool<T> {
    Pool(kind, [], [], 0)
  }

  predicate Vacant<T>(c: Cell<T>) {
    c.content.None? && !c.retired
  }

  predicate Valid<T>(p: Pool<T>) {
    && 1 <= p.kind <= 5
    && |p.cells| <= p.capacity <= MAX_SLOTS
    && (forall i :: 0 <= i < |p.cells| ==> ValidCell(p.cells[i]))
    && FreeListExact(p)
  }

  predicate ValidCell<T>(c: Cell<T>) {
    1 <= c.generation <= MAX_GENERATION && (c.retired ==> c.content.None? && c.generation == MAX_GENERATION)
  }

  /** The free list has no cycle and holds exactly the vacant cells. */
  predicate FreeListExact<T>(p: Pool<T>) {
    && (forall i, j :: 0 <= i < j < |p.free| ==> p.free[i] != p.free[j])
    && (forall k :: 0 <= k < |p.free| ==> p.free[k] < |p.cells| && Vacant(p.cells[p.free[k]]))
    && (forall i :: 0 <= i < |p.cells| && Vacant(p.cells[i]) ==> i in p.free)
  }

  function IdAt<T>(p: Pool<T>, i: nat): nat
    requires i < |p.cells|
  {
    MakeId(Key(p.kind, p.cells[i].generation, i))
  }

  /** grow_heap: 16 slots first, then twice as many, never above 2^20. */
  function Grown(capacity: nat): (r: nat)
    ensures capacity < MAX_SLOTS ==> capacity < r <= MAX_SLOTS
  {
    var doubled := if capacity == 0 then INITIAL_CAPACITY else 2 * capacity;
    if doubled > MAX_SLOTS then MAX_SLOTS else doubled
  }

  /** A fresh slot must be taken and none can be had. */
  predicate Full<T>(p: Pool<T>, memory: bool) {
    p.free == [] && |p.cells| == p.capacity && (p.capacity >= MAX_SLOTS || !memory)
  }

  /** rk_object_heap_insert; `memory` says whether realloc would deliver. */
  function Insert<T>(p: Pool<T>, x: T, memory: bool): (Pool<T>, Option<nat>)
    requires forall k :: 0 <= k < |p.free| ==> p.free[k] < |p.cells|
  {
    if p.free != [] then
      var i := p.free[0];
      var cell := p.cells[i];
      if !Vacant(cell) || cell.generation == 0 then (p.(free := p.free[1..]), None)
      else (p.(cells := p.cells[i := cell.(content := Some(x))], free := p.free[1..]), Some(IdAt(p, i)))
    else if Full(p, memory) then (p, None)
    else
      var i := |p.cells|;
      (p.(cells := p.cells + [Cell(Some(x), 1, false)],
          capacity := if |p.cells| == p.capacity then Grown(p.capacity) else p.capacity),
       Some(MakeId(Key(p.kind, 1, i))))
  }

  /** The slot an id names while it is live. */
  function Find<T>(p: Pool<T>, id: nat): (at: Option<nat>)
    ensures at.Some? ==> at.value < |p.cells| && p.cells[at.value].content.Some?
  {
    var k := Decode(id);
    if k.kind == p.kind && k.generation != 0 && k.index < |p.cells| &&
       p.cells[k.index].content.Some? && !p.cells[k.index].retired && p.cells[k.index].generation == k.generation
    then Some(k.index) else None
  }

  function Lookup<T>(p: Pool<T>, id: nat): Option<T> {
    var i :- Find(p, id);
    p.cells[i].content
  }

  /** rk_object_heap_remove: the last generation retires the slot. */
  function Remove<T>(p: Pool<T>, id: nat): (Pool<T>, Option<T>) {
    match Find(p, id)
    case None => (p, None)
    case Some(i) =>
      var cell := p.cells[i];
      if cell.generation == MAX_GENERATION then
        (p.(cells := p.cells[i := Cell(None, cell.generation, true)]), cell.content)
      else
        (p.(cells := p.cells[i := Cell(None, cell.generation + 1, false)], free := [i] + p.free), cell.content)
  }

  // ---------- invariants ----------

  lemma EmptyIsValid<T>(kind: nat)
    requires 1 <= kind <= 5
    ensures Valid(Empty<T>(kind))
  {
  }

  lemma InsertKeepsValid<T>(p: Pool<T>, x: T, memory: bool)
    requires Valid(p)
    ensures Valid(Insert(p, x, memory).0)
  {
    hide FreeListExact, MakeId;
    FreeListIsVacant(p);
    if p.free != [] {
      PopKeepsExact(p, Insert(p, x, memory).0);
    } else {
      PushKeepsExact(p, Insert(p, x, memory).0);
    }
  }

  lemma FreeListIsVacant<T>(p: Pool<T>)
    requires FreeListExact(p)
    ensures forall k :: 0 <= k < |p.free| ==> p.free[k] < |p.cells| && Vacant(p.cells[p.free[k]])
  {
  }

  /** Occupying the cell at the head of the free list. */
  lemma PopKeepsExact<T>(p: Pool<T>, q: Pool<T>)
    requires FreeListExact(p) && p.free != [] && q.free == p.free[1..] && |q.cells| == |p.cells|
    requires forall i :: 0 <= i < |p.cells| && i != p.free[0] ==> q.cells[i] == p.cells[i]
    requires !Vacant(q.cells[p.free[0]])
    ensures FreeListExact(q)
  {
    assert p.free == [p.free[0]] + q.free;
    forall i | 0 <= i < |q.cells| && Vacant(q.cells[i])
      ensures i in q.free
    {
      assert i in p.free;
    }
  }

  /** Occupying a cell behind the others. */
  lemma PushKeepsExact<T>(p: Pool<T>, q: Pool<T>)
    requires FreeListExact(p) && q.free == p.free && |p.cells| <= |q.cells|
    requires forall i :: 0 <= i < |p.cells| ==> q.cells[i] == p.cells[i]
    requires forall i :: |p.cells| <= i < |q.cells| ==> !Vacant(q.cells[i])
    ensures FreeListExact(q)
  {
  }

  /** The defensive failure behind a popped slot cannot happen: inserting fails exactly when the pool is full. */
  lemma InsertSucceeds<T>(p: Pool<T>, x: T, memory: bool)
    requires Valid(p)
    ensures Insert(p, x, memory).1.None? <==> Full(p, memory)
    ensures Full(p, memory) ==> Insert(p, x, memory).0 == p
  {
  }

  /** With memory at hand inserting fails only when all 2^20 slots are taken or have used up their 255 generations. */
  lemma FullMeansExhausted<T>(p: Pool<T>, x: T)
    requires Valid(p) && Insert(p, x, true).1.None?
    ensures |p.cells| == 0x10_0000
    ensures forall i :: 0 <= i < |p.cells| ==> p.cells[i].content.Some? || p.cells[i].generation == 255
  {
    InsertSucceeds(p, x, true);
  }

  lemma RemoveKeepsValid<T>(p: Pool<T>, id: nat)
    requires Valid(p)
    ensures Valid(Remove(p, id).0)
  {
    var q := Remove(p, id).0;
    match Find(p, id)
    case None =>
    case Some(i) =>
      assert ValidCell(p.cells[i]) && !Vacant(p.cells[i]);
      assert i !in p.free;
  }

  // ---------- refinement of a map ----------

  function LiveIds<T>(p: Pool<T>): set<nat> {
    set i | 0 <= i < |p.cells| && p.cells[i].content.Some? :: IdAt(p, i)
  }

  /** The finite map from live ids to objects that the pool stands for. */
  function Bindings<T>(p: Pool<T>): map<nat, T> {
    map id | id in LiveIds(p) && Lookup(p, id).Some? :: Lookup(p, id).value
  }

  /** Every cell has its own ids. */
  lemma IdNamesCell<T>(p: Pool<T>, i: nat)
    requires Valid(p) && i < |p.cells|
    ensures Decode(IdAt(p, i)) == Key(p.kind, p.cells[i].generation, i)
    ensures Find(p, IdAt(p, i)) == if p.cells[i].content.Some? then Some(i) else None
  {
    assert ValidCell(p.cells[i]);
    DecodeOfMakeId(Key(p.kind, p.cells[i].generation, i));
  }

  lemma LookupIsBinding<T>(p: Pool<T>, id: nat)
    requires Valid(p) && id < 0x1_0000_0000
    ensures Lookup(p, id).Some? <==> id in Bindings(p)
    ensures id in Bindings(p) ==> Lookup(p, id) == Some(Bindings(p)[id])
  {
    if Find(p, id).Some? {
      MakeIdOfDecode(id);
      assert id == IdAt(p, Find(p, id).value);
    }
  }

  // ---------- ids already given out ----------

  /** The id was issued before: its generation is over, or its object or its slot's retirement holds it. */
  predicate Spent<T>(p: Pool<T>, id: nat) {
    var k := Decode(id);
    && id < 0x1_0000_0000 && k.kind == p.kind && k.generation >= 1 && k.index < |p.cells|
    && (k.generation < p.cells[k.index].generation ||
        (k.generation == p.cells[k.index].generation && !Vacant(p.cells[k.index])))
  }

  lemma LiveIsSpent<T>(p: Pool<T>, id: nat)
    requires Valid(p) && id in LiveIds(p)
    ensures Spent(p, id)
  {
    var i :| 0 <= i < |p.cells| && p.cells[i].content.Some? && id == IdAt(p, i);
    IdNamesCell(p, i);
    DecodeOfMakeId(Key(p.kind, p.cells[i].generation, i));
    assert ValidCell(p.cells[i]);
  }

  /** Inserting binds an id that was never issued before. */
  lemma InsertRefines<T>(p: Pool<T>, x: T, memory: bool)
    requires Valid(p)
    ensures var q := Insert(p, x, memory).0; var id := Insert(p, x, memory).1;
            if id.None? then q == p
            else !Spent(p, id.value) && Spent(q, id.value) && id.value !in Bindings(p) && Bindings(q) == Bindings(p)[id.value := x]
  {
    hide Find, MakeId, Decode, LiveIds, Bindings;
    var q, id := Insert(p, x, memory).0, Insert(p, x, memory).1;
    InsertSucceeds(p, x, memory);
    InsertKeepsValid(p, x, memory);
    if id.Some? {
      var at := if p.free != [] then p.free[0] else |p.cells|;
      IdNamesCell(q, at);
      assert id.value == IdAt(q, at);
      Bound(p, q, at, x);
    }
  }

  /** Cell `at`, vacant or new in `p`, holds `x` in `q`. */
  lemma Bound<T>(p: Pool<T>, q: Pool<T>, at: nat, x: T)
    requires DifferAt(p, q, at) && q.cells[at].content == Some(x)
    requires at < |p.cells| ==> Vacant(p.cells[at]) && q.cells[at].generation == p.cells[at].generation
    ensures var id := IdAt(q, at);
            !Spent(p, id) && Spent(q, id) && id !in Bindings(p) && Bindings(q) == Bindings(p)[id := x]
  {
    hide LiveIds, MakeId, Decode;
    var id := IdAt(q, at);
    IdNamesCell(q, at);
    LiveIdIs(q, at);
    LiveIsSpent(q, id);
    if id in LiveIds(p) {
      LiveIsSpent(p, id);
    }
    forall other | other != id
      ensures other in Bindings(q) <==> other in Bindings(p)
      ensures other in Bindings(p) ==> Bindings(q)[other] == Bindings(p)[other]
    {
      SameElsewhere(p, q, at, other);
    }
    assert Bindings(q) == Bindings(p)[id := x];
  }

  lemma LiveIdIs<T>(p: Pool<T>, i: nat)
    requires i < |p.cells| && p.cells[i].content.Some?
    ensures IdAt(p, i) in LiveIds(p)
  {
  }

  ghost predicate DifferAt<T>(p: Pool<T>, q: Pool<T>, at: nat) {
    && Valid(p) && Valid(q) && p.kind == q.kind && at < |q.cells| && at <= |p.cells| <= |q.cells|
    && (forall i :: 0 <= i < |p.cells| && i != at ==> q.cells[i] == p.cells[i])
    && |q.cells| == (if at < |p.cells| then |p.cells| else at + 1)
  }

  /** Two pools that differ in one cell agree on every id that does not name it. */
  lemma SameElsewhere<T>(p: Pool<T>, q: Pool<T>, at: nat, id: nat)
    requires DifferAt(p, q, at)
    requires at < |p.cells| && p.cells[at].content.Some? ==> IdAt(p, at) != id
    requires q.cells[at].content.Some? ==> IdAt(q, at) != id
    ensures id in LiveIds(q) <==> id in LiveIds(p)
    ensures id in LiveIds(p) ==> Lookup(q, id) == Lookup(p, id)
  {
    if id in LiveIds(p) {
      var i :| 0 <= i < |p.cells| && p.cells[i].content.Some? && id == IdAt(p, i);
      assert IdAt(q, i) == id;
      IdNamesCell(p, i);
      IdNamesCell(q, i);
    }
    if id in LiveIds(q) {
      var i :| 0 <= i < |q.cells| && q.cells[i].content.Some? && id == IdAt(q, i);
      assert IdAt(p, i) == id;
    }
  }

  /** Removing takes one binding away, for good. */
  lemma RemoveRefines<T>(p: Pool<T>, id: nat)
    requires Valid(p) && id < 0x1_0000_0000
    ensures var q := Remove(p, id).0;
            && Remove(p, id).1 == (if id in Bindings(p) then Some(Bindings(p)[id]) else None)
            && Bindings(q) == Bindings(p) - {id}
            && (id in Bindings(p) ==> Spent(q, id))
  {
    hide MakeId, Decode, LiveIds, Bindings;
    LookupIsBinding(p, id);
    RemoveKeepsValid(p, id);
    match Find(p, id)
    case None => Missing(Bindings(p), id);
    case Some(at) =>
      MakeIdOfDecode(id);
      LookupIsBinding(Remove(p, id).0, id);
      Unbound(p, Remove(p, id).0, at);
  }

  lemma Missing<T>(m: map<nat, T>, id: nat)
    requires id !in m
    ensures m - {id} == m
  {
  }

  /** Cell `at` is live in `p` and empty in `q`. */
  lemma Unbound<T>(p: Pool<T>, q: Pool<T>, at: nat)
    requires DifferAt(p, q, at) && at < |p.cells| && p.cells[at].content.Some? && q.cells[at].content.None?
    requires IdAt(p, at) !in Bindings(q)
    ensures Bindings(q) == Bindings(p) - {IdAt(p, at)}
  {
    hide LiveIds, MakeId, Decode, Lookup;
    forall other | other != IdAt(p, at)
      ensures other in Bindings(q) <==> other in Bindings(p)
      ensures other in Bindings(p) ==> Bindings(q)[other] == Bindings(p)[other]
    {
      SameElsewhere(p, q, at, other);
    }
  }

  lemma InsertKeepsSpent<T>(p: Pool<T>, x: T, memory: bool, id: nat)
    requires Valid(p) && Spent(p, id)
    ensures Spent(Insert(p, x, memory).0, id)
  {
    hide Decode, MakeId;
  }

  lemma RemoveKeepsSpent<T>(p: Pool<T>, gone: nat, id: nat)
    requires Valid(p) && Spent(p, id)
    ensures Spent(Remove(p, gone).0, id)
  {
    hide Decode, MakeId;
  }

  // ---------- whole runs ----------

  datatype Op<T> = InsertOp(x: T, memory: bool) | RemoveOp(id: nat) | LookupOp(id: nat)

  datatype Event<T> = Inserted(x: T, issued: Option<nat>) | Removed(id: nat, was: Option<T>) | Found(id: nat, found: Option<T>)

  function Step<T>(p: Pool<T>, op: Op<T>): (Pool<T>, Event<T>)
    requires forall k :: 0 <= k < |p.free| ==> p.free[k] < |p.cells|
  {
    match op
    case InsertOp(x, memory) => (Insert(p, x, memory).0, Inserted(x, Insert(p, x, memory).1))
    case RemoveOp(id) => (Remove(p, id).0, Removed(id, Remove(p, id).1))
    case LookupOp(id) => (p, Found(id, Lookup(p, id)))
  }

  lemma StepKeepsValid<T>(p: Pool<T>, op: Op<T>)
    requires Valid(p)
    ensures Valid(Step(p, op).0)
  {
    match op
    case InsertOp(x, memory) => InsertKeepsValid(p, x, memory);
    case RemoveOp(id) => RemoveKeepsValid(p, id);
    case LookupOp(_) =>
  }

  function Trace<T>(p: Pool<T>, ops: seq<Op<T>>): seq<Event<T>>
    requires Valid(p)
    decreases |ops|
  {
    if |ops| == 0 then []
    else
      StepKeepsValid(p, ops[0]);
      [Step(p, ops[0]).1] + Trace(Step(p, ops[0]).0, ops[1..])
  }

  /** 32-bit ids: what a caller can pass. */
  predicate CallableOps<T>(ops: seq<Op<T>>) {
    forall i :: 0 <= i < |ops| ==>
      match ops[i]
      case InsertOp(_, _) => true
      case RemoveOp(id) => id < 0x1_0000_0000
      case LookupOp(id) => id < 0x1_0000_0000
  }

  /** A finite map whose keys are chosen by the heap but never twice. */
  predicate MapTrace<T(==)>(m: map<nat, T>, issued: set<nat>, events: seq<Event<T>>)
    decreases |events|
  {
    |events| == 0 ||
    match events[0]
    case Inserted(x, None) => MapTrace(m, issued, events[1..])
    case Inserted(x, Some(id)) => id !in issued && MapTrace(m[id := x], issued + {id}, events[1..])
    case Removed(id, was) => was == (if id in m then Some(m[id]) else None) && MapTrace(m - {id}, issued, events[1..])
    case Found(id, found) => found == (if id in m then Some(m[id]) else None) && MapTrace(m, issued, events[1..])
  }

  lemma {:induction false} TraceIsMapTrace<T>(p: Pool<T>, issued: set<nat>, ops: seq<Op<T>>)
    requires Valid(p) && CallableOps(ops)
    requires forall id :: id in issued ==> Spent(p, id)
    ensures MapTrace(Bindings(p), issued, Trace(p, ops))
    decreases |ops|
  {
    hide Insert, Remove, Lookup, Bindings, Spent;
    if |ops| > 0 {
      var q, event := Step(p, ops[0]).0, Step(p, ops[0]).1;
      StepKeepsValid(p, ops[0]);
      assert Trace(p, ops)[1..] == Trace(q, ops[1..]);
      match ops[0]
      case InsertOp(x, memory) =>
        InsertRefines(p, x, memory);
        forall id | id in issued ensures Spent(q, id) { InsertKeepsSpent(p, x, memory, id); }
        TraceIsMapTrace(q, if event.issued.Some? then issued + {event.issued.value} else issued, ops[1..]);
      case RemoveOp(id) =>
        RemoveRefines(p, id);
        forall other | other in issued ensures Spent(q, other) { RemoveKeepsSpent(p, id, other); }
        TraceIsMapTrace(q, issued, ops[1..]);
      case LookupOp(id) =>
        LookupIsBinding(p, id);
        TraceIsMapTrace(q, issued, ops[1..]);
    }
  }

  /** Every run of a new heap is a run of a finite map whose keys are never reused. */
  lemma HeapRefinesMap<T>(kind: nat, ops: seq<Op<T>>)
    requires 1 <= kind <= 5 && CallableOps(ops)
    ensures Valid(Empty<T>(kind)) && MapTrace(map[], {}, Trace(Empty(kind), ops))
  {
    EmptyIsValid<T>(kind);
    assert Bindings(Empty<T>(kind)) == map[];
    TraceIsMapTrace(Empty(kind), {}, ops);
  }

  // ---------- consequences ----------

  /** The id an event issued, if any. */
  function IssuedBy<T>(e: Event<T>): Option<nat> {
    if e.Inserted? then e.issued else None
  }

  lemma {:induction false} IssuedLater<T>(m: map<nat, T>, issued: set<nat>, events: seq<Event<T>>, i: nat, id: nat)
    requires MapTrace(m, issued, events) && i < |events| && IssuedBy(events[i]) == Some(id)
    ensures id !in issued
    decreases |events|
  {
    if i > 0 {
      match events[0]
      case Inserted(x, None) => IssuedLater(m, issued, events[1..], i - 1, id);
      case Inserted(x, Some(first)) => IssuedLater(m[first := x], issued + {first}, events[1..], i - 1, id);
      case Removed(gone, _) => IssuedLater(m - {gone}, issued, events[1..], i - 1, id);
      case Found(_, _) => IssuedLater(m, issued, events[1..], i - 1, id);
    }
  }

  /** An id once issued and not bound any more never resolves again. */
  lemma {:induction false} DeadStaysDead<T>(m: map<nat, T>, issued: set<nat>, events: seq<Event<T>>, i: nat, id: nat)
    requires MapTrace(m, issued, events) && i < |events| && id in issued && id !in m
    ensures IssuedBy(events[i]) != Some(id)
    ensures events[i].Found? && events[i].id == id ==> events[i].found == None
    ensures events[i].Removed? && events[i].id == id ==> events[i].was == None
    decreases |events|
  {
    if i > 0 {
      match events[0]
      case Inserted(x, None) => DeadStaysDead(m, issued, events[1..], i - 1, id);
      case Inserted(x, Some(first)) => DeadStaysDead(m[first := x], issued + {first}, events[1..], i - 1, id);
      case Removed(gone, _) => DeadStaysDead(m - {gone}, issued, events[1..], i - 1, id);
      case Found(_, _) => DeadStaysDead(m, issued, events[1..], i - 1, id);
    }
  }

  /** Over every run of a new heap no id is issued twice. */
  lemma NeverReissued<T>(kind: nat, ops: seq<Op<T>>, i: nat, j: nat, id: nat)
    requires 1 <= kind <= 5 && CallableOps(ops) && Valid(Empty<T>(kind))
    requires i < j < |Trace(Empty(kind), ops)|
    requires IssuedBy(Trace(Empty(kind), ops)[i]) == Some(id)
    ensures IssuedBy(Trace(Empty(kind), ops)[j]) != Some(id)
  {
    HeapRefinesMap(kind, ops);
    NotTwice(map[], {}, Trace(Empty(kind), ops), i, j, id);
  }

  lemma {:induction false} NotTwice<T>(m: map<nat, T>, issued: set<nat>, events: seq<Event<T>>, i: nat, j: nat, id: nat)
    requires MapTrace(m, issued, events) && i < j < |events| && IssuedBy(events[i]) == Some(id)
    ensures IssuedBy(events[j]) != Some(id)
    decreases |events|
  {
    match events[0]
    case Inserted(x, None) => NotTwice(m, issued, events[1..], i - 1, j - 1, id);
    case Inserted(x, Some(first)) =>
      if i == 0 {
        if IssuedBy(events[j]) == Some(id) {
          IssuedLater(m[first := x], issued + {first}, events[1..], j - 1, id);
        }
      } else {
        NotTwice(m[first := x], issued + {first}, events[1..], i - 1, j - 1, id);
      }
    case Removed(gone, _) => NotTwice(m - {gone}, issued, events[1..], i - 1, j - 1, id);
    case Found(_, _) => NotTwice(m, issued, events[1..], i - 1, j - 1, id);
  }

  lemma {:induction false} GoneForever<T>(m: map<nat, T>, issued: set<nat>, events: seq<Event<T>>, i: nat, j: nat)
    requires MapTrace(m, issued, events) && i < j < |events|
    requires events[i].Removed? && events[i].was.Some? && (forall id :: id in m ==> id in issued)
    ensures events[j].Found? && events[j].id == events[i].id ==> events[j].found == None
    ensures events[j].Removed? && events[j].id == events[i].id ==> events[j].was == None
    ensures IssuedBy(events[j]) != Some(events[i].id)
    decreases |events|
  {
    match events[0]
    case Inserted(x, None) => GoneForever(m, issued, events[1..], i - 1, j - 1);
    case Inserted(x, Some(first)) => GoneForever(m[first := x], issued + {first}, events[1..], i - 1, j - 1);
    case Removed(gone, _) =>
      if i == 0 {
        DeadStaysDead(m - {gone}, issued, events[1..], j - 1, gone);
      } else {
        GoneForever(m - {gone}, issued, events[1..], i - 1, j - 1);
      }
    case Found(_, _) => GoneForever(m, issued, events[1..], i - 1, j - 1);
  }

  /**
   Over any run of a new heap, an id once removed is gone: later lookups and removals of it find
   nothing, and no insertion issues it again.
   */
  lemma RemovedStaysGone<T>(kind: nat, ops: seq<Op<T>>, i: nat, j: nat)
    requires 1 <= kind <= 5 && CallableOps(ops) && Valid(Empty<T>(kind))
    requires i < j < |Trace(Empty(kind), ops)|
    requires var e := Trace(Empty(kind), ops)[i]; e.Removed? && e.was.Some?
    ensures var id, later := Trace(Empty(kind), ops)[i].id, Trace(Empty(kind), ops)[j];
            && (later.Found? && later.id == id ==> later.found == None)
            && (later.Removed? && later.id == id ==> later.was == None)
            && IssuedBy(later) != Some(id)
  {
    HeapRefinesMap(kind, ops);
    GoneForever(map[], {}, Trace(Empty(kind), ops), i, j);
  }

  /** Heaps of different object types never share an id. */
  lemma KindsAreDisjoint<T, U>(p: Pool<T>, q: Pool<U>, id: nat)
    requires p.kind != q.kind && Spent(p, id)
    ensures !Spent(q, id) && Find(q, id) == None
  {
  }
}
