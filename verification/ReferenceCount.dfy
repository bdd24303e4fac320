/**
 The life of one object of src/object_heap.c under every interleaving: rk_object_ref as its load
 and its weak compare-and-exchange, rk_object_unref as its atomic decrement and the call of the
 destroy function behind it, and the heap's critical sections.  Threads are numbered; each owns
 references it may pass on, use for rk_object_ref, or drop.
 */
module ReferenceCount {
  import opened Options
  import opened Integers


  /** Where a thread stands; `locked` tells an acquire inside the object lock from a plain ref. */
  datatype Pc = Idle | Loading(locked: bool) | Exchanging(expected: nat, locked: bool) | Destroying

  datatype Thread = Thread(held: nat, pc: Pc)

  datatype State = State(refs: nat, destroyed: nat, inHeap: bool, lock: Option<nat>, threads: seq<Thread>)

  datatype Action =
    | Publish(t: nat)              // rk_object_heap_insert takes over the caller's reference
    | LockToAcquire(t: nat)        // rk_object_heap_acquire up to rk_object_ref
    | LockToRemove(t: nat)         // rk_object_heap_remove hands the heap's reference to the caller
    | StartRef(t: nat)
    | Load(t: nat)
    | Exchange(t: nat, spurious: bool)
    | Unref(t: nat)
    | Destroy(t: nat)
    | Give(t: nat, to: nat)

  function Initial(threads: nat): State
    requires threads > 0
  {
    State(1, 0, false, None, seq(threads, i => Thread(if i == 0 then 1 else 0, Idle)))
  }

  function With(s: State, t: nat, th: Thread): State
    requires t < |s.threads|
  {
    s.(threads := s.threads[t := th])
  }

  function Unlocked(s: State, locked: bool): State {
    if locked then s.(lock := None) else s
  }

  /** One atomic step; None when the thread cannot take it. */
  function Apply(s: State, a: Action): Option<State> {
    if a.t >= |s.threads| then None
    else
      var th := s.threads[a.t];
      match a
      case Publish(t) =>
        if th.pc == Idle && th.held > 0 && s.lock == None && !s.inHeap then
          Some(With(s, t, th.(held := th.held - 1)).(inHeap := true))
        else None
      case LockToAcquire(t) =>
        if th.pc != Idle || s.lock != None then None
        else if !s.inHeap then Some(s)
        else Some(With(s, t, th.(pc := Loading(true))).(lock := Some(t)))
      case LockToRemove(t) =>
        if th.pc != Idle || s.lock != None then None
        else if !s.inHeap then Some(s)
        else Some(With(s, t, th.(held := th.held + 1)).(inHeap := false))
      case StartRef(t) =>
        if th.pc == Idle && th.held > 0 then Some(With(s, t, th.(pc := Loading(false)))) else None
      case Load(t) =>
        if th.pc.Loading? then Some(With(s, t, th.(pc := Exchanging(s.refs, th.pc.locked)))) else None
      case Exchange(t, spurious) =>
        if !th.pc.Exchanging? then None
        else if th.pc.expected == 0 || th.pc.expected == UINT_MAX then
          Some(Unlocked(With(s, t, th.(pc := Idle)), th.pc.locked))
        else if s.refs == th.pc.expected && !spurious then
          Some(Unlocked(With(s, t, Thread(th.held + 1, Idle)), th.pc.locked).(refs := s.refs + 1))
        else Some(With(s, t, th.(pc := Exchanging(s.refs, th.pc.locked))))
      case Unref(t) =>
        if th.pc == Idle && th.held > 0 then
          Some(With(s, t, Thread(th.held - 1, if s.refs == 1 then Destroying else Idle))
                 .(refs := if s.refs == 0 then UINT_MAX else s.refs - 1))
        else None
      case Destroy(t) =>
        if th.pc == Destroying then Some(With(s, t, th.(pc := Idle)).(destroyed := s.destroyed + 1)) else None
      case Give(t, to) =>
        if th.pc == Idle && th.held > 0 && to < |s.threads| && to != t then
          Some(With(With(s, t, th.(held := th.held - 1)), to, s.threads[to].(held := s.threads[to].held + 1)))
        else None
  }

  /** The state after a schedule; steps that are not enabled do nothing. */
  function Run(s: State, schedule: seq<Action>): State {
    if |schedule| == 0 then s
    else
      var before := Run(s, schedule[..|schedule| - 1]);
      match Apply(before, schedule[|schedule| - 1])
      case None => before
      case Some(after) => after
  }

  // ---------- the invariant ----------

  function Held(threads: seq<Thread>): nat {
    if |threads| == 0 then 0 else Held(threads[..|threads| - 1]) + threads[|threads| - 1].held
  }

  function Dying(threads: seq<Thread>): nat {
    if |threads| == 0 then 0
    else Dying(threads[..|threads| - 1]) + (if threads[|threads| - 1].pc == Destroying then 1 else 0)
  }

  /** A thread inside rk_object_ref owns a reference, or owns the lock of a heap that does. */
  predicate Secured(s: State, t: nat)
    requires t < |s.threads|
  {
    var th := s.threads[t];
    match th.pc
    case Idle => true
    case Destroying => th.held == 0
    case Loading(locked) => if locked then s.lock == Some(t) && s.inHeap else th.held > 0
    case Exchanging(expected, locked) =>
      0 < expected <= UINT_MAX && if locked then s.lock == Some(t) && s.inHeap else th.held > 0
  }

  predicate Inv(s: State) {
    && s.refs <= UINT_MAX
    && s.refs == Held(s.threads) + (if s.inHeap then 1 else 0)
    && s.destroyed + Dying(s.threads) == (if s.refs == 0 then 1 else 0)
    && (forall t :: 0 <= t < |s.threads| ==> Secured(s, t))
  }

  lemma {:induction false} HeldUpdate(threads: seq<Thread>, t: nat, th: Thread)
    requires t < |threads|
    ensures Held(threads[t := th]) == Held(threads) - threads[t].held + th.held
    ensures Dying(threads[t := th]) + (if threads[t].pc == Destroying then 1 else 0)
         == Dying(threads) + (if th.pc == Destroying then 1 else 0)
  {
    var n := |threads| - 1;
    if t < n {
      HeldUpdate(threads[..n], t, th);
      assert threads[t := th][..n] == threads[..n][t := th];
    } else {
      assert threads[t := th][..n] == threads[..n];
    }
  }

  lemma {:induction false} HeldAtLeast(threads: seq<Thread>, t: nat)
    requires t < |threads|
    ensures Held(threads) >= threads[t].held
    ensures threads[t].pc == Destroying ==> Dying(threads) >= 1
  {
    if t < |threads| - 1 {
      HeldAtLeast(threads[..|threads| - 1], t);
    }
  }

  lemma {:induction false} NothingHeld(n: nat)
    ensures var threads := seq(n, i => Thread(if i == 0 then 1 else 0, Idle));
            Held(threads) == (if n > 0 then 1 else 0) && Dying(threads) == 0
  {
    if n > 0 {
      NothingHeld(n - 1);
      var threads := seq(n, i => Thread(if i == 0 then 1 else 0, Idle));
      assert threads[..n - 1] == seq(n - 1, i => Thread(if i == 0 then 1 else 0, Idle));
    }
  }

  /** What one step means for the thread that takes it and for the others. */
  lemma StepKeepsSecured(s: State, a: Action, t: nat)
    requires Inv(s) && Apply(s, a).Some? && t < |s.threads|
    ensures t < |Apply(s, a).value.threads| && Secured(Apply(s, a).value, t)
  {
    hide Held, Dying;
    assert Secured(s, t) && Secured(s, a.t);
    HeldAtLeast(s.threads, t);
    HeldAtLeast(s.threads, a.t);
    if t != a.t {
      OneLastReference(s.threads, a.t, t);
    }
  }

  lemma {:induction false} OneLastReference(threads: seq<Thread>, t: nat, u: nat)
    requires t < |threads| && u < |threads| && t != u
    ensures Held(threads) >= threads[t].held + threads[u].held
  {
    var n := |threads| - 1;
    if t < n && u < n {
      OneLastReference(threads[..n], t, u);
    } else {
      HeldAtLeast(threads[..n], if t < n then t else u);
    }
  }

  lemma StepCounts(s: State, a: Action)
    requires Inv(s) && Apply(s, a).Some?
    ensures var r := Apply(s, a).value;
            && r.refs <= UINT_MAX
            && r.refs == Held(r.threads) + (if r.inHeap then 1 else 0)
            && r.destroyed + Dying(r.threads) == (if r.refs == 0 then 1 else 0)
  {
    hide Held, Dying;
    var r := Apply(s, a).value;
    assert Secured(s, a.t);
    HeldAtLeast(s.threads, a.t);
    HeldUpdate(s.threads, a.t, r.threads[a.t]);
    if a.Give? {
      HeldUpdate(s.threads[a.t := r.threads[a.t]], a.to, r.threads[a.to]);
    } else {
      assert r.threads == s.threads[a.t := r.threads[a.t]];
    }
  }

  lemma StepKeepsInv(s: State, a: Action)
    requires Inv(s) && Apply(s, a).Some?
    ensures Inv(Apply(s, a).value)
  {
    hide Secured, Held, Dying;
    StepCounts(s, a);
    forall t | 0 <= t < |s.threads|
      ensures Secured(Apply(s, a).value, t)
    {
      StepKeepsSecured(s, a, t);
    }
  }

  lemma {:induction false} RunKeepsInv(s: State, schedule: seq<Action>)
    requires Inv(s)
    ensures Inv(Run(s, schedule)) && |Run(s, schedule).threads| == |s.threads|
  {
    hide Inv, Apply;
    if |schedule| > 0 {
      var front, last := schedule[..|schedule| - 1], schedule[|schedule| - 1];
      RunKeepsInv(s, front);
      if Apply(Run(s, front), last).Some? {
        StepKeepsInv(Run(s, front), last);
        StepKeepsThreads(Run(s, front), last);
      }
    }
  }

  lemma StepKeepsThreads(s: State, a: Action)
    requires Apply(s, a).Some?
    ensures |Apply(s, a).value.threads| == |s.threads|
  {
  }

  lemma InitialInv(threads: nat)
    requires threads > 0
    ensures Inv(Initial(threads))
  {
    NothingHeld(threads);
  }

  // ---------- theorems ----------

  /** The object is alive: neither destroyed nor about to be. */
  predicate Alive(s: State) {
    s.destroyed == 0 && forall t :: 0 <= t < |s.threads| ==> s.threads[t].pc != Destroying
  }

  /**
   Under every schedule the object lives while the heap or any thread holds it, it is destroyed
   at most once, and exactly once as soon as nobody holds it and the last step has been taken.
   */
  lemma DestroyedExactlyOnce(threads: nat, schedule: seq<Action>)
    requires threads > 0
    ensures var s := Run(Initial(threads), schedule);
            && (s.inHeap || (exists t :: 0 <= t < |s.threads| && s.threads[t].held > 0) ==> Alive(s))
            && (!s.inHeap && (forall t :: 0 <= t < |s.threads| ==> s.threads[t].held == 0) ==>
                  s.destroyed <= 1 && (s.destroyed == 1 <==> forall t :: 0 <= t < |s.threads| ==> s.threads[t].pc != Destroying))
  {
    hide Run, Initial, Held, Dying;
    var s := Run(Initial(threads), schedule);
    InitialInv(threads);
    RunKeepsInv(Initial(threads), schedule);
    forall t | 0 <= t < |s.threads|
      ensures s.threads[t].held > 0 ==> s.refs > 0
      ensures s.threads[t].pc == Destroying ==> s.refs == 0 && s.destroyed == 0
    {
      HeldAtLeast(s.threads, t);
    }
    if !s.inHeap && forall t :: 0 <= t < |s.threads| ==> s.threads[t].held == 0 {
      NobodyHolds(s.threads);
      if forall t :: 0 <= t < |s.threads| ==> s.threads[t].pc != Destroying {
        NobodyDies(s.threads);
      }
    }
  }

  lemma {:induction false} NobodyHolds(threads: seq<Thread>)
    requires forall t :: 0 <= t < |threads| ==> threads[t].held == 0
    ensures Held(threads) == 0
  {
    if |threads| > 0 {
      NobodyHolds(threads[..|threads| - 1]);
    }
  }

  lemma {:induction false} NobodyDies(threads: seq<Thread>)
    requires forall t :: 0 <= t < |threads| ==> threads[t].pc != Destroying
    ensures Dying(threads) == 0
  {
    if |threads| > 0 {
      NobodyDies(threads[..|threads| - 1]);
    }
  }

  /** Once the count has reached 0 it stays there: rk_object_ref never revives a dead object. */
  lemma {:induction false} NeverRevived(s: State, schedule: seq<Action>)
    requires Inv(s) && s.refs == 0
    ensures Run(s, schedule).refs == 0
  {
    hide Apply, Inv;
    if |schedule| > 0 {
      var front, last := schedule[..|schedule| - 1], schedule[|schedule| - 1];
      RunKeepsInv(s, front);
      NeverRevived(s, front);
      if Apply(Run(s, front), last).Some? {
        DeadStep(Run(s, front), last);
      }
    }
  }

  lemma DeadStep(s: State, a: Action)
    requires Inv(s) && s.refs == 0 && Apply(s, a).Some?
    ensures Apply(s, a).value.refs == 0
  {
    hide Held, Dying;
    assert Secured(s, a.t);
    HeldAtLeast(s.threads, a.t);
  }

  /** rk_object_ref fails on an object reached through a reference or the locked heap only at the counter's limit. */
  lemma RefFailsOnlyAtTheLimit(s: State, t: nat, spurious: bool)
    requires Inv(s) && t < |s.threads| && s.threads[t].pc.Exchanging?
    requires Apply(s, Exchange(t, spurious)).value.threads[t].pc == Idle
    ensures var r := Apply(s, Exchange(t, spurious)).value;
            r.threads[t].held == s.threads[t].held + 1 || s.threads[t].pc.expected == UINT_MAX
  {
    assert Secured(s, t);
  }

  /** The thread gives nothing of its own away. */
  predicate Keeps(a: Action, t: nat) {
    a.t == t ==> !a.Unref? && !a.Give? && !a.Publish?
  }

  /**
   An object a thread holds outlives its removal from the heap: whatever the others do, it stays
   alive until that thread gives its reference up.
   */
  lemma {:induction false} HeldObjectSurvives(s: State, t: nat, schedule: seq<Action>)
    requires Inv(s) && t < |s.threads| && s.threads[t].held > 0
    requires forall i :: 0 <= i < |schedule| ==> Keeps(schedule[i], t)
    ensures var r := Run(s, schedule);
            |r.threads| == |s.threads| && r.threads[t].held >= s.threads[t].held && Alive(r)
  {
    hide Apply, Held, Dying, Secured;
    RunKeepsInv(s, schedule);
    if |schedule| > 0 {
      var front, last := schedule[..|schedule| - 1], schedule[|schedule| - 1];
      HeldObjectSurvives(s, t, front);
      if Apply(Run(s, front), last).Some? {
        KeepingStep(Run(s, front), last, t);
      }
    }
    var r := Run(s, schedule);
    HeldAtLeast(r.threads, t);
    forall u | 0 <= u < |r.threads| ensures r.threads[u].pc != Destroying { HeldAtLeast(r.threads, u); }
  }

  lemma KeepingStep(s: State, a: Action, t: nat)
    requires Apply(s, a).Some? && t < |s.threads| && Keeps(a, t)
    ensures |Apply(s, a).value.threads| == |s.threads| && Apply(s, a).value.threads[t].held >= s.threads[t].held
  {
  }
}
