/**
 VP9 has no tokens: the oldest route takes the next frame.  In every run the routes of accepted
 packets are those of the newest shown ones, so a frame reaches its own surface exactly when there
 are as many of them as frames to come.
 */
module DecodeFifo {
  import opened Options
  import opened DecodeState
  import opened DecodeCoverage
  import opened DecodeRouting

  // ---------- one packet for each fence ----------

  predicate Issued(issued: map<nat, Ref>, ref: Ref) {
    exists t :: t in issued && issued[t] == ref
  }

  ghost predicate OneToken(issued: map<nat, Ref>) {
    forall t, u :: t in issued && u in issued && issued[t] == issued[u] ==> t == u
  }

  ghost predicate IssuedBegun(issued: map<nat, Ref>, surfaces: seq<Surface>) {
    forall t :: t in issued ==> issued[t].sid < |surfaces| && issued[t].fence <= surfaces[issued[t].sid].fence
  }

  /** Nobody else is about to enqueue this fence, and it was not enqueued before. */
  ghost predicate Waiting(issued: map<nat, Ref>, handoffs: multiset<Handoff>) {
    && (forall j :: EnqueueLater(j) in handoffs ==> handoffs[EnqueueLater(j)] == 1 && !Issued(issued, j.ref))
    && (forall j, k :: EnqueueLater(j) in handoffs && EnqueueLater(k) in handoffs && j.ref == k.ref ==> j == k)
  }

  ghost predicate Untouched(issued: map<nat, Ref>, handoffs: multiset<Handoff>, ref: Ref) {
    !Issued(issued, ref) && forall j :: EnqueueLater(j) in handoffs ==> j.ref != ref
  }

  /** Where no second field continues a fence, one packet is submitted for it. */
  ghost predicate Single(s: State) {
    && OneToken(s.log.issuedFor)
    && IssuedBegun(s.log.issuedFor, s.surfaces)
    && Waiting(s.log.issuedFor, s.handoffs)
    && (s.render.Some? ==> Untouched(s.log.issuedFor, s.handoffs, s.render.value))
  }

  lemma BegunLater(s: State, s': State)
    requires IssuedBegun(s.log.issuedFor, s.surfaces) && SurfacesMove(s, s')
    ensures IssuedBegun(s.log.issuedFor, s'.surfaces)
  {
    forall t | t in s.log.issuedFor
      ensures s.log.issuedFor[t].sid < |s'.surfaces| && s.log.issuedFor[t].fence <= s'.surfaces[s.log.issuedFor[t].sid].fence
    {
      var ref := s.log.issuedFor[t];
      assert Moves(s.surfaces[ref.sid], s'.surfaces[ref.sid]);
    }
  }

  lemma SingleBegin(s: State, sid: nat)
    requires Begin(s, sid).Some? && s.codec != H264 && Single(s) && Known(s)
    ensures Single(Begin(s, sid).value)
  {
    hide OneToken;
    BeginMoves(s, sid);
    BegunLater(s, Begin(s, sid).value);
    var ref := Ref(sid, s.surfaces[sid].fence + 1);
    forall j | EnqueueLater(j) in s.handoffs
      ensures j.ref != ref
    {
      WaitingBegun(s, EnqueueLater(j));
    }
    WaitingMore(s.log.issuedFor, s.handoffs, if s.render.Some? then Some(s.render.value) else None);
  }

  lemma WaitingBegun(s: State, h: Handoff)
    requires Known(s) && h in s.handoffs
    ensures Rightful(s, RefOf(h))
  {
    assert InHandoffs(s.handoffs, RefOf(h));
    assert Holds(s, RefOf(h));
  }

  lemma WaitingMore(issued: map<nat, Ref>, handoffs: multiset<Handoff>, failing: Option<Ref>)
    requires Waiting(issued, handoffs)
    ensures var more := handoffs + (if failing.Some? then multiset{FailLater(failing.value)} else multiset{});
            Waiting(issued, more) && forall j :: EnqueueLater(j) in more <==> EnqueueLater(j) in handoffs
  {
  }

  lemma SingleEnd(s: State, built: Option<Job>)
    requires End(s, built).Some? && Single(s)
    ensures Single(End(s, built).value)
  {
    hide OneToken, Issued;
    EndMoves(s, built);
    BegunLater(s, End(s, built).value);
  }

  lemma SingleEnqueue(s: State, j: Job)
    requires Single(s) && Known(s) && Bounded(s.log.issuedFor, s.nextToken) && EnqueueLater(j) in s.handoffs
    ensures var issued := s.log.issuedFor[s.nextToken + 1 := j.ref];
            var left := s.handoffs - multiset{EnqueueLater(j)};
            && OneToken(issued) && IssuedBegun(issued, s.surfaces) && Waiting(issued, left)
            && (s.render.Some? ==> Untouched(issued, left, s.render.value))
  {
    WaitingBegun(s, EnqueueLater(j));
    var issued := s.log.issuedFor[s.nextToken + 1 := j.ref];
    forall ref | ref != j.ref && Issued(issued, ref)
      ensures Issued(s.log.issuedFor, ref)
    {
      var t :| t in issued && issued[t] == ref;
      assert t in s.log.issuedFor;
    }
    var left := s.handoffs - multiset{EnqueueLater(j)};
    forall k | EnqueueLater(k) in left
      ensures EnqueueLater(k) in s.handoffs && k.ref != j.ref
    {
    }
  }

  lemma SingleFinish(s: State, h: Handoff)
    requires Finish(s, h).Some? && Single(s) && Known(s) && Bounded(s.log.issuedFor, s.nextToken)
    ensures Single(Finish(s, h).value)
  {
    hide OneToken, IssuedBegun, Waiting, Untouched, Fail, Complete, Bounded;
    var mid := s.(handoffs := s.handoffs - multiset{h});
    WaitingLess(s.log.issuedFor, s.handoffs, h, s.render);
    match h
    case EnqueueLater(j) =>
      SingleEnqueue(s, j);
      WaitingRejected(s.log.issuedFor, mid.handoffs, j, s.render);
    case _ =>
      OnlySurfaces(mid, RefOf(h), false, 0);
      Settling(mid, RefOf(h), false, 0);
      BegunLater(mid, Complete(mid, RefOf(h), false));
      BegunLater(mid, Fail(mid, RefOf(h)));
  }

  lemma WaitingLess(issued: map<nat, Ref>, handoffs: multiset<Handoff>, h: Handoff, render: Option<Ref>)
    requires Waiting(issued, handoffs) && (render.Some? ==> Untouched(issued, handoffs, render.value))
    ensures Waiting(issued, handoffs - multiset{h}) && (render.Some? ==> Untouched(issued, handoffs - multiset{h}, render.value))
  {
    forall x | x in handoffs - multiset{h}
      ensures x in handoffs && (handoffs - multiset{h})[x] <= handoffs[x]
    {
    }
  }

  lemma WaitingRejected(issued: map<nat, Ref>, handoffs: multiset<Handoff>, j: Job, render: Option<Ref>)
    requires Waiting(issued, handoffs) && (render.Some? ==> Untouched(issued, handoffs, render.value))
    ensures Waiting(issued, handoffs + multiset{RejectLater(j)})
    ensures render.Some? ==> Untouched(issued, handoffs + multiset{RejectLater(j)}, render.value)
  {
    forall k
      ensures EnqueueLater(k) in handoffs + multiset{RejectLater(j)} <==> EnqueueLater(k) in handoffs
    {
    }
  }

  /** Nobody but the API threads makes or submits a fence. */
  lemma WorkerKeepsFences(s: State, a: Action)
    requires Apply(s, a).Some? && !a.BeginPicture? && !a.EndPicture? && !a.FinishCall?
    ensures var s' := Apply(s, a).value;
            s'.log.issuedFor == s.log.issuedFor && s'.handoffs == s.handoffs && (s'.render == s.render || s'.render.None?)
  {
    hide Completed, Failed, Published, FindSurface, IndexOf, Without, Backlog;
  }

  lemma SingleStep(s: State, a: Action)
    requires Apply(s, a).Some? && s.codec != H264 && Single(s) && Known(s) && Labelled(s)
    ensures Single(Apply(s, a).value)
  {
    hide Begin, End, Finish, OtherBegin, OtherTouch, TakeJob, Start, Accept, Refuse, CompleteJob, EmitToken, EmitNext, Check, Deliver, Stall, FlushOne, Exit,
      BeginTeardown, Sweep, OneToken, IssuedBegun, Waiting, Untouched, Known;
    match a
    case BeginPicture(sid) => SingleBegin(s, sid);
    case EndPicture(built) => SingleEnd(s, built);
    case FinishCall(h) => SingleFinish(s, h);
    case _ =>
      WorkerKeepsFences(s, a);
      SurfaceStep(s, a);
      BegunLater(s, Apply(s, a).value);
  }

  lemma {:induction false} SingleReachable(codec: Codec, surfaces: nat, schedule: seq<Action>)
    requires codec != H264
    ensures Single(Run(Initial(codec, surfaces), schedule))
  {
    hide Apply, Single, Covered, PutCovered, Retired, Labelled, Known;
    if |schedule| == 0 {
      SingleAtFirst(codec, surfaces);
    } else {
      var front, last := schedule[..|schedule| - 1], schedule[|schedule| - 1];
      SingleReachable(codec, surfaces, front);
      Reachable(codec, surfaces, front);
      CodecStays(codec, surfaces, front);
      if Apply(Run(Initial(codec, surfaces), front), last).Some? {
        SingleStep(Run(Initial(codec, surfaces), front), last);
      }
    }
  }

  lemma SingleAtFirst(codec: Codec, surfaces: nat)
    ensures Single(Initial(codec, surfaces))
  {
  }

  // ---------- the order of the routes ----------

  /** The next frame takes the route of another packet. */
  predicate Misroutes(s: State, a: Action) {
    && a.EmitsNext? && EmitNext(s).Some? && s.routes != []
    && s.routes[0].ref != s.log.outputs[s.log.emitted].ref
  }

  /** The route taken is the next shown packet's exactly when routes and frames are in step. */
  lemma TokenInStep(s: State)
    requires EmitNext(s).Some? && s.routes != [] && Ledger(s) && OutputsOrdered(s.log) && Ordered(s) && KindOk(s.codec, s.pc)
    ensures s.routes[0].token == s.log.outputs[s.log.emitted].token <==> InStep(s)
  {
    var backlog, outputs := Backlog(s.pc, s.routes), s.log.outputs;
    if InStep(s) {
      NextInStep(s);
    } else if backlog != [] {
      assert s.routes[0] == backlog[0] == outputs[|outputs| - |backlog|..][0];
      assert s.log.emitted < |outputs| - |backlog|;
    } else {
      assert s.routes[0] == Route(s.pc.job.ref, s.pc.job.token);
      assert outputs[s.log.emitted].token in s.log.accepted;
    }
  }

  lemma MisroutesOutOfStep(s: State)
    requires EmitNext(s).Some? && s.routes != [] && Inv(s) && Routed(s) && Single(s)
    ensures Misroutes(s, EmitsNext) <==> !InStep(s)
  {
    hide Known, Covered, PutCovered, SurfacesRight, InStep, Backlog, Ordered, Ledger;
    EmitCounts(s, 0);
    TokenInStep(s);
    assert s.routes[0] in s.routes;
  }

  lemma ReachedAll(surfaces: nat, schedule: seq<Action>)
    ensures var s := Run(Initial(Vp9, surfaces), schedule);
            Inv(s) && Routed(s) && Single(s) && s.codec == Vp9
  {
    Reachable(Vp9, surfaces, schedule);
    RoutedReachable(Vp9, surfaces, schedule);
    SingleReachable(Vp9, surfaces, schedule);
    CodecStays(Vp9, surfaces, schedule);
  }

  // ---------- theorems ----------

  /**
   In every VP9 run, with and without stall flushes, the routes of accepted packets are in order
   the last of the shown packets, and no more than the frames to come.
   */
  lemma RoutesAreTheNewest(surfaces: nat, schedule: seq<Action>)
    ensures var s := Run(Initial(Vp9, surfaces), schedule);
            var backlog, outputs := Backlog(s.pc, s.routes), s.log.outputs;
            Counting(s) ==> |backlog| + s.log.emitted <= |outputs| && backlog == outputs[|outputs| - |backlog|..]
  {
    hide Run, Initial, Ordered, OutputsOrdered, SurfacesRight, Inv, Single, Clean;
    ReachedAll(surfaces, schedule);
  }

  /** A VP9 frame that takes a route reaches the surface it was decoded for if and only if routes and frames are in step. */
  lemma FrameTakesItsRouteIff(surfaces: nat, schedule: seq<Action>)
    ensures var s := Run(Initial(Vp9, surfaces), schedule);
            EmitNext(s).Some? && s.routes != [] ==>
              EmitNext(s).value.delivering.Some? &&
              (EmitNext(s).value.delivering.value.route.ref == s.log.outputs[EmitNext(s).value.delivering.value.frame].ref
               <==> |Backlog(s.pc, s.routes)| == |s.log.outputs| - s.log.emitted)
  {
    hide Run, Initial, Ordered, OutputsOrdered, SurfacesRight, Inv, Single, Clean, Ledger, Routed;
    var s := Run(Initial(Vp9, surfaces), schedule);
    ReachedAll(surfaces, schedule);
    if EmitNext(s).Some? && s.routes != [] {
      MisroutesOutOfStep(s);
    }
  }

  /** Some frame of the run took the route of another packet. */
  ghost predicate Misrouted(surfaces: nat, schedule: seq<Action>) {
    exists k :: 0 <= k < |schedule| && Misroutes(Run(Initial(Vp9, surfaces), schedule[..k]), schedule[k])
  }

  lemma MisledStep(s: State, a: Action)
    requires Apply(s, a).Some? && s.codec == Vp9 && Inv(s) && Routed(s) && Single(s)
    ensures Apply(s, a).value.log.misled <==> s.log.misled || Misroutes(s, a)
  {
    hide Inv, Routed, Single, Completed, Failed, Published, Begun, FindSurface, IndexOf, Without, InStep;
    if a.EmitsNext? && s.routes != [] {
      MisroutesOutOfStep(s);
    }
  }

  lemma {:induction false} MisledIffMisrouted(surfaces: nat, schedule: seq<Action>)
    ensures Run(Initial(Vp9, surfaces), schedule).log.misled <==> Misrouted(surfaces, schedule)
  {
    hide Apply, Inv, Routed, Single, Misroutes;
    var n := |schedule|;
    if n > 0 {
      var front, last := schedule[..n - 1], schedule[n - 1];
      var s := Run(Initial(Vp9, surfaces), front);
      MisledIffMisrouted(surfaces, front);
      ReachedAll(surfaces, front);
      assert forall k :: 0 <= k < n - 1 ==> front[..k] == schedule[..k] && front[k] == schedule[k];
      MisroutedFront(surfaces, schedule);
      if Apply(s, last).Some? {
        MisledStep(s, last);
      } else {
        NotTaken(s, last);
      }
    }
  }

  lemma NotTaken(s: State, a: Action)
    requires Apply(s, a).None?
    ensures !Misroutes(s, a)
  {
  }

  lemma MisroutedFront(surfaces: nat, schedule: seq<Action>)
    requires schedule != []
    ensures var front, last := schedule[..|schedule| - 1], schedule[|schedule| - 1];
            Misrouted(surfaces, schedule) <==> Misrouted(surfaces, front) || Misroutes(Run(Initial(Vp9, surfaces), front), last)
  {
    hide Run, Misroutes;
    var front := schedule[..|schedule| - 1];
    assert forall k :: 0 <= k < |front| ==> front[..k] == schedule[..k] && front[k] == schedule[k];
    if k :| 0 <= k < |front| && Misroutes(Run(Initial(Vp9, surfaces), front[..k]), front[k]) {
      assert Misroutes(Run(Initial(Vp9, surfaces), schedule[..k]), schedule[k]);
    }
    if k :| 0 <= k < |schedule| && Misroutes(Run(Initial(Vp9, surfaces), schedule[..k]), schedule[k]) {
      assert k < |front| ==> Misroutes(Run(Initial(Vp9, surfaces), front[..k]), front[k]);
    }
  }

  /**
   For VP9 every published frame was decoded for its surface at the present fence, unless some frame
   of the run took the route of another packet, which takes a stall flush.
   */
  lemma FifoFramesReachTheirSurface(surfaces: nat, schedule: seq<Action>, sid: nat)
    ensures var s := Run(Initial(Vp9, surfaces), schedule);
            && (!Misrouted(surfaces, schedule) && sid < |s.surfaces| && s.surfaces[sid].owner == Ours && s.surfaces[sid].frame.Some? ==>
                  s.surfaces[sid].frame.value < |s.log.outputs| &&
                  s.log.outputs[s.surfaces[sid].frame.value].ref == Ref(sid, s.surfaces[sid].fence))
            && (Misrouted(surfaces, schedule) ==> s.log.flushed)
  {
    hide Run, Initial, Ordered, Ledger, OutputsOrdered, Misrouted, Inv, Single;
    ReachedAll(surfaces, schedule);
    MisledIffMisrouted(surfaces, schedule);
  }

  /** Where acceptance leaves outstanding_frames right: the packet still has its route. */
  lemma AcceptCountsRightIff(surfaces: nat, schedule: seq<Action>, memory: bool)
    ensures var s := Run(Initial(Vp9, surfaces), schedule);
            Accept(s, memory).Some? && PuttingOwnRoute(s.pc) && !s.log.miscounted ==>
              (Accept(s, memory).value.outstanding == |Accept(s, memory).value.routes| <==> s.routes != [])
  {
    hide Run, Initial, Ordered, OutputsOrdered, SurfacesRight, Single, Clean, Known, Covered, PutCovered, Labelled;
    var s := Run(Initial(Vp9, surfaces), schedule);
    ReachedAll(surfaces, schedule);
    if Accept(s, memory).Some? {
      AcceptCounts(s, memory);
    }
  }

  /** A packet is accepted after a late frame took its route. */
  predicate Miscounts(s: State, a: Action) {
    a.Accepts? && Accept(s, a.memory).Some? && RouteTaken(s)
  }

  /** A flush ends, which sets the count to 0, or a packet without a route is refused before the count went up. */
  predicate Recounts(s: State, a: Action) {
    (a.Flushes? && s.pc.Flushing? && s.pc.rest == []) || (a.Refuses? && Refuse(s).Some? && RouteTaken(s))
  }

  lemma MiscountStep(s: State, a: Action)
    requires Apply(s, a).Some? && s.codec == Vp9 && KindOk(s.codec, s.pc)
    ensures Apply(s, a).value.log.miscounted <==> (s.log.miscounted && !Recounts(s, a)) || Miscounts(s, a)
  {
    hide Begun, Completed, Failed, Published, FindSurface, IndexOf, Without, InStep;
  }

  predicate MiscountedAt(surfaces: nat, schedule: seq<Action>, k: nat) {
    && k < |schedule| && Miscounts(Run(Initial(Vp9, surfaces), schedule[..k]), schedule[k])
    && forall j :: k < j < |schedule| ==> !Recounts(Run(Initial(Vp9, surfaces), schedule[..j]), schedule[j])
  }

  /** Some packet of the run was accepted without its route, and nothing has put the count right since. */
  ghost predicate Miscounted(surfaces: nat, schedule: seq<Action>) {
    exists k: nat :: MiscountedAt(surfaces, schedule, k)
  }

  lemma MiscountedFront(surfaces: nat, schedule: seq<Action>)
    requires schedule != []
    ensures var front, last := schedule[..|schedule| - 1], schedule[|schedule| - 1];
            var s := Run(Initial(Vp9, surfaces), front);
            Miscounted(surfaces, schedule) <==> (Miscounted(surfaces, front) && !Recounts(s, last)) || Miscounts(s, last)
  {
    hide Run, Initial, Miscounts, Recounts;
    var n := |schedule| - 1;
    var front := schedule[..n];
    assert forall k :: 0 <= k < n ==> front[..k] == schedule[..k] && front[k] == schedule[k];
    if k: nat :| MiscountedAt(surfaces, schedule, k) {
      assert k < n ==> MiscountedAt(surfaces, front, k);
    }
    if !Recounts(Run(Initial(Vp9, surfaces), front), schedule[n]) {
      if k: nat :| MiscountedAt(surfaces, front, k) {
        assert MiscountedAt(surfaces, schedule, k);
      }
    }
    if Miscounts(Run(Initial(Vp9, surfaces), front), schedule[n]) {
      assert MiscountedAt(surfaces, schedule, n);
    }
  }

  lemma {:induction false} MiscountedIff(surfaces: nat, schedule: seq<Action>)
    ensures Run(Initial(Vp9, surfaces), schedule).log.miscounted <==> Miscounted(surfaces, schedule)
  {
    hide Apply, Inv, Single, Miscounts, Recounts, Miscounted, Ledger, Ordered, OutputsOrdered, Clean, SurfacesRight;
    var n := |schedule|;
    if n > 0 {
      var front, last := schedule[..n - 1], schedule[n - 1];
      var s := Run(Initial(Vp9, surfaces), front);
      MiscountedIff(surfaces, front);
      ReachedAll(surfaces, front);
      MiscountedFront(surfaces, schedule);
      if Apply(s, last).Some? {
        MiscountStep(s, last);
      } else {
        NotCounted(s, last);
      }
    } else {
      NeverMiscounted(surfaces, schedule);
    }
  }

  lemma NotCounted(s: State, a: Action)
    requires Apply(s, a).None?
    ensures !Miscounts(s, a) && !Recounts(s, a)
  {
  }

  lemma NeverMiscounted(surfaces: nat, schedule: seq<Action>)
    requires schedule == []
    ensures !Miscounted(surfaces, schedule)
  {
  }

  /**
   Between two packets of a VP9 run outstanding_frames is the number of routes and of the frame under
   way, unless some packet was accepted after a late frame took its route and no flush has ended and
   no such packet has been refused since; then it is one more.
   */
  lemma OutstandingRightIff(surfaces: nat, schedule: seq<Action>)
    ensures var s := Run(Initial(Vp9, surfaces), schedule);
            var counted := |s.routes| + if s.delivering.Some? then 1 else 0;
            !PuttingOwnRoute(s.pc) && Counting(s) ==> s.outstanding == counted + if Miscounted(surfaces, schedule) then 1 else 0
  {
    hide Run, Initial, Miscounted;
    OutstandingIsRoutes(Vp9, surfaces, schedule);
    MiscountedIff(surfaces, schedule);
  }
}
