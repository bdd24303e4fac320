/**
 No orphan fence: in every reachable state each unsettled fence of the context is in somebody's
 hands, and rk_mpp_dec_stop leaves none behind.
 */
module DecodeCoverage {
  import opened Options
  import opened DecodeState

  // ---------- who holds a fence ----------

  predicate InRoutes(routes: seq<Route>, ref: Ref) {
    exists r :: r in routes && r.ref == ref
  }

  predicate InJobs(jobs: seq<Job>, ref: Ref) {
    exists j :: j in jobs && j.ref == ref
  }

  function RefOf(h: Handoff): Ref {
    match h
    case FailLater(ref) => ref
    case EnqueueLater(job) => job.ref
    case RejectLater(job) => job.ref
  }

  predicate InHandoffs(handoffs: multiset<Handoff>, ref: Ref) {
    exists h :: h in handoffs && RefOf(h) == ref
  }

  predicate InPc(pc: Pc, ref: Ref) {
    match pc
    case Submitting(j) => j.ref == ref
    case Putting(j, _) => j.ref == ref
    case Completing(j, _) => j.ref == ref
    case Flushing(rest) => InRoutes(rest, ref)
    case _ => false
  }

  predicate InDelivery(d: Option<Delivery>, ref: Ref) {
    d.Some? && d.value.route.ref == ref
  }

  /** A queued job, the job or flush in flight, a route, the open render target, or an API call under way. */
  predicate Holds(s: State, ref: Ref) {
    || s.render == Some(ref)
    || InHandoffs(s.handoffs, ref)
    || InJobs(s.queue, ref)
    || InPc(s.pc, ref)
    || InRoutes(s.routes, ref)
    || InDelivery(s.delivering, ref)
  }

  /** The fence is current, issued by this context, and neither decoded nor failed. */
  predicate Unsettled(s: State, ref: Ref) {
    && Current(s, ref)
    && s.surfaces[ref.sid].owner == Ours && !s.surfaces[ref.sid].decoded && !s.surfaces[ref.sid].failed
  }

  /** The context may act for the fence: it was issued, and while it is current it is this context's. */
  predicate Rightful(s: State, ref: Ref) {
    && ref.sid < |s.surfaces|
    && ref.fence <= s.surfaces[ref.sid].fence
    && (ref.fence == s.surfaces[ref.sid].fence ==> s.surfaces[ref.sid].owner == Ours)
  }

  ghost predicate Known(s: State) {
    forall ref :: Holds(s, ref) ==> Rightful(s, ref)
  }

  ghost predicate Covered(s: State) {
    forall ref :: Unsettled(s, ref) ==> Holds(s, ref)
  }

  /** A packet being put for a new route has that route, or its fence was settled meanwhile. */
  predicate PutCovered(s: State) {
    s.pc.Putting? && !s.pc.packet.HiddenFrame? && !s.pc.packet.Continuation? ==>
      InRoutes(s.routes, s.pc.job.ref) || InDelivery(s.delivering, s.pc.job.ref) || !Unsettled(s, s.pc.job.ref)
  }

  /** No API call is left once the teardown starts, nor any worker once it joined. */
  predicate Retired(s: State) {
    && (s.teardown != Running ==> s.handoffs == multiset{})
    && (s.teardown != Running && s.teardown != Draining ==> s.pc == Exited)
    && (s.pc == Exited ==> s.delivering.None?)
    && (s.teardown.SweepRoutes? || s.teardown.SweepRender? || s.teardown.Stopped? ==> s.queue == [])
    && (s.teardown.SweepRender? || s.teardown.Stopped? ==> s.routes == [])
    && (s.teardown.Stopped? ==> s.render.None?)
    && (s.pc.Flushing? ==> s.log.flushed && s.delivering.None? && s.routes == [])
    && (s.delivering.Some? ==> s.pc.Idle? || s.pc.Putting?)
  }

  /** The job the worker is at. */
  function JobAt(pc: Pc): Option<Job> {
    if pc.Submitting? || pc.Putting? || pc.Completing? then Some(pc.job) else None
  }

  predicate Label(issued: map<nat, Ref>, token: nat, ref: Ref) {
    token in issued && issued[token] == ref
  }

  ghost predicate LabelledRoutes(issued: map<nat, Ref>, routes: seq<Route>) {
    forall r :: r in routes ==> Label(issued, r.token, r.ref)
  }

  ghost predicate LabelledJobs(issued: map<nat, Ref>, jobs: seq<Job>) {
    forall j :: j in jobs ==> Label(issued, j.token, j.ref)
  }

  ghost predicate LabelledPc(issued: map<nat, Ref>, pc: Pc) {
    match pc
    case Submitting(j) => Label(issued, j.token, j.ref)
    case Putting(j, packet) =>
      Label(issued, j.token, j.ref) && (packet.Continuation? ==> Label(issued, packet.token, j.ref))
    case Completing(j, _) => Label(issued, j.token, j.ref)
    case _ => true
  }

  ghost predicate LabelledDelivery(issued: map<nat, Ref>, d: Option<Delivery>) {
    d.Some? ==> Label(issued, d.value.route.token, d.value.route.ref)
  }

  ghost predicate Bounded(issued: map<nat, Ref>, last: nat) {
    forall token :: token in issued ==> token <= last
  }

  /** Every job and every route carries a token that was given out for its surface and fence. */
  ghost predicate Labelled(s: State) {
    && Bounded(s.log.issuedFor, s.nextToken)
    && LabelledJobs(s.log.issuedFor, s.queue)
    && LabelledPc(s.log.issuedFor, s.pc)
    && LabelledRoutes(s.log.issuedFor, s.routes)
    && LabelledDelivery(s.log.issuedFor, s.delivering)
  }

  ghost predicate Inv(s: State) {
    Known(s) && Covered(s) && PutCovered(s) && Retired(s) && Labelled(s)
  }

  // ---------- sequences ----------

  lemma RoutesWithout(routes: seq<Route>, i: nat, ref: Ref)
    ensures InRoutes(Without(routes, i), ref) ==> InRoutes(routes, ref)
    ensures InRoutes(routes, ref) ==> InRoutes(Without(routes, i), ref) || (i < |routes| && routes[i].ref == ref)
    ensures i < |routes| && routes[i].ref == ref ==> InRoutes(routes, ref)
  {
    if i < |routes| {
      assert routes == routes[..i] + [routes[i]] + routes[i + 1..];
    }
  }

  lemma RoutesHead(routes: seq<Route>, ref: Ref)
    requires routes != []
    ensures InRoutes(routes, ref) <==> routes[0].ref == ref || InRoutes(routes[1..], ref)
  {
    assert routes == [routes[0]] + routes[1..];
  }

  lemma RoutesCons(r: Route, routes: seq<Route>, ref: Ref)
    ensures InRoutes([r] + routes, ref) <==> r.ref == ref || InRoutes(routes, ref)
    ensures InRoutes(routes + [r], ref) <==> r.ref == ref || InRoutes(routes, ref)
  {
    if r.ref == ref {
      assert r in [r] + routes && r in routes + [r];
    }
    if x :| x in routes && x.ref == ref {
      assert x in [r] + routes && x in routes + [r];
    }
  }

  lemma JobsHead(jobs: seq<Job>, ref: Ref)
    requires jobs != []
    ensures InJobs(jobs, ref) <==> jobs[0].ref == ref || InJobs(jobs[1..], ref)
  {
    assert jobs == [jobs[0]] + jobs[1..];
  }

  lemma JobsSnoc(jobs: seq<Job>, j: Job, ref: Ref)
    ensures InJobs(jobs + [j], ref) <==> j.ref == ref || InJobs(jobs, ref)
  {
    if j.ref == ref {
      assert j in jobs + [j];
    }
    if x :| x in jobs && x.ref == ref {
      assert x in jobs + [j];
    }
  }

  lemma HandoffsAdd(hs: multiset<Handoff>, h: Handoff, ref: Ref)
    ensures InHandoffs(hs + multiset{h}, ref) <==> RefOf(h) == ref || InHandoffs(hs, ref)
  {
    if RefOf(h) == ref {
      assert h in hs + multiset{h};
    }
    if x :| x in hs && RefOf(x) == ref {
      assert x in hs + multiset{h};
    }
  }

  lemma HandoffsDrop(hs: multiset<Handoff>, h: Handoff, ref: Ref)
    requires h in hs
    ensures InHandoffs(hs, ref) <==> RefOf(h) == ref || InHandoffs(hs - multiset{h}, ref)
  {
    assert hs == (hs - multiset{h}) + multiset{h};
    HandoffsAdd(hs - multiset{h}, h, ref);
  }

  lemma FoundInRoutes(routes: seq<Route>, ref: Ref)
    ensures FindSurface(routes, ref).Some? <==> InRoutes(routes, ref)
  {
  }

  // ---------- what a step does to one fence ----------

  /** The fences an action opens. */
  function Opened(s: State, a: Action): Option<Ref>
    requires Apply(s, a).Some?
  {
    if a.BeginPicture? then Apply(s, a).value.render else None
  }

  predicate ApiAction(a: Action) {
    a.BeginPicture? || a.EndPicture? || a.FinishCall? || a.OtherContextBegins? || a.OtherContextTouches?
  }

  predicate SubmitAction(a: Action) {
    a.TakesJob? || a.Starts? || a.Accepts? || a.Refuses? || a.CompletesJob?
  }

  predicate OutputAction(a: Action) {
    a.EmitsToken? || a.EmitsNext? || a.Checks? || a.Delivers?
  }

  predicate Open(x: Surface) {
    x.owner == Ours && !x.decoded && !x.failed
  }

  /** Fences only grow, and at the same fence the owner stays and a settled picture stays settled. */
  predicate Moves(x: Surface, y: Surface) {
    y.fence > x.fence || (y.fence == x.fence && y.owner == x.owner && (Open(y) ==> Open(x)))
  }

  ghost predicate SurfacesMove(s: State, s': State) {
    |s'.surfaces| == |s.surfaces| && forall i :: 0 <= i < |s.surfaces| ==> Moves(s.surfaces[i], s'.surfaces[i])
  }

  /** No fence becomes open. */
  ghost predicate NothingOpens(s: State, s': State) {
    && SurfacesMove(s, s')
    && forall i :: 0 <= i < |s.surfaces| && Open(s'.surfaces[i]) ==> Open(s.surfaces[i]) && s'.surfaces[i].fence == s.surfaces[i].fence
  }

  lemma Settling(s: State, ref: Ref, success: bool, frame: nat)
    ensures NothingOpens(s, Complete(s, ref, success)) && NothingOpens(s, Fail(s, ref)) && NothingOpens(s, Publish(s, ref, frame))
  {
  }

  lemma SameSurfaces(s: State, s': State)
    requires s'.surfaces == s.surfaces
    ensures SurfacesMove(s, s') && NothingOpens(s, s')
  {
  }

  lemma BeginMoves(s: State, sid: nat)
    requires Begin(s, sid).Some?
    ensures SurfacesMove(s, Begin(s, sid).value)
  {
  }

  lemma OthersMove(s: State, sid: nat, decoded: bool, failed: bool, pending: bool)
    ensures OtherBegin(s, sid).Some? ==> NothingOpens(s, OtherBegin(s, sid).value)
    ensures OtherTouch(s, sid, decoded, failed, pending).Some? ==>
              NothingOpens(s, OtherTouch(s, sid, decoded, failed, pending).value)
  {
  }

  lemma EndMoves(s: State, built: Option<Job>)
    requires End(s, built).Some?
    ensures NothingOpens(s, End(s, built).value)
  {
  }

  lemma SurfaceStepApi(s: State, a: Action)
    requires Apply(s, a).Some? && ApiAction(a)
    ensures SurfacesMove(s, Apply(s, a).value)
    ensures !a.BeginPicture? ==> NothingOpens(s, Apply(s, a).value)
  {
    hide Begin, End, OtherBegin, OtherTouch, TakeJob, Start, Accept, Refuse, CompleteJob, EmitToken, EmitNext, Check, Deliver, Stall, FlushOne, Exit, BeginTeardown, Sweep, Complete, Fail;
    match a
    case BeginPicture(sid) => BeginMoves(s, sid);
    case EndPicture(built) => EndMoves(s, built);
    case FinishCall(h) => Settling(s.(handoffs := s.handoffs - multiset{h}), RefOf(h), false, 0);
    case OtherContextBegins(sid) => OthersMove(s, sid, false, false, false);
    case OtherContextTouches(sid, decoded, failed, pending) => OthersMove(s, sid, decoded, failed, pending);
  }

  lemma SurfaceStep(s: State, a: Action)
    requires Apply(s, a).Some?
    ensures SurfacesMove(s, Apply(s, a).value)
    ensures !a.BeginPicture? ==> NothingOpens(s, Apply(s, a).value)
  {
    hide Complete, Fail, Publish, FindSurface, IndexOf, Without, SurfacesMove, NothingOpens, Begin, End, Finish, OtherBegin, OtherTouch;
    match a
    case BeginPicture(_) => SurfaceStepApi(s, a);
    case EndPicture(_) => SurfaceStepApi(s, a);
    case FinishCall(_) => SurfaceStepApi(s, a);
    case OtherContextBegins(_) => SurfaceStepApi(s, a);
    case OtherContextTouches(_, _, _, _) => SurfaceStepApi(s, a);
    case CompletesJob => Settled(s, Complete(s, s.pc.job.ref, s.pc.success), Apply(s, a).value, s.pc.job.ref, s.pc.success, 0);
    case Delivers(usable) =>
      var d := s.delivering.value;
      Settled(s, if usable then Publish(s, d.route.ref, d.frame) else Complete(s, d.route.ref, false),
              Apply(s, a).value, d.route.ref, false, d.frame);
    case Flushes =>
      if s.pc.rest != [] { Settled(s, Fail(s, s.pc.rest[0].ref), Apply(s, a).value, s.pc.rest[0].ref, false, 0); }
      else { SameSurfaces(s, Apply(s, a).value); }
    case Sweeps => SweepMoves(s);
    case _ => SameSurfaces(s, Apply(s, a).value);
  }

  lemma Settled(s: State, mid: State, s': State, ref: Ref, success: bool, frame: nat)
    requires mid == Complete(s, ref, success) || mid == Fail(s, ref) || mid == Publish(s, ref, frame)
    requires s'.surfaces == mid.surfaces
    ensures SurfacesMove(s, s') && NothingOpens(s, s')
  {
    Settling(s, ref, success, frame);
  }

  lemma SweepMoves(s: State)
    requires Sweep(s).Some?
    ensures SurfacesMove(s, Sweep(s).value) && NothingOpens(s, Sweep(s).value)
  {
    hide Fail, SurfacesMove, NothingOpens;
    var s' := Sweep(s).value;
    if s'.surfaces == s.surfaces {
      SameSurfaces(s, s');
    } else {
      var ref := if s.teardown.SweepJobs? then s.queue[0].ref else if s.teardown.SweepRoutes? then s.routes[0].ref else s.render.value;
      Settled(s, Fail(s, ref), s', ref, false, 0);
    }
  }

  lemma FenceKept(s: State, s': State, ref: Ref)
    requires SurfacesMove(s, s') && Rightful(s, ref)
    ensures Rightful(s', ref) && (Unsettled(s', ref) ==> Unsettled(s, ref))
  {
    assert Moves(s.surfaces[ref.sid], s'.surfaces[ref.sid]);
  }

  /**
   Only an opened fence is held that was not held before, and what is held stays held or is
   settled.
   */
  ghost predicate HoldingKept(s: State, s': State, begun: Option<Ref>, ref: Ref) {
    && (Holds(s', ref) ==> Holds(s, ref) || begun == Some(ref))
    && (Holds(s, ref) ==> Holds(s', ref) || !Unsettled(s', ref))
  }

  lemma BeginHolds(s: State, sid: nat, ref: Ref)
    requires Begin(s, sid).Some?
    ensures HoldingKept(s, Begin(s, sid).value, Begin(s, sid).value.render, ref)
  {
    hide InRoutes, InJobs, InHandoffs, InPc, InDelivery, Begun, Unsettled;
    if s.render.Some? { HandoffsAdd(s.handoffs, FailLater(s.render.value), ref); }
    assert s.handoffs + multiset{} == s.handoffs;
  }

  lemma EndHolds(s: State, built: Option<Job>, ref: Ref)
    requires End(s, built).Some?
    ensures HoldingKept(s, End(s, built).value, None, ref)
  {
    hide InRoutes, InJobs, InHandoffs, InPc, InDelivery, Unsettled;
    HandoffsAdd(s.handoffs, if built.Some? then EnqueueLater(built.value) else FailLater(s.render.value), ref);
  }

  lemma FinishHolds(s: State, h: Handoff, ref: Ref)
    requires Finish(s, h).Some?
    ensures HoldingKept(s, Finish(s, h).value, None, ref)
  {
    hide InRoutes, InJobs, InHandoffs, InPc, InDelivery;
    HandoffsDrop(s.handoffs, h, ref);
    if h.EnqueueLater? {
      JobsSnoc(s.queue, h.job.(token := s.nextToken + 1), ref);
      HandoffsAdd(s.handoffs - multiset{h}, RejectLater(h.job), ref);
    }
  }

  lemma ApiStep(s: State, a: Action, ref: Ref)
    requires Apply(s, a).Some? && ApiAction(a)
    ensures HoldingKept(s, Apply(s, a).value, Opened(s, a), ref)
  {
    hide Begin, End, Finish, InRoutes, InJobs, InHandoffs, InPc, InDelivery;
    match a
    case BeginPicture(sid) => BeginHolds(s, sid, ref);
    case EndPicture(built) => EndHolds(s, built, ref);
    case FinishCall(h) => FinishHolds(s, h, ref);
    case _ =>
  }

  lemma AcceptHolds(s: State, memory: bool, ref: Ref)
    requires Accept(s, memory).Some? && PutCovered(s)
    ensures HoldingKept(s, Accept(s, memory).value, None, ref)
  {
    hide InRoutes, InJobs, InHandoffs, FindSurface;
    RoutesCons(Route(s.pc.job.ref, s.pc.job.token), s.routes, ref);
    FoundInRoutes(s.routes, s.pc.job.ref);
    if s.pc.packet.Continuation? { RoutesCons(Route(s.pc.job.ref, s.pc.packet.token), s.routes, ref); }
  }

  lemma SubmitStep(s: State, a: Action, ref: Ref)
    requires Apply(s, a).Some? && SubmitAction(a) && PutCovered(s) && Labelled(s)
    ensures HoldingKept(s, Apply(s, a).value, None, ref)
  {
    hide InRoutes, InJobs, InHandoffs, FindSurface, IndexOf, Without, Accept, PutCovered, Labelled;
    match a
    case TakesJob => JobsHead(s.queue, ref);
    case Starts(_) => RoutesCons(Route(s.pc.job.ref, s.pc.job.token), s.routes, ref);
    case Accepts(memory) => AcceptHolds(s, memory, ref);
    case Refuses => RefuseDrops(s, ref);
    case CompletesJob =>
  }

  /** A refused put takes its job's route, whose fence the job then fails. */
  lemma RefuseDrops(s: State, ref: Ref)
    requires Refuse(s).Some? && Labelled(s)
    ensures InRoutes(Refuse(s).value.routes, ref) ==> InRoutes(s.routes, ref)
    ensures InRoutes(s.routes, ref) ==> InRoutes(Refuse(s).value.routes, ref) || Refuse(s).value.pc.job.ref == ref
  {
    hide InRoutes, Without, LabelledJobs;
    var token := if s.pc.packet.Continuation? then s.pc.packet.token else s.pc.job.token;
    RoutesWithout(s.routes, IndexOf(s.routes, token), ref);
  }

  lemma OutputStep(s: State, a: Action, ref: Ref)
    requires Apply(s, a).Some? && OutputAction(a)
    ensures HoldingKept(s, Apply(s, a).value, None, ref)
  {
    hide Begin, End, Finish, OtherBegin, OtherTouch, TakeJob, Start, Accept, Refuse, CompleteJob, Stall, FlushOne, Exit, BeginTeardown, Sweep, InRoutes, InJobs, InHandoffs, InPc, Without;
    match a
    case EmitsToken(token) => RoutesWithout(s.routes, IndexOf(s.routes, token), ref);
    case EmitsNext => if s.routes != [] { RoutesHead(s.routes, ref); }
    case _ =>
  }

  lemma FlushHolds(s: State, ref: Ref)
    requires FlushOne(s).Some?
    ensures HoldingKept(s, FlushOne(s).value, None, ref)
  {
    hide InRoutes, InJobs, InHandoffs;
    NothingRouted(ref);
    if s.pc.rest != [] { RoutesHead(s.pc.rest, ref); }
  }

  lemma SweepHolds(s: State, ref: Ref)
    requires Sweep(s).Some? && Retired(s)
    ensures HoldingKept(s, Sweep(s).value, None, ref)
  {
    hide InRoutes, InJobs, InHandoffs, InDelivery;
    NothingRouted(ref);
    if s.queue != [] { JobsHead(s.queue, ref); }
    if s.routes != [] { RoutesHead(s.routes, ref); }
  }

  lemma EndingStep(s: State, a: Action, ref: Ref)
    requires Apply(s, a).Some? && !ApiAction(a) && !SubmitAction(a) && !OutputAction(a) && Retired(s)
    ensures HoldingKept(s, Apply(s, a).value, None, ref)
  {
    hide Begin, End, Finish, OtherBegin, OtherTouch, TakeJob, Start, Accept, Refuse, CompleteJob, EmitToken, EmitNext, Check, Deliver, FlushOne, Sweep, InRoutes, InJobs, InHandoffs, InDelivery, Retired;
    NothingRouted(ref);
    match a
    case Flushes => FlushHolds(s, ref);
    case Sweeps => SweepHolds(s, ref);
    case _ =>
  }

  lemma NothingRouted(ref: Ref)
    ensures !InRoutes([], ref) && !InJobs([], ref)
  {
  }

  lemma HoldsStep(s: State, a: Action, ref: Ref)
    requires Apply(s, a).Some? && PutCovered(s) && Retired(s) && Labelled(s)
    ensures HoldingKept(s, Apply(s, a).value, Opened(s, a), ref)
  {
    hide Apply, HoldingKept, PutCovered, Retired, Labelled;
    if ApiAction(a) {
      ApiStep(s, a, ref);
    } else if SubmitAction(a) {
      SubmitStep(s, a, ref);
    } else if OutputAction(a) {
      OutputStep(s, a, ref);
    } else {
      EndingStep(s, a, ref);
    }
  }

  // ---------- the invariant ----------

  /** Whoever holds a fence may act for it. */
  lemma KnownStep(s: State, a: Action)
    requires Apply(s, a).Some? && Inv(s)
    ensures Known(Apply(s, a).value)
  {
    hide Apply, Holds, Rightful, PutCovered, Retired, Labelled, Covered;
    var s' := Apply(s, a).value;
    SurfaceStep(s, a);
    forall ref | Holds(s', ref)
      ensures Rightful(s', ref)
    {
      HoldsStep(s, a, ref);
      if Holds(s, ref) {
        FenceKept(s, s', ref);
      } else {
        OpenedIsRightful(s, a);
      }
    }
  }

  lemma OpenedIsRightful(s: State, a: Action)
    requires Apply(s, a).Some? && Opened(s, a).Some?
    ensures Rightful(Apply(s, a).value, Opened(s, a).value) && Holds(Apply(s, a).value, Opened(s, a).value)
    ensures forall i :: 0 <= i < |s.surfaces| && i != Opened(s, a).value.sid ==> Apply(s, a).value.surfaces[i] == s.surfaces[i]
    ensures Opened(s, a).value.sid < |s.surfaces| == |Apply(s, a).value.surfaces|
    ensures Current(Apply(s, a).value, Opened(s, a).value)
  {
  }

  /** Only rk_BeginPicture of this context makes a fence open. */
  lemma OpensOnlyByBegin(s: State, a: Action, ref: Ref)
    requires Apply(s, a).Some? && Unsettled(Apply(s, a).value, ref)
    ensures Unsettled(s, ref) || Opened(s, a) == Some(ref)
  {
    SurfaceStep(s, a);
    if a.BeginPicture? {
      OpenedIsRightful(s, a);
    } else {
      StillOpen(s, Apply(s, a).value, ref);
    }
  }

  lemma StillOpen(s: State, s': State, ref: Ref)
    requires NothingOpens(s, s') && Unsettled(s', ref)
    ensures Unsettled(s, ref)
  {
  }

  lemma CoveredStep(s: State, a: Action)
    requires Apply(s, a).Some? && Inv(s)
    ensures Covered(Apply(s, a).value)
  {
    hide Apply, Holds, Rightful, Unsettled, PutCovered, Retired, Labelled, Known, Opened;
    var s' := Apply(s, a).value;
    forall ref | Unsettled(s', ref)
      ensures Holds(s', ref)
    {
      OpensOnlyByBegin(s, a, ref);
      if Unsettled(s, ref) {
        HoldsStep(s, a, ref);
      } else {
        OpenedIsRightful(s, a);
      }
    }
  }

  /** The route of a packet being put is only taken to be delivered, and then its fence is settled. */
  lemma PutCoveredStep(s: State, a: Action)
    requires Apply(s, a).Some? && Inv(s)
    ensures PutCovered(Apply(s, a).value)
  {
    hide InRoutes, InJobs, InHandoffs, Known, Covered, Labelled, Without, IndexOf, Unsettled, FindSurface, Holds;
    var s' := Apply(s, a).value;
    if s'.pc.Putting? {
      var ref := s'.pc.job.ref;
      SurfaceStep(s, a);
      if ApiAction(a) {
        ApiKeepsWorker(s, a);
        PcIsRightful(s);
        FenceKept(s, s', ref);
      } else if Unsettled(s', ref) {
        StillOpen(s, s', ref);
        PutCoveredByWorker(s, a, ref);
      }
    }
  }

  /** Steps behind which no packet is being put. */
  lemma NoPut(s: State, a: Action)
    requires Apply(s, a).Some? && Retired(s)
    requires a.TakesJob? || a.Refuses? || a.CompletesJob? || a.Stalls? || a.Flushes? || a.Sweeps?
    ensures !Apply(s, a).value.pc.Putting?
  {
    hide Begin, End, Finish, OtherBegin, OtherTouch, Start, Accept, EmitToken, EmitNext, Check, Deliver, Exit, BeginTeardown,
      Completed, Failed, IndexOf, Without;
  }

  lemma PutCoveredByOutput(s: State, a: Action, ref: Ref)
    requires Apply(s, a).Some? && OutputAction(a) && PutCovered(s)
    requires var s' := Apply(s, a).value; s'.pc.Putting? && s'.pc.job.ref == ref && Unsettled(s', ref) && Unsettled(s, ref)
    ensures PutCovered(Apply(s, a).value)
  {
    hide Begin, End, Finish, OtherBegin, OtherTouch, TakeJob, Start, Accept, Refuse, CompleteJob, Stall, FlushOne, Exit, BeginTeardown, Sweep, InRoutes, Without, IndexOf;
    match a
    case EmitsToken(token) => RoutesWithout(s.routes, IndexOf(s.routes, token), ref);
    case EmitsNext => if s.routes != [] { RoutesHead(s.routes, ref); }
    case _ =>
  }

  lemma PutCoveredByWorker(s: State, a: Action, ref: Ref)
    requires Apply(s, a).Some? && !ApiAction(a) && PutCovered(s) && Retired(s)
    requires var s' := Apply(s, a).value; s'.pc.Putting? && s'.pc.job.ref == ref && Unsettled(s', ref) && Unsettled(s, ref)
    ensures PutCovered(Apply(s, a).value)
  {
    hide Begin, End, Finish, OtherBegin, OtherTouch, TakeJob, Refuse, CompleteJob, EmitToken, EmitNext, Check, Deliver, Stall, FlushOne, Sweep, InRoutes, FindSurface, Retired;
    match a
    case Starts(_) => RoutesCons(Route(ref, s.pc.job.token), s.routes, ref);
    case Accepts(_) => RoutesCons(Route(ref, s.pc.job.token), s.routes, ref);
    case TakesJob => NoPut(s, a);
    case Refuses => NoPut(s, a);
    case CompletesJob => NoPut(s, a);
    case Stalls => NoPut(s, a);
    case Flushes => NoPut(s, a);
    case Sweeps => NoPut(s, a);
    case _ => if OutputAction(a) { PutCoveredByOutput(s, a, ref); }
  }

  lemma ApiKeepsWorker(s: State, a: Action)
    requires Apply(s, a).Some? && ApiAction(a)
    ensures var s' := Apply(s, a).value;
            s'.pc == s.pc && s'.routes == s.routes && s'.delivering == s.delivering && s'.outstanding == s.outstanding
  {
  }

  lemma PcIsRightful(s: State)
    requires Known(s) && JobAt(s.pc).Some?
    ensures Rightful(s, s.pc.job.ref)
  {
    assert Holds(s, s.pc.job.ref);
  }

  lemma OnlySurfaces(s: State, ref: Ref, success: bool, frame: nat)
    ensures Complete(s, ref, success) == s.(surfaces := Complete(s, ref, success).surfaces)
    ensures Fail(s, ref) == s.(surfaces := Fail(s, ref).surfaces)
    ensures Publish(s, ref, frame) == s.(surfaces := Publish(s, ref, frame).surfaces)
  {
  }

  lemma RetiredApi(s: State, a: Action)
    requires Apply(s, a).Some? && ApiAction(a) && Retired(s)
    ensures Retired(Apply(s, a).value)
  {
    hide TakeJob, Start, Accept, Refuse, CompleteJob, EmitToken, EmitNext, Check, Deliver, Stall, FlushOne, Exit, BeginTeardown, Sweep,
      Completed, Failed, Begun;
    if a.FinishCall? {
      assert a.handoff in s.handoffs;
    }
  }

  lemma RetiredSubmit(s: State, a: Action)
    requires Apply(s, a).Some? && SubmitAction(a) && Retired(s)
    ensures Retired(Apply(s, a).value)
  {
    hide Begin, End, Finish, OtherBegin, OtherTouch, EmitToken, EmitNext, Check, Deliver, Stall, FlushOne, Exit, BeginTeardown, Sweep,
      Completed, FindSurface, IndexOf, Without;
  }

  lemma RetiredOutput(s: State, a: Action)
    requires Apply(s, a).Some? && OutputAction(a) && Retired(s)
    ensures Retired(Apply(s, a).value)
  {
    hide Begin, End, Finish, OtherBegin, OtherTouch, TakeJob, Start, Accept, Refuse, CompleteJob, Stall, FlushOne, Exit, BeginTeardown, Sweep,
      Completed, Published, IndexOf, Without;
  }

  lemma RetiredSweep(s: State)
    requires Sweep(s).Some? && Retired(s)
    ensures Retired(Sweep(s).value)
  {
    hide Failed;
  }

  lemma RetiredStep(s: State, a: Action)
    requires Apply(s, a).Some? && Retired(s)
    ensures Retired(Apply(s, a).value)
  {
    hide Begin, End, Finish, OtherBegin, OtherTouch, TakeJob, Start, Accept, Refuse, CompleteJob, EmitToken, EmitNext, Check, Deliver, Sweep, Failed;
    if ApiAction(a) {
      RetiredApi(s, a);
    } else if SubmitAction(a) {
      RetiredSubmit(s, a);
    } else if OutputAction(a) {
      RetiredOutput(s, a);
    } else if a.Sweeps? {
      RetiredSweep(s);
    }
  }

  lemma LabelledSub(issued: map<nat, Ref>, routes: seq<Route>, i: nat)
    requires LabelledRoutes(issued, routes) && i < |routes|
    ensures LabelledRoutes(issued, Without(routes, i)) && LabelledRoutes(issued, routes[1..]) && LabelledRoutes(issued, [])
    ensures Label(issued, routes[i].token, routes[i].ref) && Label(issued, routes[0].token, routes[0].ref)
  {
  }

  lemma LabelledCons(issued: map<nat, Ref>, r: Route, routes: seq<Route>)
    requires LabelledRoutes(issued, routes) && Label(issued, r.token, r.ref)
    ensures LabelledRoutes(issued, [r] + routes) && LabelledRoutes(issued, routes + [r])
  {
  }

  lemma LabelledFound(issued: map<nat, Ref>, routes: seq<Route>, ref: Ref)
    requires LabelledRoutes(issued, routes) && FindSurface(routes, ref).Some?
    ensures Label(issued, FindSurface(routes, ref).value.token, ref)
  {
  }

  lemma LabelledHead(issued: map<nat, Ref>, jobs: seq<Job>)
    requires LabelledJobs(issued, jobs) && jobs != []
    ensures Label(issued, jobs[0].token, jobs[0].ref) && LabelledJobs(issued, jobs[1..])
  {
  }

  /** A new token leaves the old ones alone. */
  lemma LabelledEnqueue(s: State, j: Job)
    requires Labelled(s) && j.token == s.nextToken + 1
    ensures Labelled(s.(nextToken := j.token, queue := s.queue + [j], log := s.log.(issuedFor := s.log.issuedFor[j.token := j.ref], jobs := s.log.jobs + {j})))
  {
  }

  lemma LabelledApi(s: State, a: Action)
    requires Apply(s, a).Some? && ApiAction(a) && Labelled(s)
    ensures Labelled(Apply(s, a).value)
  {
    hide Fail, Complete, Begun, Label, LabelledJobs, LabelledPc, LabelledRoutes, LabelledDelivery, Bounded;
    match a
    case FinishCall(h) =>
      var mid := s.(handoffs := s.handoffs - multiset{h});
      OnlySurfaces(mid, RefOf(h), false, 0);
      if h.EnqueueLater? {
        LabelledEnqueue(mid, h.job.(token := s.nextToken + 1));
      }
    case _ =>
  }

  lemma LabelledSubmit(s: State, a: Action)
    requires Apply(s, a).Some? && SubmitAction(a) && Labelled(s)
    ensures Labelled(Apply(s, a).value)
  {
    hide Complete, IndexOf, Without, FindSurface, Label, LabelledJobs, LabelledRoutes, LabelledDelivery, Bounded;
    match a
    case TakesJob => LabelledHead(s.log.issuedFor, s.queue);
    case Starts(_) =>
      var j := s.pc.job;
      LabelledCons(s.log.issuedFor, Route(j.ref, j.token), s.routes);
      if FindSurface(s.routes, j.ref).Some? {
        LabelledFound(s.log.issuedFor, s.routes, j.ref);
      }
    case Accepts(_) =>
      var j := s.pc.job;
      LabelledCons(s.log.issuedFor, Route(j.ref, j.token), s.routes);
      if s.pc.packet.Continuation? { LabelledCons(s.log.issuedFor, Route(j.ref, s.pc.packet.token), s.routes); }
    case Refuses =>
      var i := IndexOf(s.routes, if s.pc.packet.Continuation? then s.pc.packet.token else s.pc.job.token);
      if i < |s.routes| { LabelledSub(s.log.issuedFor, s.routes, i); } else { WithoutNone(s.routes, i); }
    case CompletesJob => OnlySurfaces(s, s.pc.job.ref, s.pc.success, 0);
  }

  lemma WithoutNone(routes: seq<Route>, i: nat)
    requires i >= |routes|
    ensures Without(routes, i) == routes
  {
  }

  lemma LabelledSweep(s: State)
    requires Sweep(s).Some? && Labelled(s)
    ensures Labelled(Sweep(s).value)
  {
    hide Failed, Label, LabelledJobs, LabelledRoutes, LabelledPc, LabelledDelivery, Bounded;
    if s.queue != [] { LabelledHead(s.log.issuedFor, s.queue); }
    if s.routes != [] { LabelledSub(s.log.issuedFor, s.routes, 0); }
  }

  lemma LabelledStep(s: State, a: Action)
    requires Apply(s, a).Some? && Labelled(s)
    ensures Labelled(Apply(s, a).value)
  {
    hide Begin, End, Finish, OtherBegin, OtherTouch, TakeJob, Start, Accept, Refuse, CompleteJob, Sweep,
      Failed, Published, Completed, IndexOf, Without, Label, LabelledJobs, LabelledRoutes, Bounded;
    if ApiAction(a) {
      LabelledApi(s, a);
    } else if SubmitAction(a) {
      LabelledSubmit(s, a);
    } else if a.Sweeps? {
      LabelledSweep(s);
    } else {
      if s.routes != [] { LabelledSub(s.log.issuedFor, s.routes, 0); }
      if a.EmitsToken? {
        var i := IndexOf(s.routes, a.token);
        if i < |s.routes| { LabelledSub(s.log.issuedFor, s.routes, i); }
      }
    }
  }

  lemma InvStep(s: State, a: Action)
    requires Apply(s, a).Some? && Inv(s)
    ensures Inv(Apply(s, a).value)
  {
    hide Apply, Known, Covered, PutCovered, Retired, Labelled;
    KnownStep(s, a);
    CoveredStep(s, a);
    PutCoveredStep(s, a);
    RetiredStep(s, a);
    LabelledStep(s, a);
  }

  lemma {:induction false} Reachable(codec: Codec, surfaces: nat, schedule: seq<Action>)
    ensures Inv(Run(Initial(codec, surfaces), schedule))
  {
    hide Apply, Inv;
    if |schedule| == 0 {
      InitialInv(codec, surfaces);
    } else {
      var front, last := schedule[..|schedule| - 1], schedule[|schedule| - 1];
      Reachable(codec, surfaces, front);
      if Apply(Run(Initial(codec, surfaces), front), last).Some? {
        InvStep(Run(Initial(codec, surfaces), front), last);
      }
    }
  }

  lemma InitialInv(codec: Codec, surfaces: nat)
    ensures Inv(Initial(codec, surfaces))
  {
  }

  // ---------- theorems ----------

  /**
   No orphan fence: whatever the schedule, a surface whose current fence this context issued is
   decoded, failed, or held by a queued job, the job or flush in flight, a route, a frame being
   delivered, the open render target, or an API call under way.
   */
  lemma NoOrphanFence(codec: Codec, surfaces: nat, schedule: seq<Action>, sid: nat)
    ensures var s := Run(Initial(codec, surfaces), schedule);
            sid < |s.surfaces| && s.surfaces[sid].owner == Ours ==>
              s.surfaces[sid].decoded || s.surfaces[sid].failed || Holds(s, Ref(sid, s.surfaces[sid].fence))
  {
    hide Run, Initial, Holds, Known, PutCovered, Retired, Labelled;
    Reachable(codec, surfaces, schedule);
    var s := Run(Initial(codec, surfaces), schedule);
    if sid < |s.surfaces| {
      assert Unsettled(s, Ref(sid, s.surfaces[sid].fence)) ==> Holds(s, Ref(sid, s.surfaces[sid].fence));
    }
  }

  /** Once rk_mpp_dec_stop has returned, every fence of the context is settled or superseded. */
  lemma StopSettlesEverything(codec: Codec, surfaces: nat, schedule: seq<Action>, sid: nat)
    requires Run(Initial(codec, surfaces), schedule).teardown == Stopped
    ensures var s := Run(Initial(codec, surfaces), schedule);
            sid < |s.surfaces| && s.surfaces[sid].owner == Ours ==> s.surfaces[sid].decoded || s.surfaces[sid].failed
  {
    hide Run, Initial, Known, PutCovered, Labelled;
    Reachable(codec, surfaces, schedule);
    NoOrphanFence(codec, surfaces, schedule, sid);
    var s := Run(Initial(codec, surfaces), schedule);
    if sid < |s.surfaces| {
      NobodyHolds(s, Ref(sid, s.surfaces[sid].fence));
    }
  }

  lemma NobodyHolds(s: State, ref: Ref)
    requires Retired(s) && s.teardown == Stopped
    ensures !Holds(s, ref)
  {
    assert s.handoffs == multiset{};
  }
}
