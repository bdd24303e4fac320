/**
 The worker's books over every run: which routes it keeps, how many frames it counts as outstanding,
 and which surface the frames reach that carry a token.  DecodeFifo tells what the order of the
 routes alone is worth for VP9.
 */
module DecodeRouting {
  import opened Options
  import opened DecodeState
  import opened DecodeCoverage

  /** The route of the packet being put: new token routes go in front, generic ones behind, where a late frame may take it. */
  predicate OwnRoute(pc: Pc, routes: seq<Route>) {
    PuttingOwnRoute(pc) ==>
      if pc.packet.Fresh? then routes != [] && routes[0] == Route(pc.job.ref, pc.job.token)
      else routes == [] || routes[|routes| - 1] == Route(pc.job.ref, pc.job.token)
  }

  predicate QueueOrdered(queue: seq<Job>, last: nat) {
    && (forall i, j :: 0 <= i < j < |queue| ==> queue[i].token < queue[j].token)
    && (forall i :: 0 <= i < |queue| ==> queue[i].token <= last)
  }

  /** `token` comes behind every accepted one and before the queue. */
  predicate Between(accepted: set<nat>, token: nat, queue: seq<Job>) {
    && (forall t :: t in accepted ==> t < token)
    && (forall i :: 0 <= i < |queue| ==> token < queue[i].token)
  }

  predicate AcceptedBefore(accepted: set<nat>, last: nat, queue: seq<Job>) {
    && (forall t :: t in accepted ==> t <= last)
    && (forall t, i :: t in accepted && 0 <= i < |queue| ==> t < queue[i].token)
  }

  predicate JobOrdered(pc: Pc, accepted: set<nat>, last: nat, queue: seq<Job>) {
    && (pc.Submitting? || pc.Putting? ==> Between(accepted, pc.job.token, queue) && pc.job.token <= last)
    && (pc.Putting? && pc.packet.Continuation? ==> pc.packet.token in accepted)
  }

  /** Tokens in use: accepted ones, then the job at hand, then the queue in order. */
  predicate Ordered(s: State) {
    && QueueOrdered(s.queue, s.nextToken)
    && AcceptedBefore(s.log.accepted, s.nextToken, s.queue)
    && JobOrdered(s.pc, s.log.accepted, s.nextToken, s.queue)
  }

  predicate BacklogAccepted(pc: Pc, routes: seq<Route>, accepted: set<nat>) {
    forall r :: r in Backlog(pc, routes) ==> r.token in accepted
  }

  /** The packet kinds belong to their codecs. */
  predicate KindOk(codec: Codec, pc: Pc) {
    pc.Putting? ==> (codec != Vp9 <==> pc.packet.Fresh? || pc.packet.Continuation?)
  }

  /** The routes are still the worker's to count. */
  predicate Counting(s: State) {
    !s.pc.Flushing? && (s.teardown.Running? || s.teardown.Draining? || s.teardown.SweepJobs?)
  }

  /** What outstanding_frames should be, and is: `miscounted` tells when it is one too many. */
  function Owed(s: State): nat {
    if RouteTaken(s) then if s.delivering.Some? && s.log.miscounted then 1 else 0
    else |Backlog(s.pc, s.routes)| + (if s.delivering.Some? then 1 else 0) + (if s.log.miscounted then 1 else 0)
  }

  /** VP9: the routes of accepted packets are those of the newest shown ones, in order. */
  ghost predicate Newest(s: State) {
    var backlog, outputs := Backlog(s.pc, s.routes), s.log.outputs;
    |backlog| + s.log.emitted <= |outputs| && backlog == outputs[|outputs| - |backlog|..]
  }

  /** The worker's books, with and without stall flushes. */
  ghost predicate Ledger(s: State) {
    && OwnRoute(s.pc, s.routes)
    && BacklogAccepted(s.pc, s.routes, s.log.accepted)
    && s.outstanding == Owed(s)
    && (s.codec == Vp9 ==> Newest(s))
  }

  /** The shown packets in the order of their tokens; `issued` and `accepted` know them all. */
  ghost predicate OutputsOrdered(log: Log) {
    && log.emitted <= |log.outputs|
    && (forall i, j :: 0 <= i < j < |log.outputs| ==> log.outputs[i].token < log.outputs[j].token)
    && (forall i :: 0 <= i < |log.outputs| ==>
          log.outputs[i].token in log.accepted && Label(log.issuedFor, log.outputs[i].token, log.outputs[i].ref))
  }

  /** Tokens never mislead, nor does the order of the routes before the first stall flush. */
  predicate Clean(s: State) {
    && (TokenRouted(s) || !s.log.flushed ==> !s.log.misled && !s.log.miscounted)
    && (!TokenRouted(s) && !s.log.flushed && Counting(s) ==> InStep(s) && !RouteTaken(s))
  }

  /** The frame belongs to a packet submitted for that surface and fence. */
  predicate FrameOf(s: State, frame: nat, ref: Ref) {
    if TokenRouted(s) then frame in s.log.accepted && Label(s.log.issuedFor, frame, ref)
    else frame < |s.log.outputs| && s.log.outputs[frame].ref == ref
  }

  predicate DeliveryRight(s: State) {
    s.delivering.Some? ==> FrameOf(s, s.delivering.value.frame, s.delivering.value.route.ref)
  }

  /** Every frame a surface shows was decoded for that surface at its present fence. */
  predicate SurfacesRight(s: State) {
    forall i :: 0 <= i < |s.surfaces| && s.surfaces[i].owner == Ours && s.surfaces[i].frame.Some? ==>
      FrameOf(s, s.surfaces[i].frame.value, Ref(i, s.surfaces[i].fence))
  }

  ghost predicate Routed(s: State) {
    && Ordered(s) && KindOk(s.codec, s.pc) && OutputsOrdered(s.log)
    && (Counting(s) ==> Ledger(s))
    && Clean(s)
    && (!s.log.misled ==> DeliveryRight(s) && SurfacesRight(s))
  }

  /** The worker only gets to a job while its routes count. */
  lemma BusyCounts(s: State)
    requires Retired(s) && (s.pc.Submitting? || s.pc.Putting? || s.pc.Idle? || s.pc.Completing? || s.delivering.Some?)
    ensures Counting(s)
  {
  }

  // ---------- tokens stay in order ----------

  lemma EnqueueOrdered(s: State, j: Job)
    requires Ordered(s) && j.token == s.nextToken + 1
    ensures Ordered(s.(nextToken := j.token, queue := s.queue + [j], log := s.log.(issuedFor := s.log.issuedFor[j.token := j.ref], jobs := s.log.jobs + {j})))
  {
  }

  lemma OrderedApi(s: State, a: Action)
    requires Apply(s, a).Some? && ApiAction(a) && Ordered(s)
    ensures Ordered(Apply(s, a).value)
  {
    hide Fail, Complete, Begun, QueueOrdered, AcceptedBefore, JobOrdered;
    if a.FinishCall? {
      var mid := s.(handoffs := s.handoffs - multiset{a.handoff});
      OnlySurfaces(mid, RefOf(a.handoff), false, 0);
      if a.handoff.EnqueueLater? {
        EnqueueOrdered(mid, a.handoff.job.(token := s.nextToken + 1));
      }
    }
  }

  lemma TakeOrdered(s: State)
    requires TakeJob(s).Some? && Ordered(s)
    ensures Ordered(TakeJob(s).value) && KindOk(s.codec, TakeJob(s).value.pc)
  {
  }

  lemma StartOrdered(s: State, memory: bool)
    requires Start(s, memory).Some? && Ordered(s) && Retired(s) && (Counting(s) ==> Ledger(s))
    ensures Ordered(Start(s, memory).value) && KindOk(s.codec, Start(s, memory).value.pc)
  {
    hide FindSurface, QueueOrdered, AcceptedBefore, Between;
    var paired := FindSurface(s.routes, s.pc.job.ref);
    BusyCounts(s);
    if TokenRouted(s) && paired.Some? {
      assert paired.value in Backlog(s.pc, s.routes);
    }
  }

  lemma AcceptOrdered(s: State, memory: bool)
    requires Accept(s, memory).Some? && Ordered(s) && KindOk(s.codec, s.pc)
    ensures Ordered(Accept(s, memory).value) && KindOk(s.codec, Accept(s, memory).value.pc)
  {
    hide FindSurface, QueueOrdered;
    assert Between(s.log.accepted, s.pc.job.token, s.queue);
  }

  lemma OrderedStep(s: State, a: Action)
    requires Apply(s, a).Some? && Ordered(s) && KindOk(s.codec, s.pc) && Retired(s) && (Counting(s) ==> Ledger(s))
    ensures Ordered(Apply(s, a).value) && KindOk(s.codec, Apply(s, a).value.pc)
  {
    hide Fail, Complete, Publish, Begin, End, Finish, OtherBegin, OtherTouch, Start, Accept, TakeJob, IndexOf, Without, QueueOrdered,
      AcceptedBefore, Between, Ledger, Counting;
    match a
    case TakesJob => TakeOrdered(s);
    case Starts(memory) => StartOrdered(s, memory);
    case Accepts(memory) => AcceptOrdered(s, memory);
    case CompletesJob => OnlySurfaces(s, s.pc.job.ref, s.pc.success, 0);
    case Delivers(_) => OnlySurfaces(s, s.delivering.value.route.ref, false, s.delivering.value.frame);
    case Flushes => if s.pc.rest != [] { OnlySurfaces(s, s.pc.rest[0].ref, false, 0); }
    case Sweeps => OrderedSweep(s);
    case Refuses =>
    case EmitsToken(_) =>
    case EmitsNext =>
    case Checks =>
    case Stalls =>
    case Exits =>
    case TearsDown =>
    case _ =>
      OrderedApi(s, a);
      ApiKeepsWorker(s, a);
  }

  lemma OrderedSweep(s: State)
    requires Sweep(s).Some? && Ordered(s) && Retired(s)
    ensures Ordered(Sweep(s).value) && Sweep(s).value.pc == s.pc
  {
    hide Fail, AcceptedBefore;
    assert s.pc == Exited;
    if s.queue != [] {
      OnlySurfaces(s, s.queue[0].ref, false, 0);
      TailBehind(s.log.accepted, s.nextToken, s.queue);
    }
    if s.routes != [] { OnlySurfaces(s, s.routes[0].ref, false, 0); }
    if s.render.Some? { OnlySurfaces(s, s.render.value, false, 0); }
  }

  lemma TailBehind(accepted: set<nat>, last: nat, queue: seq<Job>)
    requires AcceptedBefore(accepted, last, queue) && queue != []
    ensures AcceptedBefore(accepted, last, queue[1..])
  {
  }

  // ---------- frames keep their meaning ----------

  /** Nothing that was accepted, shown or labelled is forgotten. */
  ghost predicate Remembers(s: State, s': State) {
    && s'.codec == s.codec && s.log.accepted <= s'.log.accepted
    && KeepsLabels(s.log.issuedFor, s'.log.issuedFor)
    && (s'.log.outputs == s.log.outputs || exists r :: s'.log.outputs == s.log.outputs + [r])
    && (s'.log.emitted == s.log.emitted || (s'.log.emitted == s.log.emitted + 1 <= |s.log.outputs|))
    && (s.log.flushed ==> s'.log.flushed) && (s.log.misled ==> s'.log.misled)
  }

  ghost predicate KeepsLabels(issued: map<nat, Ref>, issued': map<nat, Ref>) {
    forall t, ref :: Label(issued, t, ref) ==> Label(issued', t, ref)
  }

  lemma RemembersFinish(s: State, h: Handoff)
    requires Finish(s, h).Some? && Bounded(s.log.issuedFor, s.nextToken)
    ensures Remembers(s, Finish(s, h).value)
  {
    hide Failed, Completed;
  }

  lemma RemembersApi(s: State, a: Action)
    requires Apply(s, a).Some? && ApiAction(a) && Labelled(s)
    ensures Remembers(s, Apply(s, a).value)
  {
    hide Finish, TakeJob, Start, Accept, Refuse, CompleteJob, EmitToken, EmitNext, Check, Deliver, Stall, FlushOne, Exit, BeginTeardown, Sweep,
      Begun, Bounded, LabelledJobs, LabelledRoutes, LabelledPc, LabelledDelivery;
    if a.FinishCall? {
      RemembersFinish(s, a.handoff);
    }
  }

  lemma RemembersSubmit(s: State, a: Action)
    requires Apply(s, a).Some? && SubmitAction(a)
    ensures Remembers(s, Apply(s, a).value)
  {
    hide Begin, End, Finish, OtherBegin, OtherTouch, EmitToken, EmitNext, Check, Deliver, Stall, FlushOne, Exit, BeginTeardown, Sweep,
      FindSurface, IndexOf, Without, Completed;
  }

  lemma RemembersOutput(s: State, a: Action)
    requires Apply(s, a).Some? && OutputAction(a)
    ensures Remembers(s, Apply(s, a).value)
  {
    hide Begin, End, Finish, OtherBegin, OtherTouch, TakeJob, Start, Accept, Refuse, CompleteJob, Stall, FlushOne, Exit, BeginTeardown, Sweep,
      IndexOf, Without, Completed, Published;
  }

  lemma RemembersSweep(s: State)
    requires Sweep(s).Some?
    ensures Remembers(s, Sweep(s).value)
  {
    hide Failed;
  }

  lemma RemembersEnding(s: State, a: Action)
    requires Apply(s, a).Some? && !ApiAction(a) && !SubmitAction(a) && !OutputAction(a)
    ensures Remembers(s, Apply(s, a).value)
  {
    hide Begin, End, Finish, OtherBegin, OtherTouch, TakeJob, Start, Accept, Refuse, CompleteJob, EmitToken, EmitNext, Check, Deliver, Sweep, Failed;
    if a.Sweeps? {
      RemembersSweep(s);
    }
  }

  lemma RemembersStep(s: State, a: Action)
    requires Apply(s, a).Some? && Labelled(s)
    ensures Remembers(s, Apply(s, a).value)
  {
    hide Apply, Remembers, Labelled;
    if ApiAction(a) {
      RemembersApi(s, a);
    } else if SubmitAction(a) {
      RemembersSubmit(s, a);
    } else if OutputAction(a) {
      RemembersOutput(s, a);
    } else {
      RemembersEnding(s, a);
    }
  }

  lemma FrameKept(s: State, s': State, frame: nat, ref: Ref)
    requires Remembers(s, s') && FrameOf(s, frame, ref)
    ensures FrameOf(s', frame, ref)
  {
  }

  /** Only an accepted packet adds to the shown ones. */
  lemma OutputsStay(s: State, a: Action)
    requires Apply(s, a).Some? && !a.Accepts?
    ensures Apply(s, a).value.log.outputs == s.log.outputs
  {
    hide Completed, Failed, Published, Begun, FindSurface, IndexOf, Without;
  }

  lemma AcceptOutputs(s: State, memory: bool)
    requires Accept(s, memory).Some? && Ordered(s) && Labelled(s) && OutputsOrdered(s.log)
    ensures OutputsOrdered(Accept(s, memory).value.log)
  {
    hide FindSurface, QueueOrdered, AcceptedBefore, LabelledRoutes, LabelledJobs, LabelledDelivery, Bounded;
    assert Between(s.log.accepted, s.pc.job.token, s.queue);
  }

  lemma OutputsKept(log: Log, log': Log)
    requires OutputsOrdered(log) && log'.outputs == log.outputs && log.accepted <= log'.accepted
    requires log'.emitted <= |log.outputs| && KeepsLabels(log.issuedFor, log'.issuedFor)
    ensures OutputsOrdered(log')
  {
  }

  lemma OutputsStep(s: State, a: Action)
    requires Apply(s, a).Some? && Ordered(s) && Labelled(s) && OutputsOrdered(s.log)
    ensures OutputsOrdered(Apply(s, a).value.log)
  {
    hide Begin, End, Finish, OtherBegin, OtherTouch, TakeJob, Start, Accept, Refuse, CompleteJob, EmitToken, EmitNext, Check, Deliver, Stall, FlushOne, Exit,
      BeginTeardown, Sweep, Ordered, Labelled, OutputsOrdered, KeepsLabels;
    if a.Accepts? {
      AcceptOutputs(s, a.memory);
    } else {
      RemembersStep(s, a);
      OutputsStay(s, a);
      EmittedBound(s.log);
      OutputsKept(s.log, Apply(s, a).value.log);
    }
  }

  lemma EmittedBound(log: Log)
    requires OutputsOrdered(log)
    ensures log.emitted <= |log.outputs|
  {
  }

  // ---------- routes and counts ----------

  lemma StartBacklog(s: State, memory: bool)
    requires Start(s, memory).Some?
    ensures var s' := Start(s, memory).value; Backlog(s'.pc, s'.routes) == Backlog(s.pc, s.routes) && OwnRoute(s'.pc, s'.routes) && !RouteTaken(s')
  {
    hide FindSurface;
    var r := Route(s.pc.job.ref, s.pc.job.token);
    assert ([r] + s.routes)[1..] == s.routes;
    assert (s.routes + [r])[..|s.routes|] == s.routes;
  }

  lemma StartLedger(s: State, memory: bool)
    requires Start(s, memory).Some? && Ledger(s)
    ensures Ledger(Start(s, memory).value)
  {
    hide FindSurface, Backlog, OwnRoute;
    StartBacklog(s, memory);
  }

  lemma AcceptOwnLedger(s: State, memory: bool)
    requires Accept(s, memory).Some? && Ledger(s) && PuttingOwnRoute(s.pc) && KindOk(s.codec, s.pc)
    ensures Ledger(Accept(s, memory).value)
  {
    hide FindSurface;
    var j := s.pc.job;
    if s.pc.packet.Fresh? {
      assert s.routes == [Route(j.ref, j.token)] + Backlog(s.pc, s.routes);
    } else if s.routes != [] {
      assert s.routes == Backlog(s.pc, s.routes) + [Route(j.ref, j.token)];
    }
  }

  lemma AcceptLedger(s: State, memory: bool)
    requires Accept(s, memory).Some? && Ledger(s) && KindOk(s.codec, s.pc) && JobOrdered(s.pc, s.log.accepted, s.nextToken, s.queue)
    ensures Ledger(Accept(s, memory).value)
  {
    hide FindSurface;
    if PuttingOwnRoute(s.pc) {
      AcceptOwnLedger(s, memory);
    } else if s.pc.packet.HiddenFrame? {
      assert (s.routes + [Route(s.pc.job.ref, s.pc.job.token)])[..|s.routes|] == s.routes;
    }
  }

  lemma RefuseOwnLedger(s: State)
    requires Refuse(s).Some? && Ledger(s) && PuttingOwnRoute(s.pc) && s.pc.job.token !in s.log.accepted
    ensures Ledger(Refuse(s).value)
  {
    hide IndexOf, Without, OwnRoute, Newest;
    if s.routes != [] {
      OwnIndex(s.pc, s.routes, s.log.accepted);
    } else {
      WithoutNone(s.routes, IndexOf(s.routes, s.pc.job.token));
    }
    RefusedBooks(s, Refuse(s).value);
  }

  /** Without its own route the backlog is all there is. */
  lemma RefusedBooks(s: State, s': State)
    requires (s.codec == Vp9 ==> Newest(s)) && !PuttingOwnRoute(s'.pc) && s'.routes == Backlog(s.pc, s.routes)
    requires s'.log == s.log.(miscounted := s'.log.miscounted)
    ensures OwnRoute(s'.pc, s'.routes) && (s.codec == Vp9 ==> Newest(s'))
  {
  }

  lemma RefuseLedger(s: State)
    requires Refuse(s).Some? && Ledger(s) && KindOk(s.codec, s.pc) && JobOrdered(s.pc, s.log.accepted, s.nextToken, s.queue)
    ensures Ledger(Refuse(s).value)
  {
    if PuttingOwnRoute(s.pc) {
      RefuseOwnLedger(s);
    } else if s.pc.packet.Continuation? {
      var i := IndexOf(s.routes, s.pc.packet.token);
      assert forall r :: r in Without(s.routes, i) ==> r in s.routes;
    }
  }

  /** The token of the packet being put finds its own route; what is left is the backlog. */
  lemma OwnIndex(pc: Pc, routes: seq<Route>, accepted: set<nat>)
    requires PuttingOwnRoute(pc) && OwnRoute(pc, routes) && BacklogAccepted(pc, routes, accepted) && pc.job.token !in accepted
    requires routes != []
    ensures var i := IndexOf(routes, pc.job.token);
            i < |routes| && Without(routes, i) == Backlog(pc, routes) && i == (if pc.packet.Fresh? then 0 else |routes| - 1)
  {
    var i := IndexOf(routes, pc.job.token);
    if pc.packet.Fresh? {
      assert routes[1..] == Without(routes, 0);
    } else {
      forall k | 0 <= k < |routes| - 1
        ensures routes[k].token != pc.job.token
      {
        assert routes[k] in Backlog(pc, routes);
      }
    }
  }

  lemma EmitTokenLedger(s: State, token: nat)
    requires EmitToken(s, token).Some? && Ledger(s) && KindOk(s.codec, s.pc) && JobOrdered(s.pc, s.log.accepted, s.nextToken, s.queue)
    ensures Ledger(EmitToken(s, token).value)
  {
    var i := IndexOf(s.routes, token);
    if i < |s.routes| {
      var rest := Without(s.routes, i);
      assert forall r :: r in Backlog(s.pc, rest) ==> r in Backlog(s.pc, s.routes);
    }
  }

  lemma EmitNextLedger(s: State)
    requires EmitNext(s).Some? && Ledger(s) && KindOk(s.codec, s.pc)
    ensures Ledger(EmitNext(s).value)
  {
    var backlog := Backlog(s.pc, s.routes);
    if backlog != [] {
      assert Backlog(s.pc, s.routes[1..]) == backlog[1..];
    }
  }

  /** The oldest route of the backlog is the next shown packet's exactly when the two are in step. */
  lemma NextInStep(s: State)
    requires EmitNext(s).Some? && Ledger(s) && KindOk(s.codec, s.pc) && InStep(s)
    ensures s.routes != [] && s.routes[0] == s.log.outputs[s.log.emitted]
  {
    var backlog := Backlog(s.pc, s.routes);
    assert backlog[0] == s.log.outputs[s.log.emitted..][0];
    assert backlog[0] == s.routes[0];
  }

  lemma DeliveredLedger(s: State, s': State)
    requires Ledger(s) && s.delivering.Some? && s' == Delivered(s).(surfaces := s'.surfaces)
    ensures Ledger(s')
  {
  }

  lemma LedgerApi(s: State, a: Action)
    requires Apply(s, a).Some? && ApiAction(a) && Ledger(s)
    ensures Ledger(Apply(s, a).value)
  {
    hide Apply;
    ApiKeepsWorker(s, a);
    ApiKeepsTeardown(s, a);
  }

  lemma ApiKeepsTeardown(s: State, a: Action)
    requires Apply(s, a).Some? && ApiAction(a)
    ensures Apply(s, a).value.teardown == s.teardown && Apply(s, a).value.codec == s.codec
    ensures Apply(s, a).value.log == s.log.(issuedFor := Apply(s, a).value.log.issuedFor, jobs := Apply(s, a).value.log.jobs)
  {
    hide Completed, Failed, Begun;
  }

  lemma LedgerSubmit(s: State, a: Action)
    requires Apply(s, a).Some? && (SubmitAction(a) || a.EmitsToken? || a.EmitsNext?)
    requires Retired(s) && Ordered(s) && KindOk(s.codec, s.pc) && (Counting(s) ==> Ledger(s))
    ensures Counting(s) && Ledger(Apply(s, a).value)
  {
    hide Complete, Start, Accept, Refuse, EmitToken, EmitNext, QueueOrdered, AcceptedBefore, Between;
    match a
    case TakesJob =>
    case Starts(memory) =>
      StartCounts(s, memory);
      StartLedger(s, memory);
    case Accepts(memory) =>
      AcceptCounts(s, memory);
      AcceptLedger(s, memory);
    case Refuses =>
      RefuseCounts(s);
      RefuseLedger(s);
    case CompletesJob => OnlySurfaces(s, s.pc.job.ref, s.pc.success, 0);
    case EmitsToken(token) =>
      EmitCounts(s, token);
      EmitTokenLedger(s, token);
    case EmitsNext =>
      EmitCounts(s, 0);
      EmitNextLedger(s);
  }

  lemma LedgerSweep(s: State)
    requires Sweep(s).Some? && Counting(Sweep(s).value) && (Counting(s) ==> Ledger(s)) && Retired(s)
    ensures Ledger(Sweep(s).value)
  {
    hide Failed, BacklogAccepted;
  }

  lemma LedgerDelivery(s: State, a: Action)
    requires Apply(s, a).Some? && (a.Checks? || a.Delivers?) && Counting(Apply(s, a).value) && (Counting(s) ==> Ledger(s))
    ensures Ledger(Apply(s, a).value)
  {
    hide Begin, End, Finish, OtherBegin, OtherTouch, TakeJob, Start, Accept, Refuse, CompleteJob, EmitToken, EmitNext, Stall, FlushOne, Exit, BeginTeardown, Sweep,
      Complete, Publish, BacklogAccepted, OwnRoute;
    if a.Delivers? {
      OnlySurfaces(s, s.delivering.value.route.ref, false, s.delivering.value.frame);
      DeliveredLedger(s, Apply(s, a).value);
    } else if Apply(s, a).value.delivering.None? {
      DeliveredLedger(s, Apply(s, a).value);
    }
  }

  lemma LedgerStep(s: State, a: Action)
    requires Apply(s, a).Some? && Counting(Apply(s, a).value)
    requires Retired(s) && Ordered(s) && KindOk(s.codec, s.pc) && OutputsOrdered(s.log) && (Counting(s) ==> Ledger(s))
    ensures Ledger(Apply(s, a).value)
  {
    hide Begin, End, Finish, OtherBegin, OtherTouch, TakeJob, Start, Accept, Refuse, CompleteJob, EmitToken, EmitNext, Check, Deliver, Sweep,
      Fail, Ordered, KindOk, BacklogAccepted, OwnRoute;
    match a
    case Checks => LedgerDelivery(s, a);
    case Delivers(_) => LedgerDelivery(s, a);
    case Stalls =>
    case Flushes => NothingOwed(Apply(s, a).value);
    case Exits => SameBooks(s, Apply(s, a).value);
    case TearsDown =>
    case Sweeps => LedgerSweep(s);
    case _ =>
      if ApiAction(a) {
        ApiKeepsTeardown(s, a);
        ApiKeepsWorker(s, a);
        LedgerApi(s, a);
      } else {
        LedgerSubmit(s, a);
      }
  }

  lemma NothingOwed(s: State)
    requires s.pc == Idle && s.routes == [] && s.outstanding == 0 && s.delivering.None? && !s.log.miscounted
    requires s.log.emitted <= |s.log.outputs|
    ensures Ledger(s)
  {
  }

  /** Between packets the program counter does not matter. */
  lemma SameBooks(s: State, s': State)
    requires Ledger(s) && !PuttingOwnRoute(s.pc) && !PuttingOwnRoute(s'.pc) && s' == s.(pc := s'.pc)
    ensures Ledger(s')
  {
  }

  lemma StartCounts(s: State, memory: bool)
    requires Start(s, memory).Some? && Retired(s)
    ensures Counting(s)
  {
  }

  lemma AcceptCounts(s: State, memory: bool)
    requires Accept(s, memory).Some? && Retired(s)
    ensures Counting(s)
  {
  }

  lemma RefuseCounts(s: State)
    requires Refuse(s).Some? && Retired(s)
    ensures Counting(s)
  {
  }

  lemma EmitCounts(s: State, token: nat)
    requires (EmitToken(s, token).Some? || EmitNext(s).Some?) && Retired(s)
    ensures Counting(s)
  {
  }

  // ---------- before the first flush ----------

  lemma StartClean(s: State, memory: bool)
    requires Start(s, memory).Some? && Clean(s) && Counting(s)
    ensures Clean(Start(s, memory).value)
  {
    hide FindSurface;
    var j := s.pc.job;
    assert (s.routes + [Route(j.ref, j.token)])[..|s.routes|] == s.routes;
  }

  lemma AcceptClean(s: State, memory: bool)
    requires Accept(s, memory).Some? && Clean(s) && Counting(s) && KindOk(s.codec, s.pc)
    ensures Clean(Accept(s, memory).value)
  {
    hide FindSurface;
    if s.pc.packet.HiddenFrame? {
      assert (s.routes + [Route(s.pc.job.ref, s.pc.job.token)])[..|s.routes|] == s.routes;
    }
  }

  lemma RefuseClean(s: State)
    requires Refuse(s).Some? && Clean(s) && Counting(s) && Ledger(s) && KindOk(s.codec, s.pc) && JobOrdered(s.pc, s.log.accepted, s.nextToken, s.queue)
    ensures Clean(Refuse(s).value)
  {
    if PuttingOwnRoute(s.pc) && s.routes != [] {
      OwnIndex(s.pc, s.routes, s.log.accepted);
    }
  }

  lemma EmitNextClean(s: State)
    requires EmitNext(s).Some? && Clean(s) && Counting(s)
    ensures Clean(EmitNext(s).value)
  {
    var backlog := Backlog(s.pc, s.routes);
    if backlog != [] {
      assert Backlog(s.pc, s.routes[1..]) == backlog[1..];
    }
  }

  /** Every other step leaves the backlog and the log alone, or flushes. */
  lemma CleanStays(s: State, a: Action)
    requires Apply(s, a).Some? && Clean(s) && Retired(s) && !a.Starts? && !a.Accepts? && !a.Refuses? && !a.EmitsNext?
    ensures Clean(Apply(s, a).value)
  {
    hide Begin, End, Finish, OtherBegin, OtherTouch, Start, Accept, Refuse, EmitNext, Sweep, Completed, Failed, Published, Begun, IndexOf, Without;
    if ApiAction(a) {
      ApiKeepsWorker(s, a);
      ApiKeepsTeardown(s, a);
    } else if a.Sweeps? {
      SweepClean(s);
    }
  }

  lemma SweepClean(s: State)
    requires Sweep(s).Some? && Clean(s) && Retired(s)
    ensures Clean(Sweep(s).value)
  {
    hide Failed;
  }

  lemma CleanStep(s: State, a: Action)
    requires Apply(s, a).Some? && Clean(s) && Retired(s) && Ordered(s) && KindOk(s.codec, s.pc) && (Counting(s) ==> Ledger(s))
    ensures Clean(Apply(s, a).value)
  {
    hide Clean, Start, Accept, Refuse, EmitNext, Ledger, KindOk, QueueOrdered, AcceptedBefore, JobOrdered;
    match a
    case Starts(memory) =>
      StartCounts(s, memory);
      StartClean(s, memory);
    case Accepts(memory) =>
      AcceptCounts(s, memory);
      AcceptClean(s, memory);
    case Refuses =>
      RefuseCounts(s);
      RefuseClean(s);
    case EmitsNext =>
      EmitCounts(s, 0);
      EmitNextClean(s);
    case _ => CleanStays(s, a);
  }

  // ---------- frames ----------

  lemma DeliveryStep(s: State, a: Action)
    requires Apply(s, a).Some? && !Apply(s, a).value.log.misled && DeliveryRight(s) && Labelled(s)
    requires Retired(s) && KindOk(s.codec, s.pc) && (Counting(s) ==> Ledger(s))
    ensures DeliveryRight(Apply(s, a).value)
  {
    hide Complete, Fail, Publish, Begin, End, Finish, OtherBegin, OtherTouch, Start, Accept, Refuse, TakeJob, CompleteJob, Stall, FlushOne, Sweep,
      IndexOf, Without, Ledger, FrameOf, Labelled;
    var s' := Apply(s, a).value;
    RemembersStep(s, a);
    if s'.delivering.Some? {
      var d := s'.delivering.value;
      match a
      case EmitsToken(token) => EmittedTokenRight(s, token);
      case EmitsNext => EmittedNextRight(s);
      case Checks => FrameKept(s, s', d.frame, d.route.ref);
      case Delivers(_) =>
      case _ =>
        OthersKeepDelivery(s, a);
        FrameKept(s, s', d.frame, d.route.ref);
    }
  }

  lemma OthersKeepDelivery(s: State, a: Action)
    requires Apply(s, a).Some? && !OutputAction(a)
    ensures Apply(s, a).value.delivering == s.delivering
  {
    hide Completed, Failed, Begun, IndexOf, Without;
  }

  lemma EmittedTokenRight(s: State, token: nat)
    requires EmitToken(s, token).Some? && EmitToken(s, token).value.delivering.Some? && Labelled(s)
    ensures var d := EmitToken(s, token).value.delivering.value;
            FrameOf(EmitToken(s, token).value, d.frame, d.route.ref)
  {
  }

  lemma EmittedNextRight(s: State)
    requires EmitNext(s).Some? && EmitNext(s).value.delivering.Some? && Retired(s) && !EmitNext(s).value.log.misled
    requires KindOk(s.codec, s.pc) && (Counting(s) ==> Ledger(s))
    ensures var d := EmitNext(s).value.delivering.value;
            FrameOf(EmitNext(s).value, d.frame, d.route.ref)
  {
    EmitCounts(s, 0);
    if s.routes != [] {
      NextInStep(s);
    }
  }

  /** What can happen to the frame on a surface. */
  predicate FrameMoves(s: State, i: nat, x: Surface, y: Surface) {
    || y.owner != Ours || y.frame.None?
    || (y.frame == x.frame && y.fence == x.fence && x.owner == Ours)
    || (s.delivering.Some? && s.delivering.value.route.ref == Ref(i, y.fence) && y.frame == Some(s.delivering.value.frame))
  }

  lemma FrameMovesBegin(s: State, sid: nat, i: nat)
    requires Begin(s, sid).Some? && i < |s.surfaces|
    ensures |Begin(s, sid).value.surfaces| == |s.surfaces|
    ensures FrameMoves(s, i, s.surfaces[i], Begin(s, sid).value.surfaces[i])
  {
  }

  lemma FrameMovesApi(s: State, a: Action, i: nat)
    requires Apply(s, a).Some? && ApiAction(a) && i < |s.surfaces|
    ensures |Apply(s, a).value.surfaces| == |s.surfaces| && FrameMoves(s, i, s.surfaces[i], Apply(s, a).value.surfaces[i])
  {
    hide Begin, Fail, Complete;
    match a
    case BeginPicture(sid) => FrameMovesBegin(s, sid, i);
    case FinishCall(h) => SettlingFrames(s.(handoffs := s.handoffs - multiset{h}), i, RefOf(h), false);
    case _ =>
  }

  lemma SettlingFrames(s: State, i: nat, ref: Ref, success: bool)
    requires i < |s.surfaces|
    ensures |Complete(s, ref, success).surfaces| == |s.surfaces|
    ensures |Fail(s, ref).surfaces| == |s.surfaces|
    ensures FrameMoves(s, i, s.surfaces[i], Complete(s, ref, success).surfaces[i])
    ensures FrameMoves(s, i, s.surfaces[i], Fail(s, ref).surfaces[i])
    ensures FrameMoves(s, i, s.surfaces[i], s.surfaces[i])
    ensures s.delivering.Some? && ref == s.delivering.value.route.ref ==>
              var p := Publish(s, ref, s.delivering.value.frame);
              |p.surfaces| == |s.surfaces| && FrameMoves(s, i, s.surfaces[i], p.surfaces[i])
  {
  }

  lemma FrameMovesSweep(s: State, i: nat)
    requires Sweep(s).Some? && i < |s.surfaces|
    ensures |Sweep(s).value.surfaces| == |s.surfaces| && FrameMoves(s, i, s.surfaces[i], Sweep(s).value.surfaces[i])
  {
    hide Fail, FrameMoves;
    SettlingFrames(s, i, Ref(0, 0), false);
    if s.queue != [] { SettlingFrames(s, i, s.queue[0].ref, false); }
    if s.routes != [] { SettlingFrames(s, i, s.routes[0].ref, false); }
    if s.render.Some? { SettlingFrames(s, i, s.render.value, false); }
  }

  lemma FrameMovesStep(s: State, a: Action, i: nat)
    requires Apply(s, a).Some? && i < |s.surfaces|
    ensures |Apply(s, a).value.surfaces| == |s.surfaces| && FrameMoves(s, i, s.surfaces[i], Apply(s, a).value.surfaces[i])
  {
    hide FindSurface, IndexOf, Without, Complete, Fail, Publish, FrameMoves, Begin, End, Finish, OtherBegin, OtherTouch, Sweep;
    SettlingFrames(s, i, Ref(0, 0), false);
    match a
    case CompletesJob => SettlingFrames(s, i, s.pc.job.ref, s.pc.success);
    case Delivers(_) => SettlingFrames(s, i, s.delivering.value.route.ref, false);
    case Flushes => if s.pc.rest != [] { SettlingFrames(s, i, s.pc.rest[0].ref, false); }
    case Sweeps => FrameMovesSweep(s, i);
    case _ => if ApiAction(a) { FrameMovesApi(s, a, i); }
  }

  lemma SurfacesRightStep(s: State, a: Action)
    requires Apply(s, a).Some? && !Apply(s, a).value.log.misled && Labelled(s)
    requires DeliveryRight(s) && SurfacesRight(s)
    ensures SurfacesRight(Apply(s, a).value)
  {
    hide Apply, FrameOf, Labelled;
    var s' := Apply(s, a).value;
    RemembersStep(s, a);
    forall i | 0 <= i < |s'.surfaces| && s'.surfaces[i].owner == Ours && s'.surfaces[i].frame.Some?
      ensures FrameOf(s', s'.surfaces[i].frame.value, Ref(i, s'.surfaces[i].fence))
    {
      if i < |s.surfaces| {
        FrameMovesStep(s, a, i);
        FrameKept(s, s', s'.surfaces[i].frame.value, Ref(i, s'.surfaces[i].fence));
      } else {
        SurfaceStep(s, a);
      }
    }
  }

  // ---------- the invariant and the theorems ----------

  lemma RoutedStep(s: State, a: Action)
    requires Apply(s, a).Some? && Inv(s) && Routed(s)
    ensures Routed(Apply(s, a).value)
  {
    hide Apply, Known, Covered, PutCovered, Retired, Labelled, Ordered, OutputsOrdered, Clean, KindOk, Counting, Ledger, SurfacesRight, DeliveryRight;
    var s' := Apply(s, a).value;
    RemembersStep(s, a);
    OrderedStep(s, a);
    OutputsStep(s, a);
    CleanStep(s, a);
    if Counting(s') {
      LedgerStep(s, a);
    }
    if !s'.log.misled {
      DeliveryStep(s, a);
      SurfacesRightStep(s, a);
    }
  }

  lemma InitialRouted(codec: Codec, surfaces: nat)
    ensures Routed(Initial(codec, surfaces))
  {
    hide Ordered, OutputsOrdered, Ledger, Clean, SurfacesRight, Counting, Initial;
    Empty(codec, surfaces);
    NothingInUse(Initial(codec, surfaces));
    NothingOnTheBooks(Initial(codec, surfaces));
    NothingShown(codec, surfaces);
  }

  lemma Empty(codec: Codec, surfaces: nat)
    ensures var s := Initial(codec, surfaces);
            && s.pc == Idle && s.queue == [] && s.log.accepted == {} && s.log.outputs == [] && s.routes == [] && s.outstanding == 0
            && s.delivering.None? && s.log.emitted == 0 && !s.log.misled && !s.log.miscounted
  {
  }

  lemma NothingInUse(s: State)
    ensures s.pc == Idle && s.queue == [] && s.log.accepted == {} ==> Ordered(s)
    ensures s.log.outputs == [] && s.log.emitted == 0 ==> OutputsOrdered(s.log)
  {
  }

  lemma NothingOnTheBooks(s: State)
    requires s.pc == Idle && s.routes == [] && s.outstanding == 0 && s.delivering.None?
    requires s.log.outputs == [] && s.log.emitted == 0 && !s.log.misled && !s.log.miscounted
    ensures Ledger(s) && Clean(s)
  {
  }

  lemma NothingShown(codec: Codec, surfaces: nat)
    ensures SurfacesRight(Initial(codec, surfaces))
  {
    hide FrameOf;
  }

  lemma {:induction false} RoutedReachable(codec: Codec, surfaces: nat, schedule: seq<Action>)
    ensures Routed(Run(Initial(codec, surfaces), schedule))
  {
    hide Apply, Inv, Routed;
    if |schedule| == 0 {
      InitialRouted(codec, surfaces);
    } else {
      var front, last := schedule[..|schedule| - 1], schedule[|schedule| - 1];
      RoutedReachable(codec, surfaces, front);
      Reachable(codec, surfaces, front);
      if Apply(Run(Initial(codec, surfaces), front), last).Some? {
        RoutedStep(Run(Initial(codec, surfaces), front), last);
      }
    }
  }

  /**
   A surface shows only what was decoded for it: in every H.264 or HEVC run, whatever the
   reordering, backpressure, field pairs and stall flushes, the frame published on a surface came
   with a token that was given out for that surface at its present fence.
   */
  lemma TokenFramesReachTheirSurface(codec: Codec, surfaces: nat, schedule: seq<Action>, sid: nat)
    requires codec != Vp9
    ensures var s := Run(Initial(codec, surfaces), schedule);
            sid < |s.surfaces| && s.surfaces[sid].owner == Ours && s.surfaces[sid].frame.Some? ==>
              s.surfaces[sid].frame.value in s.log.accepted &&
              Label(s.log.issuedFor, s.surfaces[sid].frame.value, Ref(sid, s.surfaces[sid].fence))
  {
    hide Run, Initial, Ordered, Ledger;
    RoutedReachable(codec, surfaces, schedule);
    CodecStays(codec, surfaces, schedule);
  }

  lemma {:induction false} CodecStays(codec: Codec, surfaces: nat, schedule: seq<Action>)
    ensures Run(Initial(codec, surfaces), schedule).codec == codec
  {
    hide Apply, Inv;
    if |schedule| > 0 {
      var front, last := schedule[..|schedule| - 1], schedule[|schedule| - 1];
      CodecStays(codec, surfaces, front);
      Reachable(codec, surfaces, front);
      if Apply(Run(Initial(codec, surfaces), front), last).Some? {
        CodecStep(Run(Initial(codec, surfaces), front), last);
      }
    }
  }

  lemma CodecStep(s: State, a: Action)
    requires Apply(s, a).Some? && Inv(s)
    ensures Apply(s, a).value.codec == s.codec
  {
    hide Apply, Known, Covered, PutCovered, Retired, Labelled;
    RemembersStep(s, a);
  }

  /**
   Conservation: between two packets outstanding_frames is the number of the worker's routes and of
   the frame it is delivering, and one more while `miscounted` is set, which takes a VP9 stall flush;
   DecodeFifo.OutstandingRightIff tells by the steps of the run when that is.
   */
  lemma OutstandingIsRoutes(codec: Codec, surfaces: nat, schedule: seq<Action>)
    ensures var s := Run(Initial(codec, surfaces), schedule);
            var counted := |s.routes| + if s.delivering.Some? then 1 else 0;
            && (!PuttingOwnRoute(s.pc) && Counting(s) ==> s.outstanding == counted + if s.log.miscounted then 1 else 0)
            && (codec != Vp9 || !s.log.flushed ==> !s.log.miscounted)
  {
    hide Run, Initial, Ordered, OutputsOrdered, SurfacesRight;
    RoutedReachable(codec, surfaces, schedule);
    CodecStays(codec, surfaces, schedule);
  }
}
