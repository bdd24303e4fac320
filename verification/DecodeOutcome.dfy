/**
 How pictures end.  In every run the surfaces of the context are decoded or failed by the last thing
 that was decided about their fence; a decoded one shows a frame unless its picture had none to show.
 The two fields of an H.264 picture share their fence and their route.
 */
module DecodeOutcome {
  import opened Options
  import opened DecodeState
  import opened DecodeCoverage

  // ---------- what is decided ----------

  /** Decoded, failed, or failed unless it is decoded already. */
  datatype Verdict = Good | Bad | BadUnlessGood

  /** The fence a step decides about, and how; `submitted` tells whether the last submission ended well. */
  function VerdictOf(s: State, a: Action, submitted: bool): Option<(Ref, Verdict)>
    requires Apply(s, a).Some?
  {
    match a
    case Delivers(usable) => Some((s.delivering.value.route.ref, if usable then Good else Bad))
    case CompletesJob => Some((s.pc.job.ref, if submitted then Good else Bad))
    case FinishCall(h) => (match h
                           case FailLater(ref) => Some((ref, BadUnlessGood))
                           case RejectLater(j) => Some((j.ref, Bad))
                           case EnqueueLater(_) => None)
    case Flushes => if s.pc.rest == [] then None else Some((s.pc.rest[0].ref, BadUnlessGood))
    case Sweeps => SweptVerdict(s)
    case _ => None
  }

  function SweptVerdict(s: State): Option<(Ref, Verdict)> {
    if s.teardown.SweepJobs? && s.queue != [] then Some((s.queue[0].ref, BadUnlessGood))
    else if s.teardown.SweepRoutes? && s.routes != [] then Some((s.routes[0].ref, BadUnlessGood))
    else if s.teardown.SweepRender? && s.render.Some? then Some((s.render.value, BadUnlessGood))
    else None
  }

  /** How the last submission of the run ended: well for a job without bytes, and for a hidden picture that MPP took and nothing repeats. */
  function Submitted(codec: Codec, surfaces: nat, schedule: seq<Action>): bool {
    if |schedule| == 0 then false
    else
      var front, a := schedule[..|schedule| - 1], schedule[|schedule| - 1];
      var s := Run(Initial(codec, surfaces), front);
      if Apply(s, a).None? then Submitted(codec, surfaces, front)
      else
        match a
        case Starts(_) => s.pc.job.empty
        case Accepts(_) => s.pc.packet.HiddenFrame? && !s.pc.job.repeat
        case Refuses => false
        case _ => Submitted(codec, surfaces, front)
  }

  /** What the run has decided about a fence last. */
  function Outcome(codec: Codec, surfaces: nat, schedule: seq<Action>, ref: Ref): Option<bool> {
    if |schedule| == 0 then None
    else
      var front, a := schedule[..|schedule| - 1], schedule[|schedule| - 1];
      var s := Run(Initial(codec, surfaces), front);
      var before := Outcome(codec, surfaces, front, ref);
      if Apply(s, a).None? then before
      else
        match VerdictOf(s, a, Submitted(codec, surfaces, front))
        case None => before
        case Some((r, verdict)) => if r == ref then Decided(before, verdict) else before
  }

  function Decided(before: Option<bool>, verdict: Verdict): Option<bool> {
    match verdict
    case Good => Some(true)
    case Bad => Some(false)
    case BadUnlessGood => if before == Some(true) then before else Some(false)
  }

  predicate Shows(x: Surface, outcome: Option<bool>) {
    (x.decoded <==> outcome == Some(true)) && (x.failed <==> outcome == Some(false))
  }

  // ---------- submissions ----------

  predicate Submits(a: Action) {
    a.Starts? || a.Accepts? || a.Refuses?
  }

  lemma OthersKeepCompletion(s: State, a: Action)
    requires Apply(s, a).Some? && !Submits(a) && Apply(s, a).value.pc.Completing?
    ensures Apply(s, a).value.pc == s.pc
  {
    hide Begun, Completed, Failed, Published, IndexOf, Without, InStep;
  }

  lemma SubmissionEnds(s: State, a: Action)
    requires Apply(s, a).Some? && Submits(a) && Apply(s, a).value.pc.Completing?
    ensures Apply(s, a).value.pc.success <==> (a.Starts? && s.pc.job.empty) || (a.Accepts? && s.pc.packet.HiddenFrame? && !s.pc.job.repeat)
  {
    hide FindSurface, IndexOf, Without;
  }

  lemma {:induction false} CompletionTells(codec: Codec, surfaces: nat, schedule: seq<Action>)
    ensures var s := Run(Initial(codec, surfaces), schedule);
            s.pc.Completing? ==> s.pc.success == Submitted(codec, surfaces, schedule)
  {
    hide Apply;
    if |schedule| > 0 {
      var front, a := schedule[..|schedule| - 1], schedule[|schedule| - 1];
      var s := Run(Initial(codec, surfaces), front);
      CompletionTells(codec, surfaces, front);
      if Apply(s, a).Some? && Apply(s, a).value.pc.Completing? {
        if Submits(a) {
          SubmissionEnds(s, a);
        } else {
          OthersKeepCompletion(s, a);
        }
      }
    }
  }

  // ---------- one step ----------

  /** What a step makes of a surface that stays at its fence. */
  predicate Follows(x: Surface, y: Surface, verdict: Option<Verdict>) {
    match verdict
    case None => y.decoded == x.decoded && y.failed == x.failed
    case Some(Good) => y.decoded && !y.failed
    case Some(Bad) => !y.decoded && y.failed
    case Some(BadUnlessGood) => y.decoded == x.decoded && (if x.decoded then y.failed == x.failed else y.failed)
  }

  /** The verdict, if it is about this fence. */
  function At(v: Option<(Ref, Verdict)>, ref: Ref): Option<Verdict> {
    if v.Some? && v.value.0 == ref then Some(v.value.1) else None
  }

  predicate Reopened(x: Surface, y: Surface) {
    y.fence > x.fence && !y.decoded && !y.failed
  }

  predicate StepShows(s: State, s': State, v: Option<(Ref, Verdict)>, i: nat)
    requires i < |s.surfaces| == |s'.surfaces|
  {
    var x, y := s.surfaces[i], s'.surfaces[i];
    y.owner == Ours ==> Reopened(x, y) || (x.owner == Ours && y.fence == x.fence && Follows(x, y, At(v, Ref(i, x.fence))))
  }

  lemma FinishShows(s: State, h: Handoff, i: nat)
    requires Finish(s, h).Some? && i < |s.surfaces|
    ensures |Finish(s, h).value.surfaces| == |s.surfaces| && StepShows(s, Finish(s, h).value, VerdictOf(s, FinishCall(h), false), i)
  {
  }

  lemma PictureShows(s: State, a: Action, i: nat)
    requires Apply(s, a).Some? && (a.BeginPicture? || a.EndPicture?) && i < |s.surfaces|
    ensures |Apply(s, a).value.surfaces| == |s.surfaces| && StepShows(s, Apply(s, a).value, None, i)
  {
    hide Continues;
  }

  lemma ApiShows(s: State, a: Action, i: nat)
    requires Apply(s, a).Some? && ApiAction(a) && i < |s.surfaces|
    ensures |Apply(s, a).value.surfaces| == |s.surfaces| && StepShows(s, Apply(s, a).value, VerdictOf(s, a, false), i)
  {
    hide Begin, End, Finish, TakeJob, Start, Accept, Refuse, CompleteJob, EmitToken, EmitNext, Check, Deliver, Stall, FlushOne, Exit, BeginTeardown, Sweep;
    match a
    case FinishCall(h) => FinishShows(s, h, i);
    case BeginPicture(_) => PictureShows(s, a, i);
    case EndPicture(_) => PictureShows(s, a, i);
    case _ =>
  }

  lemma SubmitShows(s: State, a: Action, i: nat, submitted: bool)
    requires Apply(s, a).Some? && SubmitAction(a) && i < |s.surfaces| && (s.pc.Completing? ==> s.pc.success == submitted)
    ensures |Apply(s, a).value.surfaces| == |s.surfaces| && StepShows(s, Apply(s, a).value, VerdictOf(s, a, submitted), i)
  {
    hide Begin, End, Finish, OtherBegin, OtherTouch, EmitToken, EmitNext, Check, Deliver, Stall, FlushOne, Exit, BeginTeardown, Sweep, FindSurface,
      IndexOf, Without;
  }

  lemma OutputShows(s: State, a: Action, i: nat)
    requires Apply(s, a).Some? && OutputAction(a) && i < |s.surfaces|
    ensures |Apply(s, a).value.surfaces| == |s.surfaces| && StepShows(s, Apply(s, a).value, VerdictOf(s, a, false), i)
  {
    hide IndexOf, Without, InStep;
  }

  lemma SweepShows(s: State, i: nat)
    requires Sweep(s).Some? && i < |s.surfaces|
    ensures |Sweep(s).value.surfaces| == |s.surfaces| && StepShows(s, Sweep(s).value, SweptVerdict(s), i)
  {
  }

  lemma EndingShows(s: State, a: Action, i: nat)
    requires Apply(s, a).Some? && !ApiAction(a) && !SubmitAction(a) && !OutputAction(a) && i < |s.surfaces|
    ensures |Apply(s, a).value.surfaces| == |s.surfaces| && StepShows(s, Apply(s, a).value, VerdictOf(s, a, false), i)
  {
    hide Begin, End, Finish, OtherBegin, OtherTouch, TakeJob, Start, Accept, Refuse, CompleteJob, EmitToken, EmitNext, Check, Deliver, Sweep, SweptVerdict;
    if a.Sweeps? {
      SweepShows(s, i);
    }
  }

  lemma StepDecides(s: State, a: Action, i: nat, submitted: bool)
    requires Apply(s, a).Some? && i < |s.surfaces| && (s.pc.Completing? ==> s.pc.success == submitted)
    ensures |Apply(s, a).value.surfaces| == |s.surfaces| && StepShows(s, Apply(s, a).value, VerdictOf(s, a, submitted), i)
  {
    hide Apply, StepShows;
    if ApiAction(a) {
      ApiShows(s, a, i);
    } else if SubmitAction(a) {
      SubmitShows(s, a, i, submitted);
    } else if OutputAction(a) {
      OutputShows(s, a, i);
    } else {
      EndingShows(s, a, i);
    }
    OnlyJobsMatter(s, a, submitted);
  }

  lemma OnlyJobsMatter(s: State, a: Action, submitted: bool)
    requires Apply(s, a).Some?
    ensures !a.CompletesJob? ==> VerdictOf(s, a, submitted) == VerdictOf(s, a, false)
  {
  }

  // ---------- whole runs ----------

  /** Nothing is decided about a fence before it begins. */
  lemma VerdictIsHeld(s: State, a: Action, submitted: bool)
    requires Apply(s, a).Some? && VerdictOf(s, a, submitted).Some?
    ensures Holds(s, VerdictOf(s, a, submitted).value.0)
  {
    hide InStep;
    if a.FinishCall? {
      assert a.handoff in s.handoffs;
    }
  }

  lemma {:induction false} DecidedHasBegun(codec: Codec, surfaces: nat, schedule: seq<Action>, ref: Ref)
    requires Outcome(codec, surfaces, schedule, ref).Some?
    ensures var s := Run(Initial(codec, surfaces), schedule); ref.sid < |s.surfaces| && ref.fence <= s.surfaces[ref.sid].fence
  {
    hide Apply, Inv, VerdictOf, Decided, Holds;
    if |schedule| > 0 {
      var front, a := schedule[..|schedule| - 1], schedule[|schedule| - 1];
      var s := Run(Initial(codec, surfaces), front);
      if Outcome(codec, surfaces, front, ref).Some? {
        DecidedHasBegun(codec, surfaces, front, ref);
      } else {
        Reachable(codec, surfaces, front);
        VerdictIsHeld(s, a, Submitted(codec, surfaces, front));
        HeldIsRightful(s, ref);
      }
      if Apply(s, a).Some? {
        FencesGrow(s, a, ref.sid);
      }
    }
  }

  lemma HeldIsRightful(s: State, ref: Ref)
    requires Inv(s) && Holds(s, ref)
    ensures Rightful(s, ref)
  {
  }

  lemma FencesGrow(s: State, a: Action, sid: nat)
    requires Apply(s, a).Some? && sid < |s.surfaces|
    ensures |Apply(s, a).value.surfaces| == |s.surfaces| && Apply(s, a).value.surfaces[sid].fence >= s.surfaces[sid].fence
  {
    hide Apply;
    SurfaceStep(s, a);
    assert Moves(s.surfaces[sid], Apply(s, a).value.surfaces[sid]);
  }

  lemma FollowsShows(x: Surface, y: Surface, v: Option<Verdict>, before: Option<bool>)
    requires Shows(x, before) && Follows(x, y, v)
    ensures Shows(y, if v.None? then before else Decided(before, v.value))
  {
  }

  lemma OutcomeStep(codec: Codec, surfaces: nat, schedule: seq<Action>, ref: Ref)
    requires schedule != []
    requires var front, a := schedule[..|schedule| - 1], schedule[|schedule| - 1]; Apply(Run(Initial(codec, surfaces), front), a).Some?
    ensures var front, a := schedule[..|schedule| - 1], schedule[|schedule| - 1];
            var v := At(VerdictOf(Run(Initial(codec, surfaces), front), a, Submitted(codec, surfaces, front)), ref);
            var before := Outcome(codec, surfaces, front, ref);
            Outcome(codec, surfaces, schedule, ref) == if v.None? then before else Decided(before, v.value)
  {
    hide Apply, VerdictOf, Decided;
  }

  /** In every run a surface of the context is decoded, failed or neither as was last decided about its fence. */
  lemma {:induction false} OutcomeOfAFence(codec: Codec, surfaces: nat, schedule: seq<Action>, sid: nat)
    ensures var s := Run(Initial(codec, surfaces), schedule);
            sid < |s.surfaces| && s.surfaces[sid].owner == Ours ==>
              Shows(s.surfaces[sid], Outcome(codec, surfaces, schedule, Ref(sid, s.surfaces[sid].fence)))
  {
    hide Apply, VerdictOf, Decided, Outcome, Shows, Follows;
    if |schedule| > 0 {
      var front, a := schedule[..|schedule| - 1], schedule[|schedule| - 1];
      var s, s' := Run(Initial(codec, surfaces), front), Run(Initial(codec, surfaces), schedule);
      OutcomeOfAFence(codec, surfaces, front, sid);
      if Apply(s, a).None? {
        NothingDecided(codec, surfaces, schedule);
      } else if sid < |s.surfaces| {
        var submitted := Submitted(codec, surfaces, front);
        CompletionTells(codec, surfaces, front);
        StepDecides(s, a, sid, submitted);
        var x, y := s.surfaces[sid], s'.surfaces[sid];
        var ref := Ref(sid, y.fence);
        OutcomeStep(codec, surfaces, schedule, ref);
        if y.owner == Ours {
          if Reopened(x, y) {
            FreshIsUndecided(codec, surfaces, front, a, ref);
            FreshShows(x, y);
          } else {
            FollowsShows(x, y, At(VerdictOf(s, a, submitted), ref), Outcome(codec, surfaces, front, ref));
          }
        }
      } else {
        SurfaceStep(s, a);
      }
    }
  }

  lemma FreshShows(x: Surface, y: Surface)
    requires Reopened(x, y)
    ensures Shows(y, None)
  {
  }

  lemma NothingDecided(codec: Codec, surfaces: nat, schedule: seq<Action>)
    requires schedule != [] && Apply(Run(Initial(codec, surfaces), schedule[..|schedule| - 1]), schedule[|schedule| - 1]).None?
    ensures forall ref :: Outcome(codec, surfaces, schedule, ref) == Outcome(codec, surfaces, schedule[..|schedule| - 1], ref)
  {
  }

  lemma FreshIsUndecided(codec: Codec, surfaces: nat, front: seq<Action>, a: Action, ref: Ref)
    requires var s := Run(Initial(codec, surfaces), front);
             Apply(s, a).Some? && ref.sid < |s.surfaces| && ref.fence > s.surfaces[ref.sid].fence
    ensures Outcome(codec, surfaces, front, ref) == None
    ensures At(VerdictOf(Run(Initial(codec, surfaces), front), a, Submitted(codec, surfaces, front)), ref) == None
  {
    hide Apply, VerdictOf, Outcome, Holds, Inv;
    var s := Run(Initial(codec, surfaces), front);
    if Outcome(codec, surfaces, front, ref).Some? {
      DecidedHasBegun(codec, surfaces, front, ref);
    }
    var v := VerdictOf(s, a, Submitted(codec, surfaces, front));
    if v.Some? && v.value.0 == ref {
      Reachable(codec, surfaces, front);
      VerdictIsHeld(s, a, Submitted(codec, surfaces, front));
      HeldIsRightful(s, ref);
    }
  }

  // ---------- from the submission to the surface ----------

  lemma CompletionWaits(s: State, a: Action)
    requires Apply(s, a).Some? && s.pc.Completing? && s.delivering.None? && !a.CompletesJob?
    ensures Apply(s, a).value.pc == s.pc && Apply(s, a).value.delivering.None?
  {
    hide Begun, Completed, Failed, Published, IndexOf, Without, InStep;
  }

  lemma {:induction false} CompletionStays(s: State, mid: seq<Action>)
    requires s.pc.Completing? && s.delivering.None? && CompletesJob !in mid
    ensures Run(s, mid).pc == s.pc && Run(s, mid).delivering.None?
  {
    hide Apply;
    if |mid| > 0 {
      var front, a := mid[..|mid| - 1], mid[|mid| - 1];
      CompletionStays(s, front);
      assert a in mid;
      if Apply(Run(s, front), a).Some? {
        CompletionWaits(Run(s, front), a);
      }
    }
  }

  /** Which steps end a submission: every refusal, a job without bytes, a route that cannot be made, a hidden picture nothing repeats. */
  lemma SubmissionsThatEnd(s: State, a: Action)
    requires Apply(s, a).Some? && Submits(a)
    ensures var pc := Apply(s, a).value.pc;
            && (a.Refuses? ==> pc.Completing?)
            && (a.Starts? ==> if s.pc.job.empty then pc.Completing?
                              else if !a.memory then pc.Completing? || (pc.Putting? && (pc.packet.Continuation? || pc.packet.HiddenFrame?))
                              else pc.Putting?)
            && (a.Accepts? && s.pc.packet.HiddenFrame? ==> if s.pc.job.repeat && a.memory then pc.Putting? else pc.Completing?)
  {
    hide FindSurface, IndexOf, Without;
  }

  lemma CompletionKeepsJob(s: State, a: Action)
    requires Apply(s, a).Some? && Submits(a) && Apply(s, a).value.pc.Completing?
    ensures Apply(s, a).value.pc.job == s.pc.job && Apply(s, a).value.delivering.None?
  {
    hide FindSurface, IndexOf, Without;
  }

  /**
   However the other threads interleave until the worker completes the job: a refusal, a route that could not be made and the like
   leave a fence that is still current failed and not decoded; only jobs that show nothing end as decoded.
   */
  lemma SubmissionDecides(s: State, a: Action, mid: seq<Action>)
    requires Apply(s, a).Some? && Submits(a) && Apply(s, a).value.pc.Completing? && CompletesJob !in mid
    ensures CompleteJob(Run(Apply(s, a).value, mid)).Some?
    ensures var t, ref := CompleteJob(Run(Apply(s, a).value, mid)).value, s.pc.job.ref;
            var well := (a.Starts? && s.pc.job.empty) || (a.Accepts? && s.pc.packet.HiddenFrame? && !s.pc.job.repeat);
            Current(t, ref) ==> t.surfaces[ref.sid].decoded == well && t.surfaces[ref.sid].failed == !well
  {
    hide Apply, Run;
    CompletionKeepsJob(s, a);
    CompletionStays(Apply(s, a).value, mid);
    SubmissionEnds(s, a);
  }

  /** A frame whose token has a waiting route is shown on the surface of the first such route while its fence is current. */
  lemma TokenFrameIsShown(s: State, token: nat, i: nat)
    requires s.codec != Vp9 && (s.pc.Idle? || s.pc.Putting?) && s.delivering.None? && token in s.log.accepted
    requires i < |s.routes| && s.routes[i].token == token && forall k :: 0 <= k < i ==> s.routes[k].token != token
    requires Current(s, s.routes[i].ref)
    ensures var ref := s.routes[i].ref; var t := Run(s, [EmitsToken(token), Checks, Delivers(true)]);
            && ref.sid < |t.surfaces| && t.surfaces[ref.sid].frame == Some(token) && t.surfaces[ref.sid].decoded && !t.surfaces[ref.sid].failed
            && t.routes == s.routes[..i] + s.routes[i + 1..]
  {
    hide Run, Without, Begin, End, Finish, OtherBegin, OtherTouch, TakeJob, Start, Accept, Refuse, CompleteJob, EmitNext, Stall, FlushOne, Exit, BeginTeardown,
      Sweep;
    assert IndexOf(s.routes, token) == i;
    RouteTaken(s.routes, i);
    var s1 := EmitToken(s, token).value;
    var s2 := Check(s1).value;
    RunThree(s, EmitsToken(token), Checks, Delivers(true), s1, s2, Deliver(s2, true).value);
  }

  lemma RouteTaken(routes: seq<Route>, i: nat)
    requires i < |routes|
    ensures Without(routes, i) == routes[..i] + routes[i + 1..]
  {
  }

  lemma RunThree(s: State, a: Action, b: Action, c: Action, s1: State, s2: State, s3: State)
    requires Apply(s, a) == Some(s1) && Apply(s1, b) == Some(s2) && Apply(s2, c) == Some(s3)
    ensures Run(s, [a, b, c]) == s3
  {
    hide Apply;
    assert [a, b, c][..2] == [a, b] && [a, b][..1] == [a] && [a][..0] == [];
    assert Run(s, [a]) == s1;
    assert Run(s, [a, b]) == s2;
  }

  // ---------- decoded pictures show a frame ----------

  /** A job that has nothing to show: no bytes, or a hidden VP9 picture that no slot keeps for a repeat. */
  predicate Showless(codec: Codec, j: Job) {
    j.empty || (codec == Vp9 && j.hidden && !j.repeat)
  }

  ghost predicate Excused(s: State, ref: Ref) {
    exists j :: j in s.log.jobs && j.ref == ref && Showless(s.codec, j)
  }

  ghost predicate JobsNoted(s: State) {
    && (forall j :: j in s.queue ==> j in s.log.jobs)
    && (JobAt(s.pc).Some? ==> JobAt(s.pc).value in s.log.jobs)
  }

  predicate PcShows(s: State) {
    && (s.pc.Putting? ==> !s.pc.job.empty && (s.pc.packet.HiddenFrame? ==> s.codec == Vp9 && s.pc.job.hidden))
    && (s.pc.Completing? && s.pc.success ==> Showless(s.codec, s.pc.job))
  }

  ghost predicate Shown(s: State, i: nat)
    requires i < |s.surfaces|
  {
    var x := s.surfaces[i];
    x.owner == Ours && x.decoded ==> x.frame.Some? || Excused(s, Ref(i, x.fence))
  }

  ghost predicate AllShown(s: State) {
    JobsNoted(s) && PcShows(s) && forall i :: 0 <= i < |s.surfaces| ==> Shown(s, i)
  }

  lemma FinishNotes(s: State, h: Handoff)
    requires Finish(s, h).Some? && JobsNoted(s) && PcShows(s)
    ensures JobsNoted(Finish(s, h).value) && PcShows(Finish(s, h).value) && s.log.jobs <= Finish(s, h).value.log.jobs
  {
    hide Completed, Failed;
  }

  lemma ApiNotes(s: State, a: Action)
    requires Apply(s, a).Some? && ApiAction(a) && JobsNoted(s) && PcShows(s)
    ensures JobsNoted(Apply(s, a).value) && PcShows(Apply(s, a).value) && s.log.jobs <= Apply(s, a).value.log.jobs
  {
    hide Begun, Finish;
    if a.FinishCall? {
      FinishNotes(s, a.handoff);
    }
  }

  lemma SubmitNotes(s: State, a: Action)
    requires Apply(s, a).Some? && SubmitAction(a) && JobsNoted(s) && PcShows(s)
    ensures JobsNoted(Apply(s, a).value) && PcShows(Apply(s, a).value) && s.log.jobs <= Apply(s, a).value.log.jobs
  {
    hide Completed, FindSurface, IndexOf, Without;
    if a.TakesJob? {
      assert s.queue[0] in s.queue;
    }
  }

  lemma SweepNotes(s: State)
    requires Sweep(s).Some? && JobsNoted(s) && PcShows(s)
    ensures JobsNoted(Sweep(s).value) && PcShows(Sweep(s).value) && s.log.jobs <= Sweep(s).value.log.jobs
  {
    hide Failed;
  }

  lemma OutputNotes(s: State, a: Action)
    requires Apply(s, a).Some? && OutputAction(a) && JobsNoted(s) && PcShows(s)
    ensures JobsNoted(Apply(s, a).value) && PcShows(Apply(s, a).value) && s.log.jobs <= Apply(s, a).value.log.jobs
  {
    hide Completed, Published, IndexOf, Without, InStep;
  }

  lemma WorkNotes(s: State, a: Action)
    requires Apply(s, a).Some? && !ApiAction(a) && !SubmitAction(a) && JobsNoted(s) && PcShows(s)
    ensures JobsNoted(Apply(s, a).value) && PcShows(Apply(s, a).value) && s.log.jobs <= Apply(s, a).value.log.jobs
  {
    hide Begin, End, Finish, OtherBegin, OtherTouch, TakeJob, Start, Accept, Refuse, CompleteJob, EmitToken, EmitNext, Check, Deliver, Sweep, Failed;
    if a.Sweeps? {
      SweepNotes(s);
    } else if OutputAction(a) {
      OutputNotes(s, a);
    }
  }

  lemma NotesStep(s: State, a: Action)
    requires Apply(s, a).Some? && JobsNoted(s) && PcShows(s)
    ensures JobsNoted(Apply(s, a).value) && PcShows(Apply(s, a).value) && s.log.jobs <= Apply(s, a).value.log.jobs
  {
    hide Apply;
    if ApiAction(a) {
      ApiNotes(s, a);
    } else if SubmitAction(a) {
      SubmitNotes(s, a);
    } else {
      WorkNotes(s, a);
    }
  }

  /** A step that makes a surface decoded shows a frame on it, or completes a job that shows nothing. */
  predicate Earned(s: State, x: Surface, y: Surface, i: nat) {
    y.owner == Ours && y.decoded ==>
      || y.frame.Some?
      || (x.owner == Ours && x.decoded && y.fence == x.fence && y.frame == x.frame)
      || (s.pc.Completing? && s.pc.success && s.pc.job.ref == Ref(i, y.fence))
  }

  lemma PictureEarns(s: State, a: Action, i: nat)
    requires Apply(s, a).Some? && (a.BeginPicture? || a.EndPicture?) && i < |s.surfaces|
    ensures |Apply(s, a).value.surfaces| == |s.surfaces| && Earned(s, s.surfaces[i], Apply(s, a).value.surfaces[i], i)
  {
    hide Continues;
  }

  lemma CallEarns(s: State, a: Action, i: nat)
    requires Apply(s, a).Some? && ApiAction(a) && !a.BeginPicture? && !a.EndPicture? && i < |s.surfaces|
    ensures |Apply(s, a).value.surfaces| == |s.surfaces| && Earned(s, s.surfaces[i], Apply(s, a).value.surfaces[i], i)
  {
    hide Begin, End;
  }

  lemma SubmitEarns(s: State, a: Action, i: nat)
    requires Apply(s, a).Some? && SubmitAction(a) && i < |s.surfaces|
    ensures |Apply(s, a).value.surfaces| == |s.surfaces| && Earned(s, s.surfaces[i], Apply(s, a).value.surfaces[i], i)
  {
    hide Begin, End, Finish, OtherBegin, OtherTouch, FindSurface, IndexOf, Without;
  }

  lemma WorkEarns(s: State, a: Action, i: nat)
    requires Apply(s, a).Some? && !ApiAction(a) && !SubmitAction(a) && i < |s.surfaces|
    ensures |Apply(s, a).value.surfaces| == |s.surfaces| && Earned(s, s.surfaces[i], Apply(s, a).value.surfaces[i], i)
  {
    hide Begin, End, Finish, OtherBegin, OtherTouch, Start, Accept, Refuse, Sweep, IndexOf, Without, InStep;
    if a.Sweeps? {
      SweepEarns(s, i);
    }
  }

  lemma FailKeeps(s: State, ref: Ref, i: nat)
    requires i < |s.surfaces|
    ensures |Fail(s, ref).surfaces| == |s.surfaces|
    ensures var x, y := s.surfaces[i], Fail(s, ref).surfaces[i];
            y.decoded == x.decoded && y.frame == x.frame && y.fence == x.fence && y.owner == x.owner
  {
  }

  lemma SweepEarns(s: State, i: nat)
    requires Sweep(s).Some? && i < |s.surfaces|
    ensures |Sweep(s).value.surfaces| == |s.surfaces| && Earned(s, s.surfaces[i], Sweep(s).value.surfaces[i], i)
  {
    hide Fail;
    if s.queue != [] {
      FailKeeps(s, s.queue[0].ref, i);
    }
    if s.routes != [] {
      FailKeeps(s, s.routes[0].ref, i);
    }
    if s.render.Some? {
      FailKeeps(s, s.render.value, i);
    }
  }

  lemma ShownStep(s: State, a: Action)
    requires Apply(s, a).Some? && AllShown(s)
    ensures AllShown(Apply(s, a).value) && Apply(s, a).value.codec == s.codec
  {
    hide Apply, Showless, JobsNoted, Earned;
    var s' := Apply(s, a).value;
    NotesStep(s, a);
    SameCodec(s, a);
    forall i | 0 <= i < |s'.surfaces|
      ensures Shown(s', i)
    {
      SurfaceStep(s, a);
      if a.BeginPicture? || a.EndPicture? {
        PictureEarns(s, a, i);
      } else if ApiAction(a) {
        CallEarns(s, a, i);
      } else if SubmitAction(a) {
        SubmitEarns(s, a, i);
      } else {
        WorkEarns(s, a, i);
      }
      ShownKept(s, s', i);
    }
  }

  lemma SameCodec(s: State, a: Action)
    requires Apply(s, a).Some?
    ensures Apply(s, a).value.codec == s.codec
  {
    hide Begun, Completed, Failed, Published, FindSurface, IndexOf, Without, InStep;
  }

  lemma ShownKept(s: State, s': State, i: nat)
    requires JobsNoted(s) && PcShows(s) && i < |s.surfaces| == |s'.surfaces| && Shown(s, i)
    requires Earned(s, s.surfaces[i], s'.surfaces[i], i) && s.log.jobs <= s'.log.jobs && s'.codec == s.codec
    ensures Shown(s', i)
  {
  }

  /** In every run a decoded surface of the context shows a frame, or some job at its fence had nothing to show. */
  lemma {:induction false} DecodedShowsAFrame(codec: Codec, surfaces: nat, schedule: seq<Action>)
    ensures var s := Run(Initial(codec, surfaces), schedule);
            && s.codec == codec && AllShown(s)
            && forall sid :: 0 <= sid < |s.surfaces| && s.surfaces[sid].owner == Ours && s.surfaces[sid].decoded ==>
                 || s.surfaces[sid].frame.Some?
                 || exists j :: j in s.log.jobs && j.ref == Ref(sid, s.surfaces[sid].fence) && (j.empty || (codec == Vp9 && j.hidden && !j.repeat))
  {
    hide Apply, JobsNoted, PcShows;
    if |schedule| == 0 {
      NothingNoted(codec, surfaces);
    } else {
      var front, a := schedule[..|schedule| - 1], schedule[|schedule| - 1];
      DecodedShowsAFrame(codec, surfaces, front);
      if Apply(Run(Initial(codec, surfaces), front), a).Some? {
        ShownStep(Run(Initial(codec, surfaces), front), a);
      }
    }
    ShownMeans(Run(Initial(codec, surfaces), schedule));
  }

  lemma ShownMeans(s: State)
    requires AllShown(s)
    ensures forall sid :: 0 <= sid < |s.surfaces| && s.surfaces[sid].owner == Ours && s.surfaces[sid].decoded ==>
              || s.surfaces[sid].frame.Some?
              || exists j :: j in s.log.jobs && j.ref == Ref(sid, s.surfaces[sid].fence) && (j.empty || (s.codec == Vp9 && j.hidden && !j.repeat))
  {
    forall sid | 0 <= sid < |s.surfaces| && s.surfaces[sid].owner == Ours && s.surfaces[sid].decoded && s.surfaces[sid].frame.None?
      ensures exists j :: j in s.log.jobs && j.ref == Ref(sid, s.surfaces[sid].fence) && (j.empty || (s.codec == Vp9 && j.hidden && !j.repeat))
    {
      assert Shown(s, sid);
    }
  }

  lemma NothingNoted(codec: Codec, surfaces: nat)
    ensures AllShown(Initial(codec, surfaces))
  {
  }
}
