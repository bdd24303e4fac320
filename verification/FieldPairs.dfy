/**
 The two fields of an H.264 picture: the second is decoded for the fence of the first, and never waits
 with a route of its own beside that of the first.
 */
module FieldPairs {
  import opened Options
  import opened DecodeState
  import opened DecodeCoverage
  import opened DecodeOutcome

  // ---------- one fence for both fields ----------

  /** The job of the last rk_EndPicture at a fence. */
  function LastEnded(codec: Codec, surfaces: nat, schedule: seq<Action>, ref: Ref): Option<Job> {
    if |schedule| == 0 then None
    else
      var front, a := schedule[..|schedule| - 1], schedule[|schedule| - 1];
      if Apply(Run(Initial(codec, surfaces), front), a).Some? && a.EndPicture? && a.built.Some? && a.built.value.ref == ref then a.built
      else LastEnded(codec, surfaces, front, ref)
  }

  predicate Undecided(x: Surface) {
    x.owner == Ours && !x.decoded && !x.failed
  }

  predicate FieldEnded(last: Option<Job>) {
    last.Some? && last.value.field
  }

  /** The flag of an undecided surface tells whether the last picture ended there was a field. */
  predicate Remembers(x: Surface, last: Option<Job>) {
    (x.owner == Ours ==> x.fence > 0) && (Undecided(x) ==> (x.fieldPending <==> FieldEnded(last)))
  }

  lemma {:induction false} EndedHasBegun(codec: Codec, surfaces: nat, schedule: seq<Action>, ref: Ref)
    requires LastEnded(codec, surfaces, schedule, ref).Some?
    ensures var s := Run(Initial(codec, surfaces), schedule); ref.sid < |s.surfaces| && ref.fence <= s.surfaces[ref.sid].fence
  {
    hide Apply, Inv;
    if |schedule| > 0 {
      var front, a := schedule[..|schedule| - 1], schedule[|schedule| - 1];
      var s := Run(Initial(codec, surfaces), front);
      if LastEnded(codec, surfaces, front, ref).Some? {
        EndedHasBegun(codec, surfaces, front, ref);
      } else {
        Reachable(codec, surfaces, front);
        EndedIsHeld(s, a);
        HeldIsRightful(s, ref);
      }
      if Apply(s, a).Some? {
        FencesGrow(s, a, ref.sid);
      }
    }
  }

  lemma EndedIsHeld(s: State, a: Action)
    requires Apply(s, a).Some? && a.EndPicture? && a.built.Some?
    ensures Holds(s, a.built.value.ref)
  {
  }

  /** What a step does to the flag of a surface that was undecided and stays so, at its fence. */
  predicate PendingMoves(x: Surface, y: Surface, a: Action, i: nat) {
    Undecided(y) ==>
      || (y.fence == x.fence + 1 && !y.fieldPending)
      || (Undecided(x) && y.fence == x.fence &&
          y.fieldPending == if a.EndPicture? && a.built.Some? && a.built.value.ref == Ref(i, x.fence) then a.built.value.field else x.fieldPending)
  }

  lemma PendingByPicture(s: State, a: Action, i: nat)
    requires Apply(s, a).Some? && i < |s.surfaces| && (a.BeginPicture? || a.EndPicture?)
    ensures |Apply(s, a).value.surfaces| == |s.surfaces| && PendingMoves(s.surfaces[i], Apply(s, a).value.surfaces[i], a, i)
  {
  }

  lemma PendingByCall(s: State, a: Action, i: nat)
    requires Apply(s, a).Some? && i < |s.surfaces| && (a.FinishCall? || a.OtherContextBegins? || a.OtherContextTouches?)
    ensures |Apply(s, a).value.surfaces| == |s.surfaces| && PendingMoves(s.surfaces[i], Apply(s, a).value.surfaces[i], a, i)
  {
  }

  lemma PendingByWork(s: State, a: Action, i: nat)
    requires Apply(s, a).Some? && i < |s.surfaces| && !ApiAction(a) && !SubmitAction(a)
    ensures |Apply(s, a).value.surfaces| == |s.surfaces| && PendingMoves(s.surfaces[i], Apply(s, a).value.surfaces[i], a, i)
  {
    hide Begin, End, Finish, OtherBegin, OtherTouch, EmitToken, EmitNext, TakeJob, Start, Accept, Refuse, CompleteJob;
    if a.EmitsToken? || a.EmitsNext? {
      SameSurfaces(s, a);
    }
  }

  lemma PendingBySubmit(s: State, a: Action, i: nat)
    requires Apply(s, a).Some? && i < |s.surfaces| && SubmitAction(a)
    ensures |Apply(s, a).value.surfaces| == |s.surfaces| && PendingMoves(s.surfaces[i], Apply(s, a).value.surfaces[i], a, i)
  {
    hide Begin, End, Finish, OtherBegin, OtherTouch, Start, Accept, Refuse;
    if a.Starts? || a.Accepts? || a.Refuses? {
      SameSurfaces(s, a);
    }
  }

  lemma PendingKept(s: State, a: Action, i: nat)
    requires Apply(s, a).Some? && i < |s.surfaces|
    ensures |Apply(s, a).value.surfaces| == |s.surfaces| && PendingMoves(s.surfaces[i], Apply(s, a).value.surfaces[i], a, i)
  {
    hide Apply, PendingMoves;
    if a.BeginPicture? || a.EndPicture? {
      PendingByPicture(s, a, i);
    } else if ApiAction(a) {
      PendingByCall(s, a, i);
    } else if SubmitAction(a) {
      PendingBySubmit(s, a, i);
    } else {
      PendingByWork(s, a, i);
    }
  }

  lemma SameSurfaces(s: State, a: Action)
    requires Apply(s, a).Some? && (a.Starts? || a.Accepts? || a.Refuses? || a.EmitsToken? || a.EmitsNext?)
    ensures Apply(s, a).value.surfaces == s.surfaces
  {
    hide FindSurface, IndexOf, Without, InStep;
  }

  lemma OwnFencesPositive(s: State, a: Action, i: nat)
    requires Apply(s, a).Some? && i < |s.surfaces| && (s.surfaces[i].owner == Ours ==> s.surfaces[i].fence > 0)
    ensures |Apply(s, a).value.surfaces| == |s.surfaces|
    ensures Apply(s, a).value.surfaces[i].owner == Ours ==> Apply(s, a).value.surfaces[i].fence > 0
  {
    hide Apply;
    StepDecides(s, a, i, s.pc.Completing? && s.pc.success);
  }

  lemma {:induction false} FlagIsRight(codec: Codec, surfaces: nat, schedule: seq<Action>, sid: nat)
    ensures var s := Run(Initial(codec, surfaces), schedule);
            sid < |s.surfaces| ==> Remembers(s.surfaces[sid], LastEnded(codec, surfaces, schedule, Ref(sid, s.surfaces[sid].fence)))
  {
    hide Apply, Inv;
    if |schedule| > 0 {
      var front, a := schedule[..|schedule| - 1], schedule[|schedule| - 1];
      var s, s' := Run(Initial(codec, surfaces), front), Run(Initial(codec, surfaces), schedule);
      FlagIsRight(codec, surfaces, front, sid);
      if Apply(s, a).Some? && sid < |s.surfaces| {
        Reachable(codec, surfaces, front);
        PendingKept(s, a, sid);
        OwnFencesPositive(s, a, sid);
        var x, y := s.surfaces[sid], s'.surfaces[sid];
        if Undecided(y) && y.fence > x.fence {
          if LastEnded(codec, surfaces, front, Ref(sid, y.fence)).Some? {
            EndedHasBegun(codec, surfaces, front, Ref(sid, y.fence));
          }
          EndedNow(s, a, Ref(sid, y.fence));
        }
      } else if Apply(s, a).Some? {
        SurfaceStep(s, a);
      }
    }
  }

  lemma EndedNow(s: State, a: Action, ref: Ref)
    requires Apply(s, a).Some? && Inv(s) && ref.sid < |s.surfaces| && ref.fence > s.surfaces[ref.sid].fence
    ensures !(a.EndPicture? && a.built.Some? && a.built.value.ref == ref)
  {
    hide Inv;
    if a.EndPicture? && a.built.Some? && a.built.value.ref == ref {
      EndedIsHeld(s, a);
      HeldIsRightful(s, ref);
    }
  }

  /**
   rk_BeginPicture goes on at the fence of a surface if and only if this H.264 context has left it undecided
   behind the end of a field; otherwise it opens the next fence, undecided and without a frame.
   */
  lemma SecondFieldContinues(codec: Codec, surfaces: nat, schedule: seq<Action>, sid: nat)
    ensures var s := Run(Initial(codec, surfaces), schedule);
            Begin(s, sid).Some? ==>
              var x, s' := s.surfaces[sid], Begin(s, sid).value;
              var last := LastEnded(codec, surfaces, schedule, Ref(sid, x.fence));
              && sid < |s'.surfaces| && s'.render == Some(Ref(sid, s'.surfaces[sid].fence))
              && s'.surfaces[sid] == if codec == H264 && x.owner == Ours && !x.decoded && !x.failed && last.Some? && last.value.field then x
                                     else Surface(x.fence + 1, false, false, false, Ours, None)
  {
    hide Run, Initial;
    FlagIsRight(codec, surfaces, schedule, sid);
    DecodedShowsAFrame(codec, surfaces, schedule);
  }

  // ---------- one route for both fields ----------

  /** Two routes for one fence wait together only if a job there was not a field. */
  ghost predicate Paired(s: State) {
    forall i, k :: 0 <= i < k < |s.routes| && s.routes[i].ref == s.routes[k].ref ==> FrameJob(s.log.jobs, s.routes[i].ref)
  }

  ghost predicate FrameJob(jobs: set<Job>, ref: Ref) {
    exists j :: j in jobs && j.ref == ref && !j.field
  }

  /** Only a field goes to MPP under the token of a waiting route. */
  predicate PutUnderToken(s: State) {
    s.pc.Putting? ==> s.pc.packet.Fresh? || (s.pc.packet.Continuation? && s.pc.job.field)
  }

  lemma PairedAdded(s: State, s': State, r: Route)
    requires Paired(s) && s'.log.jobs == s.log.jobs && (s'.routes == [r] + s.routes || s'.routes == s.routes + [r])
    requires FindSurface(s.routes, r.ref).None? || FrameJob(s.log.jobs, r.ref)
    ensures Paired(s')
  {
    hide FrameJob;
    forall i, k | 0 <= i < k < |s'.routes| && s'.routes[i].ref == s'.routes[k].ref
      ensures FrameJob(s'.log.jobs, s'.routes[i].ref)
    {
      if s'.routes == [r] + s.routes {
        assert s'.routes[k] == s.routes[k - 1] && (i > 0 ==> s'.routes[i] == s.routes[i - 1]);
        assert s.routes[k - 1] in s.routes;
      } else {
        assert s'.routes[i] == s.routes[i] && (k < |s.routes| ==> s'.routes[k] == s.routes[k]);
        assert s.routes[i] in s.routes;
      }
    }
  }

  lemma PairedLess(s: State, s': State, i: nat)
    requires Paired(s) && s.log.jobs <= s'.log.jobs && (s'.routes == Without(s.routes, i) || s'.routes == s.routes || s'.routes == [])
    ensures Paired(s')
  {
  }

  lemma PairedStart(s: State, memory: bool)
    requires Start(s, memory).Some? && Paired(s) && s.codec == H264 && s.pc.job in s.log.jobs
    ensures Paired(Start(s, memory).value) && PutUnderToken(Start(s, memory).value)
  {
    hide Paired;
    var s' := Start(s, memory).value;
    var r := Route(s.pc.job.ref, s.pc.job.token);
    if s'.routes == s.routes {
      PairedLess(s, s', 0);
    } else {
      assert FindSurface(s.routes, r.ref).None? || FrameJob(s.log.jobs, r.ref);
      PairedAdded(s, s', r);
    }
  }

  lemma PairedAccept(s: State, memory: bool)
    requires Accept(s, memory).Some? && Paired(s) && s.codec == H264 && PutUnderToken(s)
    ensures Paired(Accept(s, memory).value) && PutUnderToken(Accept(s, memory).value)
  {
    hide Paired;
    var s' := Accept(s, memory).value;
    if s'.routes == s.routes {
      PairedLess(s, s', 0);
    } else if s.pc.packet.Continuation? {
      PairedAdded(s, s', Route(s.pc.job.ref, s.pc.packet.token));
    }
  }

  lemma WithoutFirst(routes: seq<Route>)
    ensures routes != [] ==> Without(routes, 0) == routes[1..]
  {
  }

  lemma RoutesShrink(s: State, a: Action) returns (k: nat)
    requires Apply(s, a).Some? && s.codec == H264 && !a.Starts? && !a.Accepts?
    ensures var routes := Apply(s, a).value.routes; routes == Without(s.routes, k) || routes == s.routes || routes == []
  {
    hide Begun, Completed, Failed, Published, InStep;
    WithoutFirst(s.routes);
    k := if a.Refuses? then IndexOf(s.routes, if s.pc.packet.Continuation? then s.pc.packet.token else s.pc.job.token)
         else if a.EmitsToken? then IndexOf(s.routes, a.token)
         else 0;
  }

  lemma OthersPutUnderToken(s: State, a: Action)
    requires Apply(s, a).Some? && PutUnderToken(s) && !a.Starts? && !a.Accepts?
    ensures PutUnderToken(Apply(s, a).value)
  {
    hide Begun, Completed, Failed, Published, IndexOf, Without, InStep;
  }

  lemma PairedOther(s: State, a: Action)
    requires Apply(s, a).Some? && Paired(s) && s.codec == H264 && PutUnderToken(s) && !a.Starts? && !a.Accepts? && s.log.jobs <= Apply(s, a).value.log.jobs
    ensures Paired(Apply(s, a).value) && PutUnderToken(Apply(s, a).value)
  {
    hide Apply, Paired, PutUnderToken, Without;
    var k := RoutesShrink(s, a);
    PairedLess(s, Apply(s, a).value, k);
    OthersPutUnderToken(s, a);
  }

  lemma {:induction false} PairedReachable(surfaces: nat, schedule: seq<Action>)
    ensures Paired(Run(Initial(H264, surfaces), schedule)) && PutUnderToken(Run(Initial(H264, surfaces), schedule))
  {
    hide Apply, Paired, AllShown;
    if |schedule| == 0 {
      NothingPaired(surfaces);
    } else {
      var front, a := schedule[..|schedule| - 1], schedule[|schedule| - 1];
      var s := Run(Initial(H264, surfaces), front);
      PairedReachable(surfaces, front);
      DecodedShowsAFrame(H264, surfaces, front);
      NotedJobs(s);
      if Apply(s, a).Some? {
        PairedStep(s, a);
      }
    }
  }

  lemma NotedJobs(s: State)
    requires AllShown(s)
    ensures JobsNoted(s) && PcShows(s)
  {
  }

  lemma PairedStep(s: State, a: Action)
    requires Apply(s, a).Some? && Paired(s) && s.codec == H264 && PutUnderToken(s) && JobsNoted(s) && PcShows(s)
    ensures Paired(Apply(s, a).value) && PutUnderToken(Apply(s, a).value)
  {
    hide Paired, FindSurface, Accept, PutUnderToken;
    NotesStep(s, a);
    match a
    case Starts(memory) => PairedStart(s, memory);
    case Accepts(memory) => PairedAccept(s, memory);
    case _ => PairedOther(s, a);
  }

  lemma NothingPaired(surfaces: nat)
    ensures Paired(Initial(H264, surfaces)) && PutUnderToken(Initial(H264, surfaces))
  {
  }

  /**
   In every H.264 run: at a fence whose pictures were all fields at most one route waits; and a packet goes to MPP
   under another job's token only if it is a field.
   */
  lemma FieldsShareARoute(surfaces: nat, schedule: seq<Action>, ref: Ref)
    ensures var s := Run(Initial(H264, surfaces), schedule);
            && ((forall j :: j in s.log.jobs && j.ref == ref ==> j.field) ==>
                  forall i, k :: 0 <= i < k < |s.routes| ==> !(s.routes[i].ref == ref && s.routes[k].ref == ref))
            && (s.pc.Putting? ==> s.pc.packet.Fresh? || (s.pc.packet.Continuation? && s.pc.job.field))
  {
    hide Run, Initial;
    PairedReachable(surfaces, schedule);
  }
}
