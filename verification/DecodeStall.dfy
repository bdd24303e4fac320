/** What goes wrong with VP9 once a stall flush has emptied the routes, in three runs. */
module DecodeStall {
  import opened Options
  import opened DecodeState
  import opened DecodeFifo
  import opened RouteLifetime

  function Picture(sid: nat): Job {
    Job(Ref(sid, 1), 0, false, false, false, false)
  }

  /** One picture for surface `sid`, up to its packet. */
  function Submit(sid: nat): seq<Action> {
    [BeginPicture(sid), EndPicture(Some(Picture(sid))), FinishCall(EnqueueLater(Picture(sid))), TakesJob, Starts(true)]
  }

  const STALL: seq<Action> := [Stalls, Flushes, Flushes]
  const LATE: seq<Action> := [EmitsNext, Checks, Delivers(true)]

  /** A stall fails the first picture; its late frame comes when the second waits. */
  function LateFrame(): seq<Action> {
    Submit(0) + ([Accepts(true)] + (STALL + (Submit(1) + ([Accepts(true)] + (LATE + [])))))
  }

  /** Here the late frame comes while the second packet is being put. */
  function EarlyFrame(): seq<Action> {
    Submit(0) + ([Accepts(true)] + (STALL + (Submit(1) + (LATE + ([Accepts(true)] + [])))))
  }

  lemma {:induction false} RunCons(s: State, a: Action, rest: seq<Action>)
    requires Apply(s, a).Some?
    ensures Run(s, [a] + rest) == Run(Apply(s, a).value, rest)
  {
    hide Apply;
    var n := |rest|;
    if n == 0 {
      assert ([a] + rest)[..0] == [];
    } else {
      assert ([a] + rest)[..n] == [a] + rest[..n - 1];
      RunCons(s, a, rest[..n - 1]);
    }
  }

  /** A context with nothing under way. */
  predicate Quiet(s: State) {
    && s.codec == Vp9 && s.teardown == Running && s.render.None? && s.handoffs == multiset{} && s.queue == []
    && s.pc == Idle && s.delivering.None?
  }

  lemma SubmitRuns(s: State, sid: nat, rest: seq<Action>) returns (s': State)
    requires Quiet(s) && sid < |s.surfaces| && s.surfaces[sid] == Surface(0, false, false, false, Nobody, None)
    ensures Run(s, Submit(sid) + rest) == Run(s', rest) && Quiet(s'.(pc := Idle))
    ensures s'.pc == Putting(Picture(sid).(token := s.nextToken + 1), Shown) && s'.nextToken == s.nextToken + 1
    ensures s'.surfaces == s.surfaces[sid := Surface(1, false, false, false, Ours, None)]
    ensures s'.routes == s.routes + [Route(Ref(sid, 1), s.nextToken + 1)]
    ensures s'.outstanding == s.outstanding && s'.log == s.log.(issuedFor := s'.log.issuedFor, jobs := s'.log.jobs)
  {
    hide Run;
    var d := Submit(sid);
    var s1 := Apply(s, d[0]).value;
    var s2 := Apply(s1, d[1]).value;
    assert s2.handoffs == multiset{EnqueueLater(Picture(sid))};
    var s3 := Apply(s2, d[2]).value;
    var s4 := Apply(s3, d[3]).value;
    s' := Apply(s4, d[4]).value;
    RunFive(s, d, s1, s2, s3, s4, s', rest);
  }

  lemma RunFive(s: State, d: seq<Action>, s1: State, s2: State, s3: State, s4: State, s5: State, rest: seq<Action>)
    requires |d| == 5
    requires Apply(s, d[0]) == Some(s1) && Apply(s1, d[1]) == Some(s2) && Apply(s2, d[2]) == Some(s3)
    requires Apply(s3, d[3]) == Some(s4) && Apply(s4, d[4]) == Some(s5)
    ensures Run(s, d + rest) == Run(s5, rest)
  {
    hide Apply, Run;
    assert d + rest == [d[0]] + ([d[1]] + ([d[2]] + ([d[3]] + ([d[4]] + rest))));
    RunCons(s, d[0], [d[1]] + ([d[2]] + ([d[3]] + ([d[4]] + rest))));
    RunCons(s1, d[1], [d[2]] + ([d[3]] + ([d[4]] + rest)));
    RunCons(s2, d[2], [d[3]] + ([d[4]] + rest));
    RunCons(s3, d[3], [d[4]] + rest);
    RunCons(s4, d[4], rest);
  }

  lemma AcceptRuns(s: State, rest: seq<Action>) returns (s': State)
    requires s.pc.Putting? && s.pc.packet.Shown? && s.delivering.None?
    ensures Run(s, [Accepts(true)] + rest) == Run(s', rest) && Accept(s, true) == Some(s')
  {
    hide Run;
    s' := Apply(s, Accepts(true)).value;
    RunCons(s, Accepts(true), rest);
  }

  lemma StallRuns(s: State, rest: seq<Action>) returns (s': State)
    requires Quiet(s) && |s.routes| == 1 && s.outstanding > 0
    ensures Run(s, STALL + rest) == Run(s', rest) && Quiet(s')
    ensures s'.surfaces == Fail(s, s.routes[0].ref).surfaces && s'.routes == [] && s'.outstanding == 0 && s'.nextToken == s.nextToken
    ensures s'.log == s.log.(flushed := true, miscounted := false)
  {
    hide Run;
    var s1 := Apply(s, Stalls).value;
    var s2 := Apply(s1, Flushes).value;
    s' := Apply(s2, Flushes).value;
    assert STALL + rest == [Stalls] + ([Flushes] + ([Flushes] + rest));
    RunCons(s, Stalls, [Flushes] + ([Flushes] + rest));
    RunCons(s1, Flushes, [Flushes] + rest);
    RunCons(s2, Flushes, rest);
  }

  lemma LateRuns(s: State, rest: seq<Action>) returns (s': State)
    requires s.codec == Vp9 && CanDrain(s) && |s.routes| == 1 && s.log.emitted < |s.log.outputs| && Current(s, s.routes[0].ref)
    ensures Run(s, LATE + rest) == Run(s', rest)
    ensures s'.surfaces == Publish(s, s.routes[0].ref, s.log.emitted).surfaces && s'.routes == [] && s'.pc == s.pc && s'.delivering.None? && s'.teardown == s.teardown
    ensures s'.log == s.log.(emitted := s.log.emitted + 1, misled := s.log.misled || !InStep(s))
    ensures s'.outstanding == if s.outstanding > 0 then s.outstanding - 1 else 0
  {
    hide Run, InStep;
    var s1 := Apply(s, EmitsNext).value;
    var s2 := Apply(s1, Checks).value;
    s' := Apply(s2, Delivers(true)).value;
    assert LATE + rest == [EmitsNext] + ([Checks] + ([Delivers(true)] + rest));
    RunCons(s, EmitsNext, [Checks] + ([Delivers(true)] + rest));
    RunCons(s1, Checks, [Delivers(true)] + rest);
    RunCons(s2, Delivers(true), rest);
  }

  lemma RunNothing(s: State)
    ensures Run(s, []) == s
  {
  }

  /** Up to the second packet: the first picture has failed, and its frame is still to come. */
  lemma UpToSecond(rest: seq<Action>) returns (s: State)
    ensures Run(Initial(Vp9, 2), Submit(0) + ([Accepts(true)] + (STALL + (Submit(1) + rest)))) == Run(s, rest)
    ensures Quiet(s.(pc := Idle)) && s.pc == Putting(Picture(1).(token := 2), Shown) && s.routes == [Route(Ref(1, 1), 2)] && s.outstanding == 0
    ensures |s.surfaces| == 2 && s.surfaces[1] == Surface(1, false, false, false, Ours, None)
    ensures s.log.outputs == [Route(Ref(0, 1), 1)] && s.log.emitted == 0 && s.log.flushed && !s.log.miscounted
  {
    hide Run;
    var s0 := Initial(Vp9, 2);
    var s1 := SubmitRuns(s0, 0, [Accepts(true)] + (STALL + (Submit(1) + rest)));
    var s2 := AcceptRuns(s1, STALL + (Submit(1) + rest));
    var s3 := StallRuns(s2, Submit(1) + rest);
    s := SubmitRuns(s3, 1, rest);
  }

  /**
   After a stall flush a late VP9 frame is published on the surface of a newer picture: routes and
   frames were out of step, as DecodeFifo.FrameTakesItsRouteIff asks.
   */
  lemma LateFrameMisrouted()
    ensures var s := Run(Initial(Vp9, 2), LateFrame());
            && s.log.flushed && |s.surfaces| == 2 && |s.log.outputs| == 2
            && s.log.outputs[0].ref == Ref(0, 1)
            && s.surfaces[1] == Surface(1, true, false, false, Ours, Some(0))
            && Misrouted(2, LateFrame())
  {
    hide Run, Misrouted;
    var s1 := UpToSecond([Accepts(true)] + (LATE + []));
    var s2 := AcceptRuns(s1, LATE + []);
    var s3 := LateRuns(s2, []);
    RunNothing(s3);
    MisledIffMisrouted(2, LateFrame());
  }

  /**
   When the late frame comes while the second packet is being put, it takes that packet's route;
   once MPP accepts the packet, one frame is outstanding and no route is left for it.
   */
  lemma FrameWithoutRouteCounted()
    ensures var s := Run(Initial(Vp9, 2), EarlyFrame());
            s.pc == Idle && s.delivering.None? && s.teardown == Running && s.routes == [] && s.outstanding == 1 && s.log.miscounted
  {
    hide Run;
    var s1 := UpToSecond(LATE + ([Accepts(true)] + []));
    var s2 := LateRuns(s1, [Accepts(true)] + []);
    var s3 := AcceptRuns(s2, []);
    RunNothing(s3);
  }

  /** Here that packet is refused. */
  function RefusedPacket(rest: seq<Action>): seq<Action> {
    Submit(0) + ([Accepts(true)] + (STALL + (Submit(1) + (LATE + rest))))
  }

  /** The route of the refused packet has been destroyed with the late frame, and is destroyed again. */
  lemma RouteDestroyedAgain()
    ensures RefusedWithoutRoute(Vp9, 2, RefusedPacket([Refuses]))
  {
    hide Run, RefusedWithoutRoute, Initial;
    var s1 := UpToSecond(LATE + []);
    var s2 := LateRuns(s1, []);
    RunNothing(s2);
    assert RefusedPacket([Refuses]) == RefusedPacket([]) + [Refuses];
    assert RefusedPacket([Refuses])[..|RefusedPacket([])|] == RefusedPacket([]);
    assert DestroysAgain(s2, Refuses);
    RefusedFront(Vp9, 2, RefusedPacket([Refuses]));
  }
}
