/**
 The worker's own data of src/mpp_dec.c, updated in place: surfaces, route lists, the job queue and
 the count of outstanding frames.  Each method is proved to take the steps of module DecodeState.
 */
module DecodeWorker {
  import opened Options
  import opened Integers
  import opened DecodeState

  class RKContext {
    const surfaces: array<Surface>
    const codec: Codec
    var routes: seq<Route>
    var outstanding: nat
    var queue: seq<Job>
    var nextToken: nat
    var workerStop: bool
    /** The rest of the protocol's state. */
    ghost var rest: State

    ghost function View(): State
      reads this, surfaces
    {
      rest.(codec := codec, surfaces := surfaces[..], routes := routes, outstanding := outstanding, queue := queue, nextToken := nextToken)
    }

    /** complete_surface_ref. */
    method CompleteSurfaceRef(ref: Ref, success: bool)
      requires ref.sid < surfaces.Length
      modifies surfaces
      ensures View() == Complete(old(View()), ref, success)
    {
      var x := surfaces[ref.sid];
      if x.fence == ref.fence {
        surfaces[ref.sid] := x.(decoded := success, failed := !success, fieldPending := false);
      }
    }

    /** rk_mpp_dec_fail_surface. */
    method FailSurface(ref: Ref)
      requires ref.sid < surfaces.Length
      modifies surfaces
      ensures View() == Fail(old(View()), ref)
    {
      var x := surfaces[ref.sid];
      if x.fence == ref.fence && !x.decoded {
        surfaces[ref.sid] := x.(failed := true);
      }
    }

    /** h264_route_find_surface. */
    method RouteFindSurface(ref: Ref) returns (r: Option<Route>)
      ensures r == FindSurface(routes, ref)
    {
      var i := 0;
      while i < |routes|
        invariant i <= |routes| && FindSurface(routes, ref) == FindSurface(routes[i..], ref)
      {
        if routes[i].ref == ref {
          return Some(routes[i]);
        }
        i := i + 1;
      }
      r := None;
    }

    /** h264_route_take: the cursor walks to the first route with the token and unlinks it. */
    method RouteTake(token: nat) returns (r: Option<Route>)
      modifies this`routes
      ensures var i := IndexOf(old(routes), token);
              routes == Without(old(routes), i) && r == if i < |old(routes)| then Some(old(routes)[i]) else None
    {
      var cursor := 0;
      while cursor < |routes|
        invariant cursor <= IndexOf(routes, token) && routes == old(routes)
      {
        if routes[cursor].token == token {
          r := Some(routes[cursor]);
          routes := routes[..cursor] + routes[cursor + 1..];
          return;
        }
        cursor := cursor + 1;
      }
      r := None;
    }

    /** The end of assign_mpp_frame: a current surface shows the frame. */
    method PublishFrame(ref: Ref, frame: nat)
      requires ref.sid < surfaces.Length
      modifies surfaces
      ensures View() == Publish(old(View()), ref, frame)
    {
      var x := surfaces[ref.sid];
      if x.fence == ref.fence {
        surfaces[ref.sid] := x.(decoded := true, failed := false, fieldPending := false, frame := Some(frame));
      }
    }

    /** rk_mpp_dec_enqueue_job, the last step of the API call; the token starts again at 1 behind INT64_MAX. */
    method EnqueueJob(j: Job) returns (enqueued: bool)
      requires nextToken <= INT64_MAX && EnqueueLater(j) in rest.handoffs
      requires workerStop <==> rest.teardown != Running && rest.teardown != Draining
      modifies this`queue, this`nextToken, this`rest
      ensures enqueued == !workerStop
      ensures if !enqueued then queue == old(queue) && nextToken == old(nextToken)
              else 1 <= nextToken <= INT64_MAX && queue == old(queue) + [j.(token := nextToken)]
      ensures !enqueued || old(nextToken) < INT64_MAX ==> Finish(old(View()), EnqueueLater(j)) == Some(View())
    {
      ghost var left := rest.handoffs - multiset{EnqueueLater(j)};
      if workerStop {
        rest := rest.(handoffs := left + multiset{RejectLater(j)});
        return false;
      }
      nextToken := nextToken + 1;
      if nextToken == 0 || nextToken > INT64_MAX {
        nextToken := 1;
      }
      queue := queue + [j.(token := nextToken)];
      rest := rest.(handoffs := left,
                    log := rest.log.(issuedFor := rest.log.issuedFor[nextToken := j.ref], jobs := rest.log.jobs + {j.(token := nextToken)}));
      enqueued := true;
    }

    /** drain_output_frame and assign_mpp_frame for a token-routed frame, with nobody in between. */
    method DrainTokenFrame(token: nat, usable: bool) returns (consumed: bool)
      requires EmitToken(View(), token).Some?
      requires forall r :: r in routes ==> r.ref.sid < surfaces.Length
      modifies this, surfaces
      ensures consumed == (IndexOf(old(routes), token) < |old(routes)|)
      ensures var s := EmitToken(old(View()), token).value;
              if !consumed then View() == s
              else
                var c := Check(s).value;
                if c.delivering.None? then View() == c else View() == Deliver(c, usable).value
    {
      ghost var s := EmitToken(View(), token).value;
      var route := RouteTake(token);
      if route.None? {
        return false;
      }
      rest := rest.(delivering := Some(Delivery(route.value, token, false)));
      assert View() == s;
      var ref := route.value.ref;
      if surfaces[ref.sid].fence == ref.fence {
        if usable {
          PublishFrame(ref, token);
        } else {
          CompleteSurfaceRef(ref, false);
        }
      }
      rest := rest.(delivering := None);
      if outstanding > 0 {
        outstanding := outstanding - 1;
      }
      consumed := true;
    }

    /** fail_pending_routes: the list is detached, then every route's fence fails. */
    method FailPendingRoutes() returns (failed: nat)
      requires forall r :: r in routes ==> r.ref.sid < surfaces.Length
      modifies this`routes, this`outstanding, surfaces
      ensures failed == |old(routes)|
      ensures View() == FailAll(old(View()), old(routes)).(routes := [], outstanding := 0)
    {
      ghost var before := View();
      var list := routes;
      routes := [];
      failed := 0;
      while failed < |list|
        invariant failed <= |list| && routes == [] && outstanding == old(outstanding) && rest == old(rest)
        invariant queue == old(queue) && nextToken == old(nextToken)
        invariant View() == FailAll(before, list[..failed]).(routes := [])
      {
        assert list[..failed + 1][..failed] == list[..failed];
        FailSurface(list[failed].ref);
        failed := failed + 1;
      }
      assert list[..failed] == list;
      outstanding := 0;
    }
  }

  function FailAll(s: State, routes: seq<Route>): State {
    if |routes| == 0 then s else Fail(FailAll(s, routes[..|routes| - 1]), routes[|routes| - 1].ref)
  }

  lemma FailAllOnlySurfaces(s: State, routes: seq<Route>)
    ensures FailAll(s, routes) == s.(surfaces := FailAll(s, routes).surfaces)
  {
  }

  /** The flush of the state machine, left to run by itself, does what fail_pending_routes does. */
  lemma {:induction false} FlushIsFailAll(s: State)
    requires s.pc.Flushing?
    ensures var n := |s.pc.rest|;
            Run(s, seq(n + 1, i => Flushes)) == FailAll(s, s.pc.rest).(pc := Idle, outstanding := 0, log := s.log.(miscounted := false))
  {
    var n := |s.pc.rest|;
    FlushSome(s, n);
    FailAllOnlySurfaces(s, s.pc.rest);
    assert seq(n + 1, i => Flushes)[..n] == seq(n, i => Flushes);
    assert s.pc.rest[..n] == s.pc.rest;
  }

  lemma {:induction false} FlushSome(s: State, n: nat)
    requires s.pc.Flushing? && n <= |s.pc.rest|
    ensures Run(s, seq(n, i => Flushes)) == FailAll(s, s.pc.rest[..n]).(pc := Flushing(s.pc.rest[n..]))
  {
    hide Begin, End, Finish, OtherBegin, OtherTouch, TakeJob, Start, Accept, Refuse, CompleteJob, EmitToken, EmitNext, Check, Deliver, Stall, Exit, BeginTeardown, Sweep, Fail;
    if n > 0 {
      FlushSome(s, n - 1);
      assert seq(n, i => Flushes)[..n - 1] == seq(n - 1, i => Flushes);
      assert s.pc.rest[..n][..n - 1] == s.pc.rest[..n - 1];
      assert s.pc.rest[n - 1..][1..] == s.pc.rest[n..];
      FailIgnoresPc(FailAll(s, s.pc.rest[..n - 1]), s.pc.rest[n - 1].ref, Flushing(s.pc.rest[n - 1..]));
    } else {
      assert s.pc.rest[..0] == [] && s.pc.rest[0..] == s.pc.rest;
    }
  }

  lemma FailIgnoresPc(s: State, ref: Ref, pc: Pc)
    ensures Fail(s.(pc := pc), ref) == Fail(s, ref).(pc := pc)
    ensures forall pc' :: Fail(s, ref).(pc := pc).(pc := pc') == Fail(s, ref).(pc := pc')
  {
  }
}
