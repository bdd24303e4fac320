/**
 The decode protocol of src/mpp_dec.c and src/context.c as a state machine: one context with its
 worker thread, the surfaces it decodes into, API threads that begin, end and enqueue pictures,
 other contexts that reuse the surfaces, and the MPP backend as an oracle.  One step is at most
 one critical section on a surface or on the work queue.
 */
module DecodeState {
  import opened Options

  datatype Codec = H264 | Hevc | Vp9

  /** A surface at one of its fences: what a picture is decoded for. */
  datatype Ref = Ref(sid: nat, fence: nat)

  /** Who issued the current fence of a surface (its ctx_id). */
  datatype Owner = Nobody | Ours | Other

  /** `frame` is the MPP output frame this context published on the surface, by the packet it came from. */
  datatype Surface = Surface(fence: nat, decoded: bool, failed: bool, fieldPending: bool, owner: Owner, frame: Option<nat>)

  /** RKDecodeJob; `empty` when the packet has no bytes, `repeat` when a hidden frame refreshes a slot. */
  datatype Job = Job(ref: Ref, token: nat, empty: bool, field: bool, hidden: bool, repeat: bool)

  datatype Route = Route(ref: Ref, token: nat)

  /** The packet a worker is trying to put. */
  datatype Packet = Fresh | Continuation(token: nat) | HiddenFrame | Shown | Repeat

  datatype Pc =
    | Idle
    | Submitting(job: Job)
    | Putting(job: Job, packet: Packet)
    | Completing(job: Job, success: bool)
    | Flushing(rest: seq<Route>)
    | Exited

  /** A frame on its way to its surface; `checked` once the fence was found current. */
  datatype Delivery = Delivery(route: Route, frame: nat, checked: bool)

  /** What an API thread still has to do after it left the picture lock. */
  datatype Handoff = FailLater(ref: Ref) | EnqueueLater(job: Job) | RejectLater(job: Job)

  datatype Teardown = Running | Draining | SweepJobs | SweepRoutes | SweepRender | Stopped

  /** What a spectator notes: no step of the driver depends on it, the oracle only on `accepted`, `outputs` and `emitted`. */
  datatype Log = Log(
    issuedFor: map<nat, Ref>,   // the surface and fence each token was given out for
    accepted: set<nat>,         // tokens of the packets MPP has accepted and will show
    outputs: seq<Route>,        // VP9: accepted packets that show a frame, in order
    emitted: nat,               // VP9: frames MPP has delivered
    flushed: bool,              // a stall flush has happened
    misled: bool,               // VP9: a frame has taken the route of another packet
    miscounted: bool,           // VP9: outstanding_frames counts a packet whose route is gone
    jobs: set<Job>              // every job that was given a token
  )

  datatype State = State(
    codec: Codec,
    surfaces: seq<Surface>,
    render: Option<Ref>,
    handoffs: multiset<Handoff>,
    queue: seq<Job>,
    nextToken: nat,
    routes: seq<Route>,
    outstanding: nat,
    pc: Pc,
    delivering: Option<Delivery>,
    teardown: Teardown,
    log: Log
  )

  function TokenRouted(s: State): bool {
    s.codec != Vp9
  }

  // ---------- surfaces ----------

  function OnSurface(s: State, sid: nat, x: Surface): State
    requires sid < |s.surfaces|
  {
    s.(surfaces := s.surfaces[sid := x])
  }

  /** complete_surface_ref. */
  function Completed(x: Surface, fence: nat, success: bool): Surface {
    if x.fence == fence then x.(decoded := success, failed := !success, fieldPending := false) else x
  }

  /** rk_mpp_dec_fail_surface. */
  function Failed(x: Surface, fence: nat): Surface {
    if x.fence == fence && !x.decoded then x.(failed := true) else x
  }

  /** Publication at the end of assign_mpp_frame. */
  function Published(x: Surface, fence: nat, frame: nat): Surface {
    if x.fence == fence then x.(decoded := true, failed := false, fieldPending := false, frame := Some(frame)) else x
  }

  function Complete(s: State, ref: Ref, success: bool): State {
    if ref.sid < |s.surfaces| then OnSurface(s, ref.sid, Completed(s.surfaces[ref.sid], ref.fence, success)) else s
  }

  function Fail(s: State, ref: Ref): State {
    if ref.sid < |s.surfaces| then OnSurface(s, ref.sid, Failed(s.surfaces[ref.sid], ref.fence)) else s
  }

  function Publish(s: State, ref: Ref, frame: nat): State {
    if ref.sid < |s.surfaces| then OnSurface(s, ref.sid, Published(s.surfaces[ref.sid], ref.fence, frame)) else s
  }

  // ---------- routes ----------

  /** The first route with a token. */
  function IndexOf(routes: seq<Route>, token: nat): (i: nat)
    ensures i <= |routes|
    ensures i < |routes| ==> routes[i].token == token
    ensures forall k :: 0 <= k < i ==> routes[k].token != token
  {
    if |routes| == 0 || routes[0].token == token then 0 else 1 + IndexOf(routes[1..], token)
  }

  function Without<T>(routes: seq<T>, i: nat): seq<T> {
    if i < |routes| then routes[..i] + routes[i + 1..] else routes
  }

  /** h264_route_find_surface: the first route of a surface at a fence. */
  function FindSurface(routes: seq<Route>, ref: Ref): (r: Option<Route>)
    ensures r.Some? ==> r.value in routes && r.value.ref == ref
    ensures r.None? ==> forall x :: x in routes ==> x.ref != ref
  {
    if |routes| == 0 then None
    else if routes[0].ref == ref then Some(routes[0])
    else FindSurface(routes[1..], ref)
  }

  /** The packet being put has, or had, a route of its own. */
  predicate PuttingOwnRoute(pc: Pc) {
    pc.Putting? && (pc.packet.Fresh? || pc.packet.Shown? || pc.packet.Repeat?)
  }

  /** The routes of accepted packets: new token routes go in front, generic ones behind. */
  function Backlog(pc: Pc, routes: seq<Route>): seq<Route> {
    if !PuttingOwnRoute(pc) || routes == [] then routes
    else if pc.packet.Fresh? then routes[1..]
    else routes[..|routes| - 1]
  }

  /** VP9: as many accepted packets have a route as frames are still to come. */
  predicate InStep(s: State) {
    |Backlog(s.pc, s.routes)| == |s.log.outputs| - s.log.emitted
  }

  /** A late frame took the route of the very packet that is being put. */
  predicate RouteTaken(s: State) {
    PuttingOwnRoute(s.pc) && s.routes == []
  }

  // ---------- API threads ----------

  /** The second field of an H.264 picture goes to the fence of the first. */
  predicate Continues(s: State, x: Surface) {
    s.codec == H264 && x.fieldPending && x.owner == Ours && !x.decoded && !x.failed && x.fence != 0
  }

  function Begun(s: State, x: Surface): Surface {
    if Continues(s, x) then x else Surface(x.fence + 1, false, false, false, Ours, None)
  }

  /** rk_BeginPicture up to the release of the picture lock. */
  function Begin(s: State, sid: nat): Option<State> {
    if s.teardown != Running || sid >= |s.surfaces| then None
    else
      var x := Begun(s, s.surfaces[sid]);
      Some(OnSurface(s, sid, x).(
        render := Some(Ref(sid, x.fence)),
        handoffs := s.handoffs + (if s.render.Some? then multiset{FailLater(s.render.value)} else multiset{})))
  }

  /** rk_EndPicture up to the release of the picture lock; no job when it could not be built. */
  function End(s: State, built: Option<Job>): Option<State> {
    if s.teardown != Running || s.render.None? || s.render.value.sid >= |s.surfaces| then None
    else
      var ref := s.render.value;
      var x := s.surfaces[ref.sid];
      match built
      case None => Some(s.(render := None, handoffs := s.handoffs + multiset{FailLater(ref)}))
      case Some(j) =>
        if j.ref != ref then None
        else
          Some(OnSurface(s, ref.sid, if x.fence == ref.fence then x.(fieldPending := j.field) else x)
                 .(render := None, handoffs := s.handoffs + multiset{EnqueueLater(j)}))
  }

  /** The rest of an API call; rk_mpp_dec_enqueue_job numbers the jobs. */
  function Finish(s: State, h: Handoff): Option<State> {
    if h !in s.handoffs then None
    else
      var s' := s.(handoffs := s.handoffs - multiset{h});
      match h
      case FailLater(ref) => Some(Fail(s', ref))
      case RejectLater(j) => Some(Complete(s', j.ref, false))
      case EnqueueLater(j) =>
        if s.teardown != Running && s.teardown != Draining then
          Some(s'.(handoffs := s'.handoffs + multiset{RejectLater(j)}))
        else
          var token := s.nextToken + 1;
          Some(s'.(nextToken := token, queue := s.queue + [j.(token := token)],
                   log := s.log.(issuedFor := s.log.issuedFor[token := j.ref], jobs := s.log.jobs + {j.(token := token)})))
  }

  // ---------- other contexts ----------

  function OtherBegin(s: State, sid: nat): Option<State> {
    if sid >= |s.surfaces| then None
    else Some(OnSurface(s, sid, Surface(s.surfaces[sid].fence + 1, false, false, false, Other, None)))
  }

  function OtherTouch(s: State, sid: nat, decoded: bool, failed: bool, pending: bool): Option<State> {
    if sid >= |s.surfaces| || s.surfaces[sid].owner != Other then None
    else Some(OnSurface(s, sid, s.surfaces[sid].(decoded := decoded, failed := failed, fieldPending := pending)))
  }

  // ---------- the worker ----------

  predicate WorkerFree(s: State) {
    s.pc == Idle && s.delivering.None?
  }

  function TakeJob(s: State): Option<State> {
    if WorkerFree(s) && s.queue != [] then Some(s.(pc := Submitting(s.queue[0]), queue := s.queue[1..])) else None
  }

  /** The decision at the head of worker_submit_job; `memory` says whether a route can be made. */
  function Start(s: State, memory: bool): Option<State> {
    if !s.pc.Submitting? || s.delivering.Some? then None
    else
      var j := s.pc.job;
      if j.empty then Some(s.(pc := Completing(j, true)))
      else if TokenRouted(s) then
        var paired := if s.codec == H264 && j.field then FindSurface(s.routes, j.ref) else None;
        match paired
        case Some(r) => Some(s.(pc := Putting(j, Continuation(r.token))))
        case None =>
          if !memory then Some(s.(pc := Completing(j, false)))
          else Some(s.(pc := Putting(j, Fresh), routes := [Route(j.ref, j.token)] + s.routes))
      else if j.hidden then Some(s.(pc := Putting(j, HiddenFrame)))
      else if !memory then Some(s.(pc := Completing(j, false)))
      else Some(s.(pc := Putting(j, Shown), routes := s.routes + [Route(j.ref, j.token)]))
  }

  /** decode_put_packet took the packet. */
  function Accept(s: State, memory: bool): Option<State> {
    if !s.pc.Putting? || s.delivering.Some? then None
    else
      var j := s.pc.job;
      match s.pc.packet
      case Fresh => Some(s.(pc := Idle, outstanding := s.outstanding + 1, log := s.log.(accepted := s.log.accepted + {j.token})))
      case Continuation(t) =>
        if FindSurface(s.routes, j.ref).Some? then Some(s.(pc := Idle))
        else if !memory then Some(s.(pc := Completing(j, false)))
        else Some(s.(pc := Idle, routes := [Route(j.ref, t)] + s.routes, outstanding := s.outstanding + 1))
      case HiddenFrame =>
        if !j.repeat then Some(s.(pc := Completing(j, true)))
        else if !memory then Some(s.(pc := Completing(j, false)))
        else Some(s.(pc := Putting(j, Repeat), routes := s.routes + [Route(j.ref, j.token)]))
      case _ =>
        Some(s.(pc := Idle, outstanding := s.outstanding + 1,
                log := s.log.(accepted := s.log.accepted + {j.token}, outputs := s.log.outputs + [Route(j.ref, j.token)],
                              miscounted := s.log.miscounted || RouteTaken(s))))
  }

  /** The put was given up: the job's route goes, and its surface will fail. */
  function Refuse(s: State): Option<State> {
    if !s.pc.Putting? || s.delivering.Some? then None
    else
      var j := s.pc.job;
      var token := if s.pc.packet.Continuation? then s.pc.packet.token else j.token;
      var s' := s.(pc := Completing(j, false));
      if s.pc.packet.HiddenFrame? then Some(s')
      else
        var i := IndexOf(s.routes, token);
        Some(s'.(routes := Without(s.routes, i), log := s.log.(miscounted := s.log.miscounted && !RouteTaken(s)),
                 outstanding := if s.pc.packet.Continuation? && i < |s.routes| && s.outstanding > 0
                                then s.outstanding - 1 else s.outstanding))
  }

  function CompleteJob(s: State): Option<State> {
    if !s.pc.Completing? || s.delivering.Some? then None
    else Some(Complete(s, s.pc.job.ref, s.pc.success).(pc := Idle))
  }

  /** The worker calls decode_get_frame when it is free and while a put is held up. */
  predicate CanDrain(s: State) {
    (s.pc.Idle? || s.pc.Putting?) && s.delivering.None?
  }

  /** H.264 and HEVC: a frame carries the token of an accepted packet; without a route it is dropped. */
  function EmitToken(s: State, token: nat): Option<State> {
    if !TokenRouted(s) || !CanDrain(s) || token !in s.log.accepted then None
    else
      var i := IndexOf(s.routes, token);
      if i == |s.routes| then Some(s)
      else Some(s.(routes := Without(s.routes, i), delivering := Some(Delivery(s.routes[i], token, false))))
  }

  /** VP9: one frame for each shown packet, in order; the oldest route takes it. */
  function EmitNext(s: State): Option<State> {
    if TokenRouted(s) || !CanDrain(s) || s.log.emitted >= |s.log.outputs| then None
    else
      var s' := s.(log := s.log.(emitted := s.log.emitted + 1));
      if s.routes == [] then Some(s')
      else
        Some(s'.(routes := s.routes[1..], delivering := Some(Delivery(s.routes[0], s.log.emitted, false)),
                 log := s'.log.(misled := s.log.misled || !InStep(s))))
  }

  /** The route is used up, and no longer outstanding. */
  function Delivered(s: State): State {
    s.(delivering := None, outstanding := if s.outstanding > 0 then s.outstanding - 1 else 0)
  }

  predicate Current(s: State, ref: Ref) {
    ref.sid < |s.surfaces| && s.surfaces[ref.sid].fence == ref.fence
  }

  /** The first look at the fence in assign_mpp_frame. */
  function Check(s: State): Option<State> {
    if s.delivering.None? || s.delivering.value.checked then None
    else if Current(s, s.delivering.value.route.ref) then
      Some(s.(delivering := Some(s.delivering.value.(checked := true))))
    else Some(Delivered(s))
  }

  /** Publication, or the failure of an unusable frame; both look at the fence again. */
  function Deliver(s: State, usable: bool): Option<State> {
    if s.delivering.None? || !s.delivering.value.checked then None
    else
      var d := s.delivering.value;
      Some(Delivered(if usable then Publish(s, d.route.ref, d.frame) else Complete(s, d.route.ref, false)))
  }

  /**
   The stall timeout: fail_pending_routes first detaches the list.  The worker looked at the drain
   request before it waited, so the request may have come since.
   */
  function Stall(s: State): Option<State> {
    if WorkerFree(s) && (s.teardown == Running || s.teardown == Draining) && s.outstanding > 0 then
      Some(s.(pc := Flushing(s.routes), routes := [], log := s.log.(flushed := true)))
    else None
  }

  function FlushOne(s: State): Option<State> {
    if !s.pc.Flushing? then None
    else if s.pc.rest == [] then Some(s.(pc := Idle, outstanding := 0, log := s.log.(miscounted := false)))
    else Some(Fail(s, s.pc.rest[0].ref).(pc := Flushing(s.pc.rest[1..])))
  }

  /** A drain ends on its deadline, on the end of the stream, or with nothing left to do. */
  function Exit(s: State): Option<State> {
    if WorkerFree(s) && s.teardown == Draining then Some(s.(pc := Exited)) else None
  }

  // ---------- rk_mpp_dec_stop ----------

  /** The last reference to the context is gone, so no API call is under way. */
  function BeginTeardown(s: State): Option<State> {
    if s.teardown == Running && s.handoffs == multiset{} then Some(s.(teardown := Draining)) else None
  }

  function Sweep(s: State): Option<State> {
    match s.teardown
    case Running => None
    case Draining => if s.pc == Exited then Some(s.(teardown := SweepJobs)) else None
    case SweepJobs =>
      if s.queue == [] then Some(s.(teardown := SweepRoutes))
      else Some(Fail(s, s.queue[0].ref).(queue := s.queue[1..]))
    case SweepRoutes =>
      if s.routes == [] then Some(s.(teardown := SweepRender, outstanding := 0))
      else Some(Fail(s, s.routes[0].ref).(routes := s.routes[1..]))
    case SweepRender =>
      Some((if s.render.Some? then Fail(s, s.render.value) else s).(render := None, teardown := Stopped))
    case Stopped => None
  }

  // ---------- steps and runs ----------

  datatype Action =
    | BeginPicture(sid: nat)
    | EndPicture(built: Option<Job>)
    | FinishCall(handoff: Handoff)
    | OtherContextBegins(sid: nat)
    | OtherContextTouches(sid: nat, decoded: bool, failed: bool, pending: bool)
    | TakesJob
    | Starts(memory: bool)
    | Accepts(memory: bool)
    | Refuses
    | CompletesJob
    | EmitsToken(token: nat)
    | EmitsNext
    | Checks
    | Delivers(usable: bool)
    | Stalls
    | Flushes
    | Exits
    | TearsDown
    | Sweeps

  function Apply(s: State, a: Action): Option<State> {
    match a
    case BeginPicture(sid) => Begin(s, sid)
    case EndPicture(built) => End(s, built)
    case FinishCall(h) => Finish(s, h)
    case OtherContextBegins(sid) => OtherBegin(s, sid)
    case OtherContextTouches(sid, decoded, failed, pending) => OtherTouch(s, sid, decoded, failed, pending)
    case TakesJob => TakeJob(s)
    case Starts(memory) => Start(s, memory)
    case Accepts(memory) => Accept(s, memory)
    case Refuses => Refuse(s)
    case CompletesJob => CompleteJob(s)
    case EmitsToken(token) => EmitToken(s, token)
    case EmitsNext => EmitNext(s)
    case Checks => Check(s)
    case Delivers(usable) => Deliver(s, usable)
    case Stalls => Stall(s)
    case Flushes => FlushOne(s)
    case Exits => Exit(s)
    case TearsDown => BeginTeardown(s)
    case Sweeps => Sweep(s)
  }

  function Initial(codec: Codec, surfaces: nat): State {
    State(codec, seq(surfaces, i => Surface(0, false, false, false, Nobody, None)), None, multiset{}, [], 0, [], 0,
          Idle, None, Running, Log(map[], {}, [], 0, false, false, false, {}))
  }

  function Run(s: State, schedule: seq<Action>): State {
    if |schedule| == 0 then s
    else
      var before := Run(s, schedule[..|schedule| - 1]);
      match Apply(before, schedule[|schedule| - 1])
      case None => before
      case Some(after) => after
  }
}
