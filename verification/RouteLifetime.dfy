/**
 The life of a route: frame_route_create makes it, lists and the frame under way hold it, and
 frame_route_destroy gives it up.  Every route is destroyed once, unless a packet is refused whose
 route a late frame has taken.
 */
module RouteLifetime {
  import opened Options
  import opened DecodeState
  import opened DecodeCoverage
  import opened DecodeRouting

  /** How often a list holds a route. */
  function Times(routes: seq<Route>, r: Route): nat {
    if |routes| == 0 then 0 else (if routes[0] == r then 1 else 0) + Times(routes[1..], r)
  }

  function One(x: Option<Route>, r: Route): nat {
    if x == Some(r) then 1 else 0
  }

  function OfFrame(d: Option<Delivery>): Option<Route> {
    if d.Some? then Some(d.value.route) else None
  }

  /** The worker's list, a list being flushed, and the frame under way. */
  function Held(s: State, r: Route): nat {
    Times(s.routes, r) + One(OfFrame(s.delivering), r) + (if s.pc.Flushing? then Times(s.pc.rest, r) else 0)
  }

  /** The route made for the packet that is being put. */
  function OwnRouteOf(pc: Pc): Route
    requires pc.Putting?
  {
    Route(pc.job.ref, pc.job.token)
  }

  /** What a step makes with frame_route_create and keeps. */
  function Made(s: State, a: Action): Option<Route>
    requires Apply(s, a).Some?
  {
    match a
    case Starts(_) =>
      var pc := Apply(s, a).value.pc;
      if PuttingOwnRoute(pc) then Some(OwnRouteOf(pc)) else None
    case Accepts(_) =>
      var pc := Apply(s, a).value.pc;
      if pc.Putting? then Some(OwnRouteOf(pc))
      else if s.pc.packet.Continuation? && FindSurface(s.routes, s.pc.job.ref).None? && pc.Idle? then
        Some(Route(s.pc.job.ref, s.pc.packet.token))
      else None
    case _ => None
  }

  /** What a step gives to frame_route_destroy. */
  function Destroyed(s: State, a: Action): Option<Route>
    requires Apply(s, a).Some?
  {
    match a
    case Refuses => DestroyedByRefusal(s.pc, s.routes)
    case Checks => if Current(s, s.delivering.value.route.ref) then None else Some(s.delivering.value.route)
    case Delivers(_) => Some(s.delivering.value.route)
    case Flushes => if s.pc.rest == [] then None else Some(s.pc.rest[0])
    case Sweeps => if s.teardown.SweepRoutes? && s.routes != [] then Some(s.routes[0]) else None
    case _ => None
  }

  /** With tokens the route that is found, if any; without them the route that was made for the packet, found or not. */
  function DestroyedByRefusal(pc: Pc, routes: seq<Route>): Option<Route>
    requires pc.Putting?
  {
    match pc.packet
    case HiddenFrame => None
    case Shown => Some(OwnRouteOf(pc))
    case Repeat => Some(OwnRouteOf(pc))
    case Fresh => Found(routes, pc.job.token)
    case Continuation(token) => Found(routes, token)
  }

  /** h264_route_take. */
  function Found(routes: seq<Route>, token: nat): Option<Route> {
    var i := IndexOf(routes, token);
    if i < |routes| then Some(routes[i]) else None
  }

  /** The packet is refused, and its route, which the code then destroys, is gone already. */
  predicate DestroysAgain(s: State, a: Action) {
    a.Refuses? && Refuse(s).Some? && RouteTaken(s)
  }

  // ---------- lists ----------

  lemma {:induction false} TimesAppend(a: seq<Route>, b: seq<Route>, r: Route)
    ensures Times(a + b, r) == Times(a, r) + Times(b, r)
  {
    if |a| == 0 {
      assert a + b == b;
    } else {
      assert (a + b)[1..] == a[1..] + b;
      TimesAppend(a[1..], b, r);
    }
  }

  lemma TimesNone(r: Route)
    ensures Times([], r) == 0
  {
  }

  lemma TimesOne(x: Route, r: Route)
    ensures Times([x], r) == One(Some(x), r)
  {
    assert [x][1..] == [];
  }

  lemma TimesAdded(routes: seq<Route>, x: Route, r: Route)
    ensures Times([x] + routes, r) == Times(routes, r) + One(Some(x), r) == Times(routes + [x], r)
  {
    TimesOne(x, r);
    TimesAppend([x], routes, r);
    TimesAppend(routes, [x], r);
  }

  lemma TimesWithout(routes: seq<Route>, i: nat, r: Route)
    requires i < |routes|
    ensures Times(Without(routes, i), r) + One(Some(routes[i]), r) == Times(routes, r)
  {
    assert routes == routes[..i] + ([routes[i]] + routes[i + 1..]);
    TimesAdded(routes[i + 1..], routes[i], r);
    TimesAppend(routes[..i], [routes[i]] + routes[i + 1..], r);
    TimesAppend(routes[..i], routes[i + 1..], r);
  }

  lemma TimesHead(routes: seq<Route>, r: Route)
    requires routes != []
    ensures One(Some(routes[0]), r) + Times(routes[1..], r) == Times(routes, r)
  {
  }

  // ---------- one step ----------

  /** A step keeps the books, but for a route that it destroys again. */
  predicate Balanced(s: State, a: Action, r: Route)
    requires Apply(s, a).Some?
  {
    One(Destroyed(s, a), r) + Held(Apply(s, a).value, r)
      == Held(s, r) + One(Made(s, a), r) + (if DestroysAgain(s, a) then One(Destroyed(s, a), r) else 0)
  }

  lemma ApiBalanced(s: State, a: Action, r: Route)
    requires Apply(s, a).Some? && ApiAction(a)
    ensures Balanced(s, a, r)
  {
    hide Apply, Times, One;
    ApiKeepsWorker(s, a);
    NothingByApi(s, a);
  }

  lemma NothingByApi(s: State, a: Action)
    requires Apply(s, a).Some? && ApiAction(a)
    ensures Made(s, a) == None == Destroyed(s, a)
  {
  }

  lemma StartBalanced(s: State, memory: bool, r: Route)
    requires Start(s, memory).Some?
    ensures Balanced(s, Starts(memory), r)
  {
    hide FindSurface, Times;
    TimesAdded(s.routes, Route(s.pc.job.ref, s.pc.job.token), r);
  }

  lemma AcceptBalanced(s: State, memory: bool, r: Route)
    requires Accept(s, memory).Some?
    ensures Balanced(s, Accepts(memory), r)
  {
    hide FindSurface, Times;
    TimesAdded(s.routes, Route(s.pc.job.ref, s.pc.job.token), r);
    if s.pc.packet.Continuation? {
      TimesAdded(s.routes, Route(s.pc.job.ref, s.pc.packet.token), r);
    }
  }

  /** Only here the books can be wrong: the code destroys the route it made for the packet, found or not. */
  lemma RefuseBalanced(s: State, r: Route)
    requires Refuse(s).Some? && KindOk(s.codec, s.pc) && Ledger(s)
    requires JobOrdered(s.pc, s.log.accepted, s.nextToken, s.queue)
    ensures Balanced(s, Refuses, r)
  {
    hide Without, Newest, Times, Owed;
    var token := if s.pc.packet.Continuation? then s.pc.packet.token else s.pc.job.token;
    var i := IndexOf(s.routes, token);
    if i < |s.routes| {
      TimesWithout(s.routes, i, r);
    } else {
      WithoutNone(s.routes, i);
    }
    if PuttingOwnRoute(s.pc) && s.routes != [] {
      OwnIndex(s.pc, s.routes, s.log.accepted);
    }
  }

  lemma EmitBalanced(s: State, a: Action, r: Route)
    requires Apply(s, a).Some? && (a.EmitsToken? || a.EmitsNext?)
    ensures Balanced(s, a, r)
  {
    hide Times, Without, InStep;
    match a
    case EmitsToken(token) =>
      var i := IndexOf(s.routes, token);
      if i < |s.routes| {
        TimesWithout(s.routes, i, r);
      }
    case EmitsNext =>
      if s.routes != [] {
        TimesHead(s.routes, r);
      }
  }

  lemma DeliveryBalanced(s: State, a: Action, r: Route)
    requires Apply(s, a).Some? && (a.Checks? || a.Delivers?)
    ensures Balanced(s, a, r)
  {
    hide Times, Complete, Publish;
    if a.Delivers? {
      OnlySurfaces(s, s.delivering.value.route.ref, false, s.delivering.value.frame);
    }
  }

  lemma SweepBalanced(s: State, r: Route)
    requires Sweep(s).Some? && Retired(s)
    ensures Balanced(s, Sweeps, r)
  {
    hide Failed, Times;
    if s.routes != [] {
      TimesHead(s.routes, r);
    }
  }

  lemma FlushBalanced(s: State, a: Action, r: Route)
    requires Apply(s, a).Some? && Retired(s) && (a.Stalls? || a.Flushes?)
    ensures Balanced(s, a, r)
  {
    hide Times, Fail;
    TimesNone(r);
    if a.Flushes? && s.pc.rest != [] {
      OnlySurfaces(s, s.pc.rest[0].ref, false, 0);
      TimesHead(s.pc.rest, r);
    }
  }

  lemma RestBalanced(s: State, a: Action, r: Route)
    requires Apply(s, a).Some? && (a.TakesJob? || a.CompletesJob? || a.Exits? || a.TearsDown?)
    ensures Balanced(s, a, r)
  {
    hide Times, Complete;
    if a.CompletesJob? {
      OnlySurfaces(s, s.pc.job.ref, s.pc.success, 0);
    }
  }

  lemma BalancedStep(s: State, a: Action, r: Route)
    requires Apply(s, a).Some? && Inv(s) && Routed(s)
    ensures Balanced(s, a, r)
  {
    hide Balanced, Known, Covered, PutCovered, Labelled, QueueOrdered, AcceptedBefore, JobOrdered, Ledger, OutputsOrdered, Clean, KindOk,
      SurfacesRight, DeliveryRight, Retired, Begin, End, Finish, OtherBegin, OtherTouch, TakeJob, Start, Accept, Refuse, CompleteJob, EmitToken, EmitNext,
      Check, Deliver, Stall, FlushOne, Exit, BeginTeardown, Sweep;
    match a
    case Starts(memory) => StartBalanced(s, memory, r);
    case Accepts(memory) => AcceptBalanced(s, memory, r);
    case Refuses =>
      RefuseCounts(s);
      RefuseBalanced(s, r);
    case EmitsToken(_) => EmitBalanced(s, a, r);
    case EmitsNext => EmitBalanced(s, a, r);
    case Checks => DeliveryBalanced(s, a, r);
    case Delivers(_) => DeliveryBalanced(s, a, r);
    case Stalls => FlushBalanced(s, a, r);
    case Flushes => FlushBalanced(s, a, r);
    case Sweeps => SweepBalanced(s, r);
    case _ =>
      if ApiAction(a) {
        ApiBalanced(s, a, r);
      } else {
        RestBalanced(s, a, r);
      }
  }

  // ---------- whole runs ----------

  /** How often a run makes a route. */
  function MadeIn(codec: Codec, surfaces: nat, schedule: seq<Action>, r: Route): nat {
    if |schedule| == 0 then 0
    else
      var front, a := schedule[..|schedule| - 1], schedule[|schedule| - 1];
      var s := Run(Initial(codec, surfaces), front);
      MadeIn(codec, surfaces, front, r) + (if Apply(s, a).Some? then One(Made(s, a), r) else 0)
  }

  /** How often it destroys it. */
  function DestroyedIn(codec: Codec, surfaces: nat, schedule: seq<Action>, r: Route): nat {
    if |schedule| == 0 then 0
    else
      var front, a := schedule[..|schedule| - 1], schedule[|schedule| - 1];
      var s := Run(Initial(codec, surfaces), front);
      DestroyedIn(codec, surfaces, front, r) + (if Apply(s, a).Some? then One(Destroyed(s, a), r) else 0)
  }

  /** How often it does so once more, when the packet of the route is refused. */
  function AgainIn(codec: Codec, surfaces: nat, schedule: seq<Action>, r: Route): nat {
    if |schedule| == 0 then 0
    else
      var front, a := schedule[..|schedule| - 1], schedule[|schedule| - 1];
      var s := Run(Initial(codec, surfaces), front);
      AgainIn(codec, surfaces, front, r) + (if Apply(s, a).Some? && DestroysAgain(s, a) then One(Destroyed(s, a), r) else 0)
  }

  /** In every run each route is destroyed as often as it was made, less those still held, and again by such refusals. */
  lemma {:induction false} RunBalances(codec: Codec, surfaces: nat, schedule: seq<Action>, r: Route)
    ensures DestroyedIn(codec, surfaces, schedule, r) + Held(Run(Initial(codec, surfaces), schedule), r)
         == MadeIn(codec, surfaces, schedule, r) + AgainIn(codec, surfaces, schedule, r)
  {
    hide Apply, Inv, Routed, Held, Made, Destroyed, DestroysAgain, One;
    if |schedule| == 0 {
      NothingHeld(codec, surfaces, r);
    } else {
      var front, last := schedule[..|schedule| - 1], schedule[|schedule| - 1];
      var s := Run(Initial(codec, surfaces), front);
      RunBalances(codec, surfaces, front, r);
      if Apply(s, last).Some? {
        Reachable(codec, surfaces, front);
        RoutedReachable(codec, surfaces, front);
        BalancedStep(s, last, r);
      }
    }
  }

  lemma NothingHeld(codec: Codec, surfaces: nat, r: Route)
    ensures Held(Initial(codec, surfaces), r) == 0
  {
  }

  /** Some packet of the run was refused after a late frame took its route. */
  ghost predicate RefusedWithoutRoute(codec: Codec, surfaces: nat, schedule: seq<Action>) {
    exists k :: 0 <= k < |schedule| && DestroysAgain(Run(Initial(codec, surfaces), schedule[..k]), schedule[k])
  }

  lemma RefusedFront(codec: Codec, surfaces: nat, schedule: seq<Action>)
    requires schedule != []
    ensures var front, last := schedule[..|schedule| - 1], schedule[|schedule| - 1];
            RefusedWithoutRoute(codec, surfaces, schedule) <==>
            RefusedWithoutRoute(codec, surfaces, front) || DestroysAgain(Run(Initial(codec, surfaces), front), last)
  {
    hide Run, DestroysAgain, Initial;
    var front := schedule[..|schedule| - 1];
    assert forall k :: 0 <= k < |front| ==> front[..k] == schedule[..k] && front[k] == schedule[k];
    if k :| 0 <= k < |front| && DestroysAgain(Run(Initial(codec, surfaces), front[..k]), front[k]) {
      assert DestroysAgain(Run(Initial(codec, surfaces), schedule[..k]), schedule[k]);
    }
    if k :| 0 <= k < |schedule| && DestroysAgain(Run(Initial(codec, surfaces), schedule[..k]), schedule[k]) {
      assert k < |front| ==> DestroysAgain(Run(Initial(codec, surfaces), front[..k]), front[k]);
    }
  }

  /** What a refusal without a route destroys again. */
  lemma AgainIsOwn(codec: Codec, s: State, a: Action)
    requires DestroysAgain(s, a) && Inv(s) && Routed(s)
    ensures Apply(s, a).Some? && s.codec == Vp9 && s.log.flushed && Destroyed(s, a) == Some(OwnRouteOf(s.pc))
  {
    hide Known, Covered, PutCovered, Labelled, QueueOrdered, AcceptedBefore, JobOrdered, OutputsOrdered, SurfacesRight, DeliveryRight, Newest, Without, IndexOf;
    RefuseCounts(s);
  }

  lemma {:induction false} AgainMeansRefused(codec: Codec, surfaces: nat, schedule: seq<Action>) returns (r: Route)
    ensures AgainIn(codec, surfaces, schedule, r) > 0 <==> RefusedWithoutRoute(codec, surfaces, schedule)
    ensures !RefusedWithoutRoute(codec, surfaces, schedule) ==> forall x :: AgainIn(codec, surfaces, schedule, x) == 0
    ensures RefusedWithoutRoute(codec, surfaces, schedule) ==> codec == Vp9 && Run(Initial(codec, surfaces), schedule).log.flushed
  {
    hide Apply, Inv, Routed, Destroyed, DestroysAgain, RefusedWithoutRoute;
    if |schedule| == 0 {
      r := Route(Ref(0, 0), 0);
      NeverRefused(codec, surfaces, schedule);
    } else {
      var front, last := schedule[..|schedule| - 1], schedule[|schedule| - 1];
      var s := Run(Initial(codec, surfaces), front);
      r := AgainMeansRefused(codec, surfaces, front);
      RefusedFront(codec, surfaces, schedule);
      Reachable(codec, surfaces, front);
      RoutedReachable(codec, surfaces, front);
      CodecStays(codec, surfaces, front);
      if DestroysAgain(s, last) {
        AgainIsOwn(codec, s, last);
        r := Destroyed(s, last).value;
      }
      if Apply(s, last).Some? {
        FlushedStays(s, last);
      }
    }
  }

  lemma FlushedStays(s: State, a: Action)
    requires Apply(s, a).Some? && Inv(s)
    ensures s.log.flushed ==> Apply(s, a).value.log.flushed
  {
    hide Apply, Known, Covered, PutCovered, Retired, Labelled;
    RemembersStep(s, a);
  }

  lemma NeverRefused(codec: Codec, surfaces: nat, schedule: seq<Action>)
    requires schedule == []
    ensures !RefusedWithoutRoute(codec, surfaces, schedule)
  {
  }

  /**
   In a run of any codec every route that was made is still held or was destroyed, once each, if and
   only if no packet was refused after a late frame took its route; that takes VP9 and a stall flush.
   */
  lemma RoutesDestroyedOnceIff(codec: Codec, surfaces: nat, schedule: seq<Action>)
    ensures (forall r :: MadeIn(codec, surfaces, schedule, r) ==
                         DestroyedIn(codec, surfaces, schedule, r) + Held(Run(Initial(codec, surfaces), schedule), r))
            <==> !RefusedWithoutRoute(codec, surfaces, schedule)
    ensures RefusedWithoutRoute(codec, surfaces, schedule) ==> codec == Vp9 && Run(Initial(codec, surfaces), schedule).log.flushed
  {
    hide Run, Held, RefusedWithoutRoute, MadeIn, DestroyedIn, AgainIn, Initial;
    var x := AgainMeansRefused(codec, surfaces, schedule);
    RunBalances(codec, surfaces, schedule, x);
    forall r
      ensures DestroyedIn(codec, surfaces, schedule, r) + Held(Run(Initial(codec, surfaces), schedule), r)
           == MadeIn(codec, surfaces, schedule, r) + AgainIn(codec, surfaces, schedule, r)
    {
      RunBalances(codec, surfaces, schedule, r);
    }
  }

  /** Once rk_mpp_dec_stop has returned nothing is held: then every route was destroyed as often as it was made. */
  lemma StopDestroysRoutesOnceIff(codec: Codec, surfaces: nat, schedule: seq<Action>)
    requires Run(Initial(codec, surfaces), schedule).teardown == Stopped
    ensures (forall r :: MadeIn(codec, surfaces, schedule, r) == DestroyedIn(codec, surfaces, schedule, r))
            <==> !RefusedWithoutRoute(codec, surfaces, schedule)
  {
    hide Run, RefusedWithoutRoute, MadeIn, DestroyedIn, Initial, Known, Covered, PutCovered, Labelled;
    RoutesDestroyedOnceIff(codec, surfaces, schedule);
    Reachable(codec, surfaces, schedule);
    assert forall r :: Held(Run(Initial(codec, surfaces), schedule), r) == 0;
  }
}
