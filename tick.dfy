/**
 * One tick of the simulation loop in `src/App.js`, as a function of the
 * state at the start of the tick.
 *
 * The interval callback queues its state updates; they are applied in this
 * order, and every phase reads the same snapshots:
 *  1. every ambulance moves one step, looking its targets up in the
 *     discovery list as it was when the tick began;
 *  2. the waiting incidents are the tick-start discoveries that no
 *     en-route ambulance of the moved fleet is assigned to;
 *  3. each waiting incident in turn is offered to the dispatcher, which
 *     always sees the moved fleet, not the fleet as earlier dispatches
 *     left it;
 *  4. each idle ambulance of the moved fleet may spawn a new incident,
 *     dispatched against the same moved fleet, unless the tick-start
 *     discovery count has reached the cap;
 *  5. the arrival callbacks run last and drop the finished incidents and
 *     their routes.
 */
module Tick {
  import opened Wrappers
  import opened Seqs
  import opened Geo
  import opened Ids
  import opened Constants
  import opened Entities
  import opened Dispatcher
  import opened Motion
  import opened Factories

  /** The simulation's collections and its `nextId` counters. */
  datatype World = World(
    ambulances: seq<Ambulance>,
    discoveries: seq<Discovery>,
    routes: seq<Route>,
    nextDiscoveryId: nat,
    nextRouteId: nat)

  /** The draws one idle ambulance's incident check makes. */
  datatype SpawnDraw = SpawnDraw(idle: real, create: real, discovery: DiscoveryDraws, priority: real)

  predicate ValidSpawnDraw(d: SpawnDraw)
  {
    IsDraw(d.idle) && IsDraw(d.create) && ValidDiscoveryDraws(d.discovery) && IsDraw(d.priority)
  }

  /**
   * All the randomness of one tick: a patrol draw per ambulance, a route
   * priority draw per waiting incident, and a set of draws per idle
   * ambulance.
   */
  datatype TickDraws = TickDraws(patrol: seq<PatrolDraw>, dispatch: seq<real>, spawn: seq<SpawnDraw>)

  predicate ValidTickDraws(d: TickDraws, ambulanceCount: nat, discoveryCount: nat)
  {
    |d.patrol| >= ambulanceCount && (forall i :: 0 <= i < |d.patrol| ==> ValidPatrolDraw(d.patrol[i]))
    && |d.dispatch| >= discoveryCount && (forall i :: 0 <= i < |d.dispatch| ==> IsDraw(d.dispatch[i]))
    && |d.spawn| >= ambulanceCount && (forall i :: 0 <= i < |d.spawn| ==> ValidSpawnDraw(d.spawn[i]))
  }

  /** Every discovery and route id is a counter value already handed out. */
  predicate IdsIssued(w: World)
  {
    DiscoveryIdsIssued(w.discoveries, w.nextDiscoveryId) && RouteIdsIssued(w.routes, w.nextRouteId)
  }

  /** `id` is `prefix` followed by a counter value below `next`. */
  predicate Issued(id: string, prefix: char, next: nat)
  {
    exists n: nat :: n < next && id == Tagged(prefix, n)
  }

  predicate DiscoveryIdsIssued(discoveries: seq<Discovery>, next: nat)
  {
    forall i :: 0 <= i < |discoveries| ==> Issued(discoveries[i].id, 'd', next)
  }

  predicate RouteIdsIssued(routes: seq<Route>, next: nat)
  {
    forall i :: 0 <= i < |routes| ==> Issued(routes[i].id, 'r', next)
  }

  /** With the ids issued so far, the next discovery and route ids are new. */
  lemma NextIdsAreFresh(w: World)
    requires IdsIssued(w)
    ensures forall i :: 0 <= i < |w.discoveries| ==> w.discoveries[i].id != Tagged('d', w.nextDiscoveryId)
    ensures forall i :: 0 <= i < |w.routes| ==> w.routes[i].id != Tagged('r', w.nextRouteId)
  {
    var ds, rs := w.discoveries, w.routes;
    assert DiscoveryIdsIssued(ds, w.nextDiscoveryId) && RouteIdsIssued(rs, w.nextRouteId);
    forall i | 0 <= i < |ds| ensures ds[i].id != Tagged('d', w.nextDiscoveryId) {
      assert Issued(ds[i].id, 'd', w.nextDiscoveryId);
      var n: nat :| n < w.nextDiscoveryId && ds[i].id == Tagged('d', n);
      if ds[i].id == Tagged('d', w.nextDiscoveryId) {
        TaggedInjective('d', n, w.nextDiscoveryId);
      }
    }
    forall i | 0 <= i < |rs| ensures rs[i].id != Tagged('r', w.nextRouteId) {
      assert Issued(rs[i].id, 'r', w.nextRouteId);
      var n: nat :| n < w.nextRouteId && rs[i].id == Tagged('r', n);
      if rs[i].id == Tagged('r', w.nextRouteId) {
        TaggedInjective('r', n, w.nextRouteId);
      }
    }
  }

  // ---------------------------------------------------------------- phase 1

  /** With a true square root, every root one step takes is available. */
  lemma RootsEverywhere(a: Ambulance, discovery: Option<Discovery>, hospital: Option<Hospital>, sqrt: real -> real)
    requires IsSqrt(sqrt)
    ensures RootsFor(a, discovery, hospital, sqrt)
  {
    if PatrolTarget(a).Some? {
      SqDistanceZero(PatrolTarget(a).value, a.Pos());
    }
    if discovery.Some? {
      SqDistanceZero(discovery.value.Pos(), a.Pos());
    }
    if hospital.Some? {
      SqDistanceZero(hospital.value.Pos(), a.Pos());
    }
  }

  /** The callback of the first `prev.map`: resolve the targets, then move. */
  function MoveOne(a: Ambulance, discoveries: seq<Discovery>, hospitals: seq<Hospital>,
                   speed: real, now: int, draw: PatrolDraw, sqrt: real -> real): Step
    requires speed > 0.0 && IsSqrt(sqrt)
  {
    var discovery := DiscoveryById(discoveries, a.targetDiscoveryId);
    var hospital := HospitalById(hospitals, a.targetHospitalId);
    RootsEverywhere(a, discovery, hospital, sqrt);
    MoveAmbulanceAlongRoute(a, discovery, hospital, speed, now, draw, sqrt)
  }

  /** Phase 1: one step per ambulance, in fleet order. */
  function MoveAll(ambulances: seq<Ambulance>, discoveries: seq<Discovery>, hospitals: seq<Hospital>,
                   speed: real, now: int, draws: seq<PatrolDraw>, sqrt: real -> real): (steps: seq<Step>)
    requires speed > 0.0 && IsSqrt(sqrt) && |draws| >= |ambulances|
    ensures |steps| == |ambulances|
    ensures forall i :: 0 <= i < |steps| ==>
              steps[i] == MoveOne(ambulances[i], discoveries, hospitals, speed, now, draws[i], sqrt)
    ensures forall i :: 0 <= i < |steps| ==> SameVehicle(ambulances[i], steps[i].ambulance)
    ensures AllStatusMatchesPhase(ambulances) ==>
              forall i :: 0 <= i < |steps| ==> StatusMatchesPhase(steps[i].ambulance)
  {
    seq(|ambulances|, i requires 0 <= i < |ambulances| =>
      MoveOne(ambulances[i], discoveries, hospitals, speed, now, draws[i], sqrt))
  }

  function Moved(steps: seq<Step>): (ambulances: seq<Ambulance>)
    ensures |ambulances| == |steps|
    ensures forall i :: 0 <= i < |steps| ==> ambulances[i] == steps[i].ambulance
  {
    seq(|steps|, i requires 0 <= i < |steps| => steps[i].ambulance)
  }

  /** The discovery ids handed to `onArriveAtHospital` during the steps, in order. */
  function Arrivals(steps: seq<Step>): (ids: seq<Option<string>>)
    ensures |ids| <= |steps|
    ensures forall id :: id in ids <==>
              exists i :: 0 <= i < |steps| && steps[i].arrival == ArrivedAtHospital(id)
    decreases |steps|
  {
    if steps == [] then []
    else
      var n := |steps| - 1;
      var earlier := Arrivals(steps[..n]);
      assert forall i :: 0 <= i < n ==> steps[..n][i] == steps[i];
      if steps[n].arrival.ArrivedAtHospital? then earlier + [steps[n].arrival.discoveryId] else earlier
  }

  // ---------------------------------------------------------------- phase 2

  /** `a` is en route with a set target naming discovery `id`. */
  predicate AssignedTo(a: Ambulance, id: string)
  {
    a.status == Status.EnRoute && IsSetId(a.targetDiscoveryId) && a.targetDiscoveryId.value == id
  }

  /** `assignedDiscoveryIds`: the targets of the en-route ambulances whose target is set. */
  function AssignedIds(ambulances: seq<Ambulance>): (ids: seq<string>)
    ensures forall id :: id in ids <==> exists i :: 0 <= i < |ambulances| && AssignedTo(ambulances[i], id)
    decreases |ambulances|
  {
    if ambulances == [] then []
    else
      var n := |ambulances| - 1;
      var a := ambulances[n];
      assert forall i :: 0 <= i < n ==> ambulances[..n][i] == ambulances[i];
      AssignedIds(ambulances[..n])
      + (if a.status == Status.EnRoute && IsSetId(a.targetDiscoveryId) then [a.targetDiscoveryId.value] else [])
  }

  /** `waitingDiscoveries`. */
  function Waiting(discoveries: seq<Discovery>, ambulances: seq<Ambulance>): (w: seq<Discovery>)
    ensures |w| <= |discoveries|
  {
    var targeted := AssignedIds(ambulances);
    Filter(discoveries, (d: Discovery) => d.id !in targeted)
  }

  /** An incident waits exactly when no en-route ambulance is assigned to it. */
  lemma WaitingExact(discoveries: seq<Discovery>, ambulances: seq<Ambulance>, d: Discovery)
    ensures d in Waiting(discoveries, ambulances) <==>
              d in discoveries && forall i :: 0 <= i < |ambulances| ==> !AssignedTo(ambulances[i], d.id)
  {
    var w := Waiting(discoveries, ambulances);
    if d in w {
      var k :| 0 <= k < |w| && w[k] == d;
      assert d.id !in AssignedIds(ambulances);
    }
    if d in discoveries && forall i :: 0 <= i < |ambulances| ==> !AssignedTo(ambulances[i], d.id) {
      var k :| 0 <= k < |discoveries| && discoveries[k] == d;
      assert d.id !in AssignedIds(ambulances);
    }
  }

  // ---------------------------------------------------------------- phase 3

  /** The `prevA.map` of a dispatch: every ambulance with the chosen id sets off for the incident. */
  function Dispatch(ambulances: seq<Ambulance>, ambulanceId: string, discoveryId: string, hospitalId: string)
    : (r: seq<Ambulance>)
    ensures |r| == |ambulances|
    ensures forall i :: 0 <= i < |r| && ambulances[i].id != ambulanceId ==> r[i] == ambulances[i]
    ensures forall i :: 0 <= i < |r| && ambulances[i].id == ambulanceId ==>
              r[i] == ambulances[i].(status := Status.EnRoute, phase := Phase.ToDiscovery,
                                     targetDiscoveryId := Some(discoveryId), targetHospitalId := Some(hospitalId))
    ensures AllStatusMatchesPhase(ambulances) ==> AllStatusMatchesPhase(r)
  {
    seq(|ambulances|, i requires 0 <= i < |ambulances| =>
      var a := ambulances[i];
      if a.id == ambulanceId then
        a.(status := Status.EnRoute, phase := Phase.ToDiscovery,
           targetDiscoveryId := Some(discoveryId), targetHospitalId := Some(hospitalId))
      else a)
  }

  /** `r` holds `w`'s routes and one more, numbered by `w`'s route counter and leading to `discoveryId`. */
  predicate RouteAdded(w: World, r: World, discoveryId: string)
  {
    |r.routes| == |w.routes| + 1 && r.routes[..|w.routes|] == w.routes
    && r.routes[|w.routes|].id == Tagged('r', w.nextRouteId)
    && r.routes[|w.routes|].discoveryPointId == discoveryId
  }

  /**
   * `r` holds `w`'s routes and one more, for `discovery`, joining the first
   * nearest idle ambulance of `prev` and the hospital nearest the incident,
   * and that ambulance has been sent.
   */
  ghost predicate RouteSent(w: World, r: World, prev: seq<Ambulance>, hospitals: seq<Hospital>, discovery: Discovery)
  {
    RouteAdded(w, r, discovery.id)
    && var route := r.routes[|w.routes|];
       (exists k :: IsNearestIdle(prev, discovery.Pos(), k) && prev[k].id == route.ambulanceId)
       && (exists h :: IsNearestHospital(hospitals, discovery.Pos(), h) && hospitals[h].id == route.hospitalId)
       && r.ambulances == Dispatch(w.ambulances, route.ambulanceId, discovery.id, route.hospitalId)
  }

  /** `r` holds `w`'s discoveries and one more, numbered by `w`'s discovery counter. */
  predicate DiscoveryAdded(w: World, r: World)
  {
    |r.discoveries| == |w.discoveries| + 1 && r.discoveries[..|w.discoveries|] == w.discoveries
    && r.discoveries[|w.discoveries|].id == Tagged('d', w.nextDiscoveryId)
  }

  /** The route and the ambulance update one successful dispatch queues. */
  function Assign(w: World, discoveryId: string, info: DispatchInfo, draw: real): (r: World)
    requires IsDraw(draw)
  {
    w.(routes := w.routes + [CreateRoute(discoveryId, info.ambulanceId, info.hospitalId, w.nextRouteId, draw)],
       ambulances := Dispatch(w.ambulances, info.ambulanceId, discoveryId, info.hospitalId))
  }

  /**
   * One waiting incident: when the dispatcher finds an ambulance in the
   * snapshot `prev`, add a route numbered by the route counter, send the
   * ambulance, and advance the route counter.
   */
  function DispatchStep(w: World, prev: seq<Ambulance>, hospitals: seq<Hospital>, discovery: Discovery, draw: real)
    : (r: World)
    requires |hospitals| > 0 && IsDraw(draw)
    ensures NoneIdle(prev) ==> r == w
    ensures !NoneIdle(prev) ==> RouteSent(w, r, prev, hospitals, discovery) && r.nextRouteId == w.nextRouteId + 1
    ensures r.discoveries == w.discoveries && r.nextDiscoveryId == w.nextDiscoveryId
  {
    match GenerateAmbulanceForDiscovery(discovery, prev, hospitals)
    case None => w
    case Some(info) => Assign(w, discovery.id, info, draw).(nextRouteId := w.nextRouteId + 1)
  }

  /** Phase 3: the `waitingDiscoveries.forEach`, every dispatch against the same `prev`. */
  function DispatchAll(w: World, prev: seq<Ambulance>, hospitals: seq<Hospital>,
                       waiting: seq<Discovery>, draws: seq<real>): (r: World)
    requires |hospitals| > 0 && |draws| >= |waiting| && forall i :: 0 <= i < |draws| ==> IsDraw(draws[i])
    ensures r.discoveries == w.discoveries && r.nextDiscoveryId == w.nextDiscoveryId
    ensures |r.ambulances| == |w.ambulances|
    ensures w.routes <= r.routes
    ensures |r.routes| - |w.routes| == r.nextRouteId - w.nextRouteId <= |waiting|
    ensures NoneIdle(prev) ==> r == w
    decreases |waiting|
  {
    if waiting == [] then w
    else
      var n := |waiting| - 1;
      DispatchStep(DispatchAll(w, prev, hospitals, waiting[..n], draws), prev, hospitals, waiting[n], draws[n])
  }

  /** Dispatching one more waiting incident is one more `DispatchStep`. */
  lemma DispatchAllSnoc(w: World, prev: seq<Ambulance>, hospitals: seq<Hospital>,
                        waiting: seq<Discovery>, draws: seq<real>, k: nat)
    requires |hospitals| > 0 && k < |waiting| && |draws| >= |waiting|
    requires forall i :: 0 <= i < |draws| ==> IsDraw(draws[i])
    ensures DispatchAll(w, prev, hospitals, waiting[..k + 1], draws)
            == DispatchStep(DispatchAll(w, prev, hospitals, waiting[..k], draws), prev, hospitals, waiting[k], draws[k])
  {
    assert waiting[..k + 1][..k] == waiting[..k];
  }

  /**
   * Every dispatcher call sees the same snapshot `prev`, so once one
   * ambulance is idle there, every waiting incident gets a route, and every
   * new route names an ambulance that was idle in `prev`, even one an
   * earlier incident of the same tick already took.
   */
  lemma {:induction false} DispatchAllUsesSnapshot(w: World, prev: seq<Ambulance>, hospitals: seq<Hospital>,
                                                   waiting: seq<Discovery>, draws: seq<real>)
    requires |hospitals| > 0 && |draws| >= |waiting| && forall i :: 0 <= i < |draws| ==> IsDraw(draws[i])
    ensures var r := DispatchAll(w, prev, hospitals, waiting, draws);
      (!NoneIdle(prev) ==> |r.routes| == |w.routes| + |waiting|)
      && forall i :: |w.routes| <= i < |r.routes| ==>
           exists k :: 0 <= k < |prev| && prev[k].status == Status.Idle && prev[k].id == r.routes[i].ambulanceId
    decreases |waiting|
  {
    if waiting != [] {
      var n := |waiting| - 1;
      var before := DispatchAll(w, prev, hospitals, waiting[..n], draws);
      DispatchAllUsesSnapshot(w, prev, hospitals, waiting[..n], draws);
      var r := DispatchStep(before, prev, hospitals, waiting[n], draws[n]);
      if !NoneIdle(prev) {
        var route := r.routes[|before.routes|];
        var k :| IsNearestIdle(prev, waiting[n].Pos(), k) && prev[k].id == route.ambulanceId;
        assert IdleFlags(prev)[k];
        forall i | |w.routes| <= i < |r.routes|
          ensures exists k :: 0 <= k < |prev| && prev[k].status == Status.Idle && prev[k].id == r.routes[i].ambulanceId
        {
          if i < |before.routes| {
            assert r.routes[i] == before.routes[i];
          }
        }
      }
    }
  }

  /** Dispatching keeps every ambulance's status in step with its phase. */
  lemma {:induction false} DispatchAllKeepsStatusMatchesPhase(w: World, prev: seq<Ambulance>, hospitals: seq<Hospital>,
                                                               waiting: seq<Discovery>, draws: seq<real>)
    requires |hospitals| > 0 && |draws| >= |waiting| && forall i :: 0 <= i < |draws| ==> IsDraw(draws[i])
    requires AllStatusMatchesPhase(w.ambulances)
    ensures AllStatusMatchesPhase(DispatchAll(w, prev, hospitals, waiting, draws).ambulances)
    decreases |waiting|
  {
    if waiting != [] {
      DispatchAllKeepsStatusMatchesPhase(w, prev, hospitals, waiting[..|waiting| - 1], draws);
    }
  }

  /** Dispatching numbers every new route with a fresh counter value. */
  lemma {:induction false} DispatchAllKeepsIdsIssued(w: World, prev: seq<Ambulance>, hospitals: seq<Hospital>,
                                                      waiting: seq<Discovery>, draws: seq<real>)
    requires |hospitals| > 0 && |draws| >= |waiting| && forall i :: 0 <= i < |draws| ==> IsDraw(draws[i])
    requires IdsIssued(w)
    ensures IdsIssued(DispatchAll(w, prev, hospitals, waiting, draws))
    decreases |waiting|
  {
    if waiting != [] {
      var n := |waiting| - 1;
      var before := DispatchAll(w, prev, hospitals, waiting[..n], draws);
      DispatchAllKeepsIdsIssued(w, prev, hospitals, waiting[..n], draws);
      IssuedStep(before, DispatchStep(before, prev, hospitals, waiting[n], draws[n]));
    }
  }

  /**
   * With distinct ids, and a snapshot `prev` that lists the fleet's ids in
   * the fleet's order, a successful dispatch changes exactly one ambulance:
   * the first nearest idle one of `prev`, which sets off for the incident.
   */
  lemma DispatchStepSendsOne(w: World, prev: seq<Ambulance>, hospitals: seq<Hospital>,
                             discovery: Discovery, draw: real)
    requires |hospitals| > 0 && IsDraw(draw)
    requires DistinctAmbulanceIds(w.ambulances) && SameIds(prev, w.ambulances) && !NoneIdle(prev)
    ensures var r := DispatchStep(w, prev, hospitals, discovery, draw);
      |r.routes| == |w.routes| + 1 && |r.ambulances| == |w.ambulances|
      && exists k :: IsNearestIdle(prev, discovery.Pos(), k)
           && r.ambulances[k] == w.ambulances[k].(status := Status.EnRoute, phase := Phase.ToDiscovery,
                                                  targetDiscoveryId := Some(discovery.id),
                                                  targetHospitalId := Some(r.routes[|w.routes|].hospitalId))
           && forall i :: 0 <= i < |w.ambulances| && i != k ==> r.ambulances[i] == w.ambulances[i]
  {
    var r := DispatchStep(w, prev, hospitals, discovery, draw);
    var route := r.routes[|w.routes|];
    var k :| IsNearestIdle(prev, discovery.Pos(), k) && prev[k].id == route.ambulanceId;
    assert w.ambulances[k].id == route.ambulanceId;
    forall i | 0 <= i < |w.ambulances| && i != k
      ensures r.ambulances[i] == w.ambulances[i]
    {
      assert w.ambulances[i].id != w.ambulances[k].id;
    }
  }

  /** Dispatching changes no ambulance's id. */
  lemma {:induction false} DispatchAllKeepsIds(w: World, prev: seq<Ambulance>, hospitals: seq<Hospital>,
                                               waiting: seq<Discovery>, draws: seq<real>)
    requires |hospitals| > 0 && |draws| >= |waiting| && forall i :: 0 <= i < |draws| ==> IsDraw(draws[i])
    ensures SameIds(w.ambulances, DispatchAll(w, prev, hospitals, waiting, draws).ambulances)
    decreases |waiting|
  {
    if waiting != [] {
      DispatchAllKeepsIds(w, prev, hospitals, waiting[..|waiting| - 1], draws);
    }
  }

  /**
   * A step that appends at most one discovery and one route, each numbered
   * by the counter it then advances, keeps every id issued.
   */
  lemma IssuedStep(w: World, r: World)
    requires IdsIssued(w)
    requires r.nextDiscoveryId >= w.nextDiscoveryId && r.nextRouteId >= w.nextRouteId
    requires r.discoveries == w.discoveries || (DiscoveryAdded(w, r) && r.nextDiscoveryId > w.nextDiscoveryId)
    requires r.routes == w.routes || (|r.routes| == |w.routes| + 1 && r.routes[..|w.routes|] == w.routes
                                      && r.routes[|w.routes|].id == Tagged('r', w.nextRouteId)
                                      && r.nextRouteId > w.nextRouteId)
    ensures IdsIssued(r)
  {
    if r.discoveries == w.discoveries {
      DiscoveryIssuedSublist(w.discoveries, r.discoveries, w.nextDiscoveryId, r.nextDiscoveryId);
    } else {
      DiscoveryIssuedAppend(w.discoveries, r.discoveries, w.nextDiscoveryId, r.nextDiscoveryId);
    }
    if r.routes == w.routes {
      RouteIssuedSublist(w.routes, r.routes, w.nextRouteId, r.nextRouteId);
    } else {
      RouteIssuedAppend(w.routes, r.routes, w.nextRouteId, r.nextRouteId);
    }
  }

  lemma DiscoveryIssuedAppend(ds: seq<Discovery>, rs: seq<Discovery>, next: nat, next': nat)
    requires DiscoveryIdsIssued(ds, next) && next < next'
    requires |rs| == |ds| + 1 && rs[..|ds|] == ds && rs[|ds|].id == Tagged('d', next)
    ensures DiscoveryIdsIssued(rs, next')
  {
    forall i | 0 <= i < |rs| ensures Issued(rs[i].id, 'd', next') {
      if i < |ds| {
        assert rs[i] == ds[i];
        var n: nat :| n < next && ds[i].id == Tagged('d', n);
        assert n < next' && rs[i].id == Tagged('d', n);
      } else {
        assert next < next' && rs[i].id == Tagged('d', next);
      }
    }
  }

  /** Issued ids stay issued in any selection of the list, under any later counter. */
  lemma DiscoveryIssuedSublist(ds: seq<Discovery>, rs: seq<Discovery>, next: nat, next': nat)
    requires DiscoveryIdsIssued(ds, next) && next <= next'
    requires forall i :: 0 <= i < |rs| ==> rs[i] in ds
    ensures DiscoveryIdsIssued(rs, next')
  {
    forall i | 0 <= i < |rs| ensures Issued(rs[i].id, 'd', next') {
      var k :| 0 <= k < |ds| && ds[k] == rs[i];
      var n: nat :| n < next && ds[k].id == Tagged('d', n);
      assert n < next' && rs[i].id == Tagged('d', n);
    }
  }

  lemma RouteIssuedSublist(ds: seq<Route>, rs: seq<Route>, next: nat, next': nat)
    requires RouteIdsIssued(ds, next) && next <= next'
    requires forall i :: 0 <= i < |rs| ==> rs[i] in ds
    ensures RouteIdsIssued(rs, next')
  {
    forall i | 0 <= i < |rs| ensures Issued(rs[i].id, 'r', next') {
      var k :| 0 <= k < |ds| && ds[k] == rs[i];
      var n: nat :| n < next && ds[k].id == Tagged('r', n);
      assert n < next' && rs[i].id == Tagged('r', n);
    }
  }

  lemma RouteIssuedAppend(ds: seq<Route>, rs: seq<Route>, next: nat, next': nat)
    requires RouteIdsIssued(ds, next) && next < next'
    requires |rs| == |ds| + 1 && rs[..|ds|] == ds && rs[|ds|].id == Tagged('r', next)
    ensures RouteIdsIssued(rs, next')
  {
    forall i | 0 <= i < |rs| ensures Issued(rs[i].id, 'r', next') {
      if i < |ds| {
        assert rs[i] == ds[i];
        var n: nat :| n < next && ds[i].id == Tagged('r', n);
        assert n < next' && rs[i].id == Tagged('r', n);
      } else {
        assert next < next' && rs[i].id == Tagged('r', next);
      }
    }
  }

  // ---------------------------------------------------------------- phase 4

  /** `shouldCreateIncident`: idle for at least a drawn time between the two idle settings, in seconds. */
  predicate ShouldCreateIncident(a: Ambulance, settings: Settings, now: int, u: real)
  {
    (now - a.idleStartTime) as real / 1000.0
      >= settings.minIdleTime as real + u * (settings.maxIdleTime - settings.minIdleTime) as real
  }

  /**
   * One idle ambulance's check. Nothing happens once the tick-start count
   * has reached `maxIncidents`; otherwise, when the idle time and the 30%
   * draw allow it, an incident is generated and offered to the dispatcher
   * against `prev`. It is added, with its route and its ambulance, only
   * when an ambulance is found, but both counters advance either way.
   */
  function SpawnStep(w: World, prev: seq<Ambulance>, hospitals: seq<Hospital>, settings: Settings,
                     tickStartCount: nat, now: int, time: string, a: Ambulance, d: SpawnDraw): (r: World)
    requires |hospitals| > 0 && ValidSpawnDraw(d)
    ensures var go := tickStartCount < settings.maxIncidents
                      && ShouldCreateIncident(a, settings, now, d.idle) && d.create < IncidentCreationProbability;
      var discovery := GenerateRandomDiscovery(w.nextDiscoveryId, d.discovery, time);
      (!go ==> r == w)
      && (go ==> r.nextDiscoveryId == w.nextDiscoveryId + 1 && r.nextRouteId == w.nextRouteId + 1)
      && (go && NoneIdle(prev) ==>
            r.discoveries == w.discoveries && r.routes == w.routes && r.ambulances == w.ambulances)
      && (go && !NoneIdle(prev) ==>
            DiscoveryAdded(w, r) && r.discoveries[|w.discoveries|] == discovery
            && RouteSent(w, r, prev, hospitals, discovery))
  {
    if tickStartCount >= settings.maxIncidents then w
    else if ShouldCreateIncident(a, settings, now, d.idle) && d.create < IncidentCreationProbability then
      var discovery := GenerateRandomDiscovery(w.nextDiscoveryId, d.discovery, time);
      var added := match GenerateAmbulanceForDiscovery(discovery, prev, hospitals)
        case None => w
        case Some(info) => Assign(w, discovery.id, info, d.priority).(discoveries := w.discoveries + [discovery]);
      added.(nextDiscoveryId := w.nextDiscoveryId + 1, nextRouteId := w.nextRouteId + 1)
    else w
  }

  /** Phase 4: the `idleAmbulances.forEach`, in fleet order. */
  function SpawnAll(w: World, prev: seq<Ambulance>, hospitals: seq<Hospital>, settings: Settings,
                    tickStartCount: nat, now: int, time: string, idle: seq<Ambulance>, draws: seq<SpawnDraw>)
    : (r: World)
    requires |hospitals| > 0 && |draws| >= |idle| && forall i :: 0 <= i < |draws| ==> ValidSpawnDraw(draws[i])
    ensures r.nextDiscoveryId - w.nextDiscoveryId == r.nextRouteId - w.nextRouteId
    ensures w.nextDiscoveryId <= r.nextDiscoveryId <= w.nextDiscoveryId + |idle|
    ensures w.discoveries <= r.discoveries && w.routes <= r.routes
    ensures |r.discoveries| - |w.discoveries| == |r.routes| - |w.routes| <= r.nextDiscoveryId - w.nextDiscoveryId
    ensures |r.ambulances| == |w.ambulances|
    decreases |idle|
  {
    if idle == [] then w
    else
      var n := |idle| - 1;
      var before := SpawnAll(w, prev, hospitals, settings, tickStartCount, now, time, idle[..n], draws);
      SpawnStep(before, prev, hospitals, settings, tickStartCount, now, time, idle[n], draws[n])
  }

  /** One more idle ambulance's check is one more `SpawnStep`. */
  lemma SpawnAllSnoc(w: World, prev: seq<Ambulance>, hospitals: seq<Hospital>, settings: Settings,
                     tickStartCount: nat, now: int, time: string, idle: seq<Ambulance>, draws: seq<SpawnDraw>, j: nat)
    requires |hospitals| > 0 && j < |idle| && |draws| >= |idle|
    requires forall i :: 0 <= i < |draws| ==> ValidSpawnDraw(draws[i])
    ensures SpawnAll(w, prev, hospitals, settings, tickStartCount, now, time, idle[..j + 1], draws)
            == SpawnStep(SpawnAll(w, prev, hospitals, settings, tickStartCount, now, time, idle[..j], draws),
                         prev, hospitals, settings, tickStartCount, now, time, idle[j], draws[j])
  {
    assert idle[..j + 1][..j] == idle[..j];
  }

  /** At the cap no idle ambulance's check changes anything. */
  lemma {:induction false} SpawnAllCapped(w: World, prev: seq<Ambulance>, hospitals: seq<Hospital>, settings: Settings,
                                          tickStartCount: nat, now: int, time: string, idle: seq<Ambulance>,
                                          draws: seq<SpawnDraw>)
    requires |hospitals| > 0 && |draws| >= |idle| && forall i :: 0 <= i < |draws| ==> ValidSpawnDraw(draws[i])
    requires tickStartCount >= settings.maxIncidents
    ensures SpawnAll(w, prev, hospitals, settings, tickStartCount, now, time, idle, draws) == w
    decreases |idle|
  {
    if idle != [] {
      SpawnAllCapped(w, prev, hospitals, settings, tickStartCount, now, time, idle[..|idle| - 1], draws);
    }
  }

  /** Spawned dispatches keep every ambulance's status in step with its phase. */
  lemma {:induction false} SpawnAllKeepsStatusMatchesPhase(
    w: World, prev: seq<Ambulance>, hospitals: seq<Hospital>, settings: Settings,
    tickStartCount: nat, now: int, time: string, idle: seq<Ambulance>, draws: seq<SpawnDraw>)
    requires |hospitals| > 0 && |draws| >= |idle| && forall i :: 0 <= i < |draws| ==> ValidSpawnDraw(draws[i])
    requires AllStatusMatchesPhase(w.ambulances)
    ensures AllStatusMatchesPhase(SpawnAll(w, prev, hospitals, settings, tickStartCount, now, time, idle, draws).ambulances)
    decreases |idle|
  {
    if idle != [] {
      SpawnAllKeepsStatusMatchesPhase(w, prev, hospitals, settings, tickStartCount, now, time, idle[..|idle| - 1], draws);
    }
  }

  /** Spawned dispatches change no ambulance's id. */
  lemma {:induction false} SpawnAllKeepsIds(
    w: World, prev: seq<Ambulance>, hospitals: seq<Hospital>, settings: Settings,
    tickStartCount: nat, now: int, time: string, idle: seq<Ambulance>, draws: seq<SpawnDraw>)
    requires |hospitals| > 0 && |draws| >= |idle| && forall i :: 0 <= i < |draws| ==> ValidSpawnDraw(draws[i])
    ensures SameIds(w.ambulances, SpawnAll(w, prev, hospitals, settings, tickStartCount, now, time, idle, draws).ambulances)
    decreases |idle|
  {
    if idle != [] {
      SpawnAllKeepsIds(w, prev, hospitals, settings, tickStartCount, now, time, idle[..|idle| - 1], draws);
    }
  }

  /** Spawned incidents and their routes take fresh counter values. */
  lemma {:induction false} SpawnAllKeepsIdsIssued(
    w: World, prev: seq<Ambulance>, hospitals: seq<Hospital>, settings: Settings,
    tickStartCount: nat, now: int, time: string, idle: seq<Ambulance>, draws: seq<SpawnDraw>)
    requires |hospitals| > 0 && |draws| >= |idle| && forall i :: 0 <= i < |draws| ==> ValidSpawnDraw(draws[i])
    requires IdsIssued(w)
    ensures IdsIssued(SpawnAll(w, prev, hospitals, settings, tickStartCount, now, time, idle, draws))
    decreases |idle|
  {
    if idle != [] {
      var n := |idle| - 1;
      var before := SpawnAll(w, prev, hospitals, settings, tickStartCount, now, time, idle[..n], draws);
      SpawnAllKeepsIdsIssued(w, prev, hospitals, settings, tickStartCount, now, time, idle[..n], draws);
      IssuedStep(before, SpawnStep(before, prev, hospitals, settings, tickStartCount, now, time, idle[n], draws[n]));
    }
  }

  // ---------------------------------------------------------------- phase 5

  /** `onArriveAtHospital(discoveryId)`: drop the incident and every route to it. */
  function RemoveDiscovery(w: World, id: Option<string>): (r: World)
    ensures r.ambulances == w.ambulances
    ensures |r.discoveries| <= |w.discoveries| && |r.routes| <= |w.routes|
    ensures r.nextDiscoveryId == w.nextDiscoveryId && r.nextRouteId == w.nextRouteId
    ensures forall i :: 0 <= i < |r.discoveries| ==> r.discoveries[i] in w.discoveries && Some(r.discoveries[i].id) != id
    ensures forall i :: 0 <= i < |w.discoveries| && Some(w.discoveries[i].id) != id ==> w.discoveries[i] in r.discoveries
    ensures forall i :: 0 <= i < |r.routes| ==> r.routes[i] in w.routes && Some(r.routes[i].discoveryPointId) != id
    ensures forall i :: 0 <= i < |w.routes| && Some(w.routes[i].discoveryPointId) != id ==> w.routes[i] in r.routes
  {
    w.(routes := Filter(w.routes, (route: Route) => Some(route.discoveryPointId) != id),
       discoveries := Filter(w.discoveries, (d: Discovery) => Some(d.id) != id))
  }

  /** Keeping only some of the discoveries and routes keeps every id issued. */
  lemma SublistKeepsIdsIssued(w: World, r: World)
    requires r.nextDiscoveryId == w.nextDiscoveryId && r.nextRouteId == w.nextRouteId
    requires forall i :: 0 <= i < |r.discoveries| ==> r.discoveries[i] in w.discoveries
    requires forall i :: 0 <= i < |r.routes| ==> r.routes[i] in w.routes
    ensures IdsIssued(w) ==> IdsIssued(r)
  {
    if IdsIssued(w) {
      DiscoveryIssuedSublist(w.discoveries, r.discoveries, w.nextDiscoveryId, r.nextDiscoveryId);
      RouteIssuedSublist(w.routes, r.routes, w.nextRouteId, r.nextRouteId);
    }
  }

  /** Phase 5: the queued `onArriveAtHospital` callbacks, in order. */
  function RemoveArrivals(w: World, ids: seq<Option<string>>): (r: World)
    ensures r.ambulances == w.ambulances
    ensures |r.discoveries| <= |w.discoveries| && |r.routes| <= |w.routes|
    ensures r.nextDiscoveryId == w.nextDiscoveryId && r.nextRouteId == w.nextRouteId
    ensures forall i :: 0 <= i < |r.discoveries| ==> r.discoveries[i] in w.discoveries && Some(r.discoveries[i].id) !in ids
    ensures forall i :: 0 <= i < |r.routes| ==> r.routes[i] in w.routes && Some(r.routes[i].discoveryPointId) !in ids
    decreases |ids|
  {
    if ids == [] then w
    else
      var n := |ids| - 1;
      var before := RemoveArrivals(w, ids[..n]);
      assert ids == ids[..n] + [ids[n]];
      RemoveDiscovery(before, ids[n])
  }

  /** The callbacks drop nothing else: every incident and route no callback names survives. */
  lemma {:induction false} RemoveArrivalsKeepsOthers(w: World, ids: seq<Option<string>>)
    ensures var r := RemoveArrivals(w, ids);
      (forall i :: 0 <= i < |w.discoveries| && Some(w.discoveries[i].id) !in ids ==> w.discoveries[i] in r.discoveries)
      && (forall i :: 0 <= i < |w.routes| && Some(w.routes[i].discoveryPointId) !in ids ==> w.routes[i] in r.routes)
    decreases |ids|
  {
    if ids != [] {
      var n := |ids| - 1;
      var before := RemoveArrivals(w, ids[..n]);
      RemoveArrivalsKeepsOthers(w, ids[..n]);
      assert ids == ids[..n] + [ids[n]];
      var r := RemoveDiscovery(before, ids[n]);
      forall i | 0 <= i < |w.discoveries| && Some(w.discoveries[i].id) !in ids
        ensures w.discoveries[i] in r.discoveries
      {
        var k :| 0 <= k < |before.discoveries| && before.discoveries[k] == w.discoveries[i];
      }
      forall i | 0 <= i < |w.routes| && Some(w.routes[i].discoveryPointId) !in ids
        ensures w.routes[i] in r.routes
      {
        var k :| 0 <= k < |before.routes| && before.routes[k] == w.routes[i];
      }
    }
  }

  /** One more callback is one more `RemoveDiscovery`. */
  lemma RemoveArrivalsSnoc(w: World, ids: seq<Option<string>>, m: nat)
    requires m < |ids|
    ensures RemoveArrivals(w, ids[..m + 1]) == RemoveDiscovery(RemoveArrivals(w, ids[..m]), ids[m])
  {
    assert ids[..m + 1][..m] == ids[..m];
  }

  // ---------------------------------------------------------------- routes never dangle

  /** Some discovery in the list has identifier `id`. */
  predicate DiscoveryPresent(discoveries: seq<Discovery>, id: string)
  {
    exists j :: 0 <= j < |discoveries| && discoveries[j].id == id
  }

  /** Every route leads to an incident that is still on the map. */
  predicate RoutesReferToDiscoveries(w: World)
  {
    forall i :: 0 <= i < |w.routes| ==> DiscoveryPresent(w.discoveries, w.routes[i].discoveryPointId)
  }

  /**
   * A step that only appends discoveries, and appends at most one route,
   * leading to a discovery of the new list, leaves no route dangling.
   */
  lemma ReferStep(w: World, r: World)
    requires RoutesReferToDiscoveries(w)
    requires |w.discoveries| <= |r.discoveries| && r.discoveries[..|w.discoveries|] == w.discoveries
    requires r.routes == w.routes
             || (|r.routes| == |w.routes| + 1 && r.routes[..|w.routes|] == w.routes
                 && DiscoveryPresent(r.discoveries, r.routes[|w.routes|].discoveryPointId))
    ensures RoutesReferToDiscoveries(r)
  {
    forall i | 0 <= i < |r.routes| ensures DiscoveryPresent(r.discoveries, r.routes[i].discoveryPointId) {
      if i < |w.routes| {
        assert r.routes[i] == w.routes[i];
        assert DiscoveryPresent(w.discoveries, w.routes[i].discoveryPointId);
        var j :| 0 <= j < |w.discoveries| && w.discoveries[j].id == w.routes[i].discoveryPointId;
        assert r.discoveries[j] == w.discoveries[j];
      }
    }
  }

  /** Dispatching an incident of the list routes only to that incident. */
  lemma DispatchStepKeepsRoutesReferring(w: World, prev: seq<Ambulance>, hospitals: seq<Hospital>,
                                         discovery: Discovery, draw: real)
    requires |hospitals| > 0 && IsDraw(draw)
    requires RoutesReferToDiscoveries(w) && discovery in w.discoveries
    ensures RoutesReferToDiscoveries(DispatchStep(w, prev, hospitals, discovery, draw))
  {
    var r := DispatchStep(w, prev, hospitals, discovery, draw);
    assert w.discoveries[..|w.discoveries|] == w.discoveries;
    if !NoneIdle(prev) {
      var j :| 0 <= j < |w.discoveries| && w.discoveries[j] == discovery;
      assert r.discoveries[j].id == r.routes[|w.routes|].discoveryPointId;
    }
    ReferStep(w, r);
  }

  /** Dispatching waiting incidents from the list routes only to incidents on it. */
  lemma {:induction false} DispatchAllKeepsRoutesReferring(w: World, prev: seq<Ambulance>, hospitals: seq<Hospital>,
                                                            waiting: seq<Discovery>, draws: seq<real>)
    requires |hospitals| > 0 && |draws| >= |waiting| && forall i :: 0 <= i < |draws| ==> IsDraw(draws[i])
    requires RoutesReferToDiscoveries(w)
    requires forall d :: d in waiting ==> d in w.discoveries
    ensures RoutesReferToDiscoveries(DispatchAll(w, prev, hospitals, waiting, draws))
    decreases |waiting|
  {
    if waiting != [] {
      var n := |waiting| - 1;
      assert forall d :: d in waiting[..n] ==> d in waiting;
      DispatchAllKeepsRoutesReferring(w, prev, hospitals, waiting[..n], draws);
      var before := DispatchAll(w, prev, hospitals, waiting[..n], draws);
      assert waiting[n] in before.discoveries;
      DispatchStepKeepsRoutesReferring(before, prev, hospitals, waiting[n], draws[n]);
    }
  }

  /** Every spawned route leads to the incident spawned with it. */
  lemma {:induction false} SpawnAllKeepsRoutesReferring(
    w: World, prev: seq<Ambulance>, hospitals: seq<Hospital>, settings: Settings,
    tickStartCount: nat, now: int, time: string, idle: seq<Ambulance>, draws: seq<SpawnDraw>)
    requires |hospitals| > 0 && |draws| >= |idle| && forall i :: 0 <= i < |draws| ==> ValidSpawnDraw(draws[i])
    requires RoutesReferToDiscoveries(w)
    ensures RoutesReferToDiscoveries(SpawnAll(w, prev, hospitals, settings, tickStartCount, now, time, idle, draws))
    decreases |idle|
  {
    if idle != [] {
      var n := |idle| - 1;
      var before := SpawnAll(w, prev, hospitals, settings, tickStartCount, now, time, idle[..n], draws);
      SpawnAllKeepsRoutesReferring(w, prev, hospitals, settings, tickStartCount, now, time, idle[..n], draws);
      var r := SpawnStep(before, prev, hospitals, settings, tickStartCount, now, time, idle[n], draws[n]);
      assert before.discoveries[..|before.discoveries|] == before.discoveries;
      if r.routes != before.routes {
        var m := |before.discoveries|;
        assert r.discoveries[m].id == r.routes[|before.routes|].discoveryPointId;
      }
      ReferStep(before, r);
    }
  }

  /** The arrival callback drops an incident together with every route to it. */
  lemma RemoveDiscoveryKeepsRoutesReferring(w: World, id: Option<string>)
    requires RoutesReferToDiscoveries(w)
    ensures RoutesReferToDiscoveries(RemoveDiscovery(w, id))
  {
    var r := RemoveDiscovery(w, id);
    forall i | 0 <= i < |r.routes| ensures DiscoveryPresent(r.discoveries, r.routes[i].discoveryPointId) {
      var k :| 0 <= k < |w.routes| && w.routes[k] == r.routes[i];
      assert DiscoveryPresent(w.discoveries, w.routes[k].discoveryPointId);
      var j :| 0 <= j < |w.discoveries| && w.discoveries[j].id == w.routes[k].discoveryPointId;
      assert w.discoveries[j] in r.discoveries;
      var m :| 0 <= m < |r.discoveries| && r.discoveries[m] == w.discoveries[j];
    }
  }

  lemma {:induction false} RemoveArrivalsKeepsRoutesReferring(w: World, ids: seq<Option<string>>)
    requires RoutesReferToDiscoveries(w)
    ensures RoutesReferToDiscoveries(RemoveArrivals(w, ids))
    decreases |ids|
  {
    if ids != [] {
      var n := |ids| - 1;
      RemoveArrivalsKeepsRoutesReferring(w, ids[..n]);
      RemoveDiscoveryKeepsRoutesReferring(RemoveArrivals(w, ids[..n]), ids[n]);
    }
  }

  // ---------------------------------------------------------------- the tick

  /** The idle ambulances of a fleet, in order: `prev.filter((a) => a.status === "idle")`. */
  function IdleAmbulances(ambulances: seq<Ambulance>): (idle: seq<Ambulance>)
    ensures |idle| <= |ambulances|
    ensures forall i :: 0 <= i < |idle| ==> idle[i].status == Status.Idle
    ensures forall i :: 0 <= i < |idle| ==> idle[i] in ambulances
    ensures forall i :: 0 <= i < |ambulances| && ambulances[i].status == Status.Idle ==> ambulances[i] in idle
  {
    Filter(ambulances, (a: Ambulance) => a.status == Status.Idle)
  }

  /** The idle list keeps fleet order: the idle ambulances of a split fleet are those of each part, in turn. */
  lemma IdleAmbulancesKeepsOrder(a: seq<Ambulance>, b: seq<Ambulance>)
    ensures IdleAmbulances(a + b) == IdleAmbulances(a) + IdleAmbulances(b)
  {
    FilterAppend(a, b, (x: Ambulance) => x.status == Status.Idle);
  }

  ghost predicate TickRequires(w: World, hospitals: seq<Hospital>, speed: real, draws: TickDraws, sqrt: real -> real)
  {
    |hospitals| > 0 && speed > 0.0 && IsSqrt(sqrt) && ValidTickDraws(draws, |w.ambulances|, |w.discoveries|)
  }

  /** The state after phases 1 to 3: moved, then the waiting incidents dispatched. */
  function Dispatched(w: World, hospitals: seq<Hospital>, prev: seq<Ambulance>, draws: TickDraws): (r: World)
    requires |hospitals| > 0 && |prev| == |w.ambulances|
    requires ValidTickDraws(draws, |w.ambulances|, |w.discoveries|)
  {
    DispatchAll(w.(ambulances := prev), prev, hospitals, Waiting(w.discoveries, prev), draws.dispatch)
  }

  /** The state after phases 1 to 4. */
  function Spawned(w: World, hospitals: seq<Hospital>, settings: Settings, now: int, time: string,
                   prev: seq<Ambulance>, draws: TickDraws): (r: World)
    requires |hospitals| > 0 && |prev| == |w.ambulances|
    requires ValidTickDraws(draws, |w.ambulances|, |w.discoveries|)
  {
    SpawnAll(Dispatched(w, hospitals, prev, draws), prev, hospitals, settings, |w.discoveries|, now, time,
             IdleAmbulances(prev), draws.spawn)
  }

  /** One interval tick, phase by phase. */
  function TickSpec(w: World, hospitals: seq<Hospital>, settings: Settings, speed: real, now: int,
                    time: string, draws: TickDraws, sqrt: real -> real): World
    requires TickRequires(w, hospitals, speed, draws, sqrt)
  {
    var steps := MoveAll(w.ambulances, w.discoveries, hospitals, speed, now, draws.patrol, sqrt);
    RemoveArrivals(Spawned(w, hospitals, settings, now, time, Moved(steps), draws), Arrivals(steps))
  }

  /** A tick keeps every ambulance's status in step with its phase, and the fleet's size. */
  lemma TickKeepsStatusMatchesPhase(w: World, hospitals: seq<Hospital>, settings: Settings, speed: real, now: int,
                                    time: string, draws: TickDraws, sqrt: real -> real)
    requires TickRequires(w, hospitals, speed, draws, sqrt)
    requires AllStatusMatchesPhase(w.ambulances)
    ensures var r := TickSpec(w, hospitals, settings, speed, now, time, draws, sqrt);
      AllStatusMatchesPhase(r.ambulances) && |r.ambulances| == |w.ambulances|
  {
    var steps := MoveAll(w.ambulances, w.discoveries, hospitals, speed, now, draws.patrol, sqrt);
    var prev := Moved(steps);
    assert AllStatusMatchesPhase(prev);
    var w1 := w.(ambulances := prev);
    DispatchAllKeepsStatusMatchesPhase(w1, prev, hospitals, Waiting(w.discoveries, prev), draws.dispatch);
    SpawnAllKeepsStatusMatchesPhase(Dispatched(w, hospitals, prev, draws), prev, hospitals, settings,
                                    |w.discoveries|, now, time, IdleAmbulances(prev), draws.spawn);
  }

  /** A tick only hands out new ids: every discovery and route id stays below its counter. */
  lemma TickKeepsIdsIssued(w: World, hospitals: seq<Hospital>, settings: Settings, speed: real, now: int,
                           time: string, draws: TickDraws, sqrt: real -> real)
    requires TickRequires(w, hospitals, speed, draws, sqrt)
    requires IdsIssued(w)
    ensures IdsIssued(TickSpec(w, hospitals, settings, speed, now, time, draws, sqrt))
  {
    var steps := MoveAll(w.ambulances, w.discoveries, hospitals, speed, now, draws.patrol, sqrt);
    var prev := Moved(steps);
    var w1 := w.(ambulances := prev);
    DispatchAllKeepsIdsIssued(w1, prev, hospitals, Waiting(w.discoveries, prev), draws.dispatch);
    SpawnAllKeepsIdsIssued(Dispatched(w, hospitals, prev, draws), prev, hospitals, settings,
                           |w.discoveries|, now, time, IdleAmbulances(prev), draws.spawn);
    var spawned := Spawned(w, hospitals, settings, now, time, prev, draws);
    SublistKeepsIdsIssued(spawned, RemoveArrivals(spawned, Arrivals(steps)));
  }

  /** After a tick every route still leads to an incident on the map. */
  lemma TickKeepsRoutesReferring(w: World, hospitals: seq<Hospital>, settings: Settings, speed: real, now: int,
                                 time: string, draws: TickDraws, sqrt: real -> real)
    requires TickRequires(w, hospitals, speed, draws, sqrt)
    requires RoutesReferToDiscoveries(w)
    ensures RoutesReferToDiscoveries(TickSpec(w, hospitals, settings, speed, now, time, draws, sqrt))
  {
    var steps := MoveAll(w.ambulances, w.discoveries, hospitals, speed, now, draws.patrol, sqrt);
    var prev := Moved(steps);
    var w1 := w.(ambulances := prev);
    var waiting := Waiting(w.discoveries, prev);
    DispatchAllKeepsRoutesReferring(w1, prev, hospitals, waiting, draws.dispatch);
    SpawnAllKeepsRoutesReferring(Dispatched(w, hospitals, prev, draws), prev, hospitals, settings,
                                 |w.discoveries|, now, time, IdleAmbulances(prev), draws.spawn);
    RemoveArrivalsKeepsRoutesReferring(Spawned(w, hospitals, settings, now, time, prev, draws), Arrivals(steps));
  }

  /** A tick changes no ambulance's id, so the fleet's ids stay distinct. */
  lemma TickKeepsDistinctAmbulanceIds(w: World, hospitals: seq<Hospital>, settings: Settings, speed: real, now: int,
                                      time: string, draws: TickDraws, sqrt: real -> real)
    requires TickRequires(w, hospitals, speed, draws, sqrt)
    ensures var r := TickSpec(w, hospitals, settings, speed, now, time, draws, sqrt);
      SameIds(w.ambulances, r.ambulances)
      && (DistinctAmbulanceIds(w.ambulances) ==> DistinctAmbulanceIds(r.ambulances))
  {
    var steps := MoveAll(w.ambulances, w.discoveries, hospitals, speed, now, draws.patrol, sqrt);
    var prev := Moved(steps);
    assert SameIds(w.ambulances, prev);
    DispatchAllKeepsIds(w.(ambulances := prev), prev, hospitals, Waiting(w.discoveries, prev), draws.dispatch);
    SpawnAllKeepsIds(Dispatched(w, hospitals, prev, draws), prev, hospitals, settings,
                     |w.discoveries|, now, time, IdleAmbulances(prev), draws.spawn);
  }

  /** The id counters never go back, and the route counter moves at least as far as the discovery counter. */
  lemma TickAdvancesCounters(w: World, hospitals: seq<Hospital>, settings: Settings, speed: real, now: int,
                             time: string, draws: TickDraws, sqrt: real -> real)
    requires TickRequires(w, hospitals, speed, draws, sqrt)
    ensures var r := TickSpec(w, hospitals, settings, speed, now, time, draws, sqrt);
      w.nextDiscoveryId <= r.nextDiscoveryId
      && r.nextDiscoveryId - w.nextDiscoveryId <= r.nextRouteId - w.nextRouteId
  {
  }

  /**
   * At or above `maxIncidents` at the start of a tick, the tick creates no
   * incident: every discovery afterwards was already there, and the
   * discovery counter does not move.
   */
  lemma CapStopsNewIncidents(w: World, hospitals: seq<Hospital>, settings: Settings, speed: real, now: int,
                             time: string, draws: TickDraws, sqrt: real -> real)
    requires TickRequires(w, hospitals, speed, draws, sqrt)
    requires |w.discoveries| >= settings.maxIncidents
    ensures var r := TickSpec(w, hospitals, settings, speed, now, time, draws, sqrt);
      (forall i :: 0 <= i < |r.discoveries| ==> r.discoveries[i] in w.discoveries)
      && r.nextDiscoveryId == w.nextDiscoveryId
  {
    var steps := MoveAll(w.ambulances, w.discoveries, hospitals, speed, now, draws.patrol, sqrt);
    var prev := Moved(steps);
    SpawnAllCapped(Dispatched(w, hospitals, prev, draws), prev, hospitals, settings,
                   |w.discoveries|, now, time, IdleAmbulances(prev), draws.spawn);
  }

  /**
   * One tick adds at most one incident per ambulance, so the cap, checked
   * against the count at the start of the tick, can be passed by up to the
   * fleet size less one.
   */
  lemma NewIncidentsPerTick(w: World, hospitals: seq<Hospital>, settings: Settings, speed: real, now: int,
                            time: string, draws: TickDraws, sqrt: real -> real)
    requires TickRequires(w, hospitals, speed, draws, sqrt)
    ensures var r := TickSpec(w, hospitals, settings, speed, now, time, draws, sqrt);
      |r.discoveries| <= |w.discoveries| + |w.ambulances|
  {
    var steps := MoveAll(w.ambulances, w.discoveries, hospitals, speed, now, draws.patrol, sqrt);
    var prev := Moved(steps);
    var spawned := Spawned(w, hospitals, settings, now, time, prev, draws);
    var r := RemoveArrivals(spawned, Arrivals(steps));
    assert |spawned.discoveries| <= |w.discoveries| + |w.ambulances|;
  }

  /** After a tick, no incident an ambulance delivered this tick remains, and no route to it. */
  lemma DeliveredIncidentsRemoved(w: World, hospitals: seq<Hospital>, settings: Settings, speed: real, now: int,
                                  time: string, draws: TickDraws, sqrt: real -> real, k: int)
    requires TickRequires(w, hospitals, speed, draws, sqrt)
    requires 0 <= k < |w.ambulances|
    requires MoveAll(w.ambulances, w.discoveries, hospitals, speed, now, draws.patrol, sqrt)[k].arrival.ArrivedAtHospital?
    ensures var r := TickSpec(w, hospitals, settings, speed, now, time, draws, sqrt);
      var id := w.ambulances[k].targetDiscoveryId;
      (forall i :: 0 <= i < |r.discoveries| ==> Some(r.discoveries[i].id) != id)
      && (forall i :: 0 <= i < |r.routes| ==> Some(r.routes[i].discoveryPointId) != id)
  {
    var steps := MoveAll(w.ambulances, w.discoveries, hospitals, speed, now, draws.patrol, sqrt);
    assert steps[k].arrival == ArrivedAtHospital(w.ambulances[k].targetDiscoveryId);
    assert w.ambulances[k].targetDiscoveryId in Arrivals(steps);
  }
}
