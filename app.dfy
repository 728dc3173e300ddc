/**
 * The simulation state of the `App` component (`src/App.js`) and the
 * handlers that change it: the start/stop toggle, the reset button, the
 * speed buttons, the interval tick, and the arrival callback.
 *
 * Each `useState` pair becomes a field. The clock (`Date.now()`), the
 * random draws and `Math.sqrt` are parameters of the methods that use them.
 */
module App {
  import opened Wrappers
  import opened Seqs
  import opened Geo
  import opened Constants
  import opened Entities
  import opened Dispatcher
  import opened Motion
  import opened Factories
  import opened Tick

  class Simulation {
    /** The fixed hospital list of `src/data/mockData.js`. */
    const hospitals: seq<Hospital>
    var settings: Settings
    var isSimulating: bool
    var simulationSpeed: real
    var ambulances: seq<Ambulance>
    var discoveries: seq<Discovery>
    var routes: seq<Route>
    /** `nextId.discovery` and `nextId.route`. */
    var nextDiscoveryId: nat
    var nextRouteId: nat

    function State(): World
      reads this
    {
      World(ambulances, discoveries, routes, nextDiscoveryId, nextRouteId)
    }

    /**
     * There is at least one hospital, the speed is positive, the counters
     * start at 1, no two ambulances share an id, every ambulance's status
     * agrees with its phase, every discovery and route id is a counter
     * value already handed out, and every route leads to an incident still
     * on the map.
     */
    predicate Valid()
      reads this
    {
      |hospitals| > 0 && simulationSpeed > 0.0
      && nextDiscoveryId >= 1 && nextRouteId >= 1
      && DistinctAmbulanceIds(ambulances) && AllStatusMatchesPhase(ambulances) && IdsIssued(State())
      && RoutesReferToDiscoveries(State())
    }

    /** The state the component mounts with; `settings` is what `loadSettings` returned. */
    constructor(hospitals: seq<Hospital>, settings: Settings)
      requires |hospitals| > 0
      ensures Valid()
      ensures this.hospitals == hospitals && this.settings == settings
      ensures !isSimulating && simulationSpeed == 1.0
      ensures State() == World([], [], [], 1, 1)
    {
      this.hospitals := hospitals;
      this.settings := settings;
      isSimulating := false;
      simulationSpeed := 1.0;
      ambulances := [];
      discoveries := [];
      routes := [];
      nextDiscoveryId := 1;
      nextRouteId := 1;
    }

    /**
     * `toggleSimulation`: starting builds a fresh fleet from the current
     * settings and clears incidents, routes and counters; stopping only
     * clears the flag and leaves everything on the map.
     */
    method ToggleSimulation(now: int, fleetDraws: seq<real>)
      requires Valid()
      requires !isSimulating ==>
                 Iterations(settings.independentAmbulances) <= |fleetDraws|
                 && forall i :: 0 <= i < |fleetDraws| ==> IsDraw(fleetDraws[i])
      modifies this
      ensures Valid()
      ensures isSimulating == !old(isSimulating)
      ensures settings == old(settings) && simulationSpeed == old(simulationSpeed)
      ensures old(isSimulating) ==> State() == old(State())
      ensures !old(isSimulating) ==>
                State() == World(InitialFleet(hospitals, settings.ambulancesPerHospital,
                                              settings.independentAmbulances, now, fleetDraws), [], [], 1, 1)
    {
      if !isSimulating {
        var fleet := InitializeAmbulances(hospitals, settings.ambulancesPerHospital,
                                          settings.independentAmbulances, now, fleetDraws);
        InitialFleetShape(hospitals, settings.ambulancesPerHospital, settings.independentAmbulances, now, fleetDraws);
        forall i, j | 0 <= i < j < |fleet|
          ensures fleet[i].id != fleet[j].id
        {
          InitialFleetDistinctIds(hospitals, settings.ambulancesPerHospital, settings.independentAmbulances,
                                  now, fleetDraws, i, j);
        }
        ambulances := fleet;
        discoveries := [];
        routes := [];
        nextDiscoveryId := 1;
        nextRouteId := 1;
      }
      isSimulating := !isSimulating;
    }

    /** `resetSimulation`: stopped, nothing on the map, counters and speed back to 1. */
    method ResetSimulation()
      requires Valid()
      modifies this
      ensures Valid()
      ensures !isSimulating && simulationSpeed == 1.0 && settings == old(settings)
      ensures State() == World([], [], [], 1, 1)
    {
      isSimulating := false;
      ambulances := [];
      discoveries := [];
      routes := [];
      nextDiscoveryId := 1;
      nextRouteId := 1;
      simulationSpeed := 1.0;
    }

    /** `setSimulationSpeed`, from the 1x/2x/3x buttons. */
    method SetSimulationSpeed(speed: real)
      requires Valid() && speed > 0.0
      modifies this
      ensures Valid()
      ensures simulationSpeed == speed
      ensures State() == old(State()) && isSimulating == old(isSimulating) && settings == old(settings)
    {
      simulationSpeed := speed;
    }

    /**
     * The `onArriveAtHospital` callback: drop the incident and its routes.
     * It runs as the last step of `Tick`, so it keeps `Valid()` but does
     * not require it.
     */
    method OnArriveAtHospital(discoveryId: Option<string>)
      modifies this
      ensures State() == RemoveDiscovery(old(State()), discoveryId)
      ensures isSimulating == old(isSimulating) && settings == old(settings)
      ensures simulationSpeed == old(simulationSpeed)
      ensures old(Valid()) ==> Valid()
    {
      ghost var w := State();
      routes := Filter(routes, (route: Route) => Some(route.discoveryPointId) != discoveryId);
      discoveries := Filter(discoveries, (d: Discovery) => Some(d.id) != discoveryId);
      SublistKeepsIdsIssued(w, State());
      if RoutesReferToDiscoveries(w) {
        RemoveDiscoveryKeepsRoutesReferring(w, discoveryId);
      }
    }

    /** The body of the `waitingDiscoveries.forEach`, for one incident. */
    method DispatchOne(prev: seq<Ambulance>, discovery: Discovery, draw: real)
      requires |hospitals| > 0 && IsDraw(draw)
      modifies this`routes, this`ambulances, this`nextRouteId
      ensures State() == DispatchStep(old(State()), prev, hospitals, discovery, draw)
    {
      var info := GenerateAmbulanceForDiscovery(discovery, prev, hospitals);
      if info.Some? {
        routes := routes + [CreateRoute(discovery.id, info.value.ambulanceId, info.value.hospitalId,
                                        nextRouteId, draw)];
        ambulances := Dispatch(ambulances, info.value.ambulanceId, discovery.id, info.value.hospitalId);
        nextRouteId := nextRouteId + 1;
      }
    }

    /** The body of the `idleAmbulances.forEach`, for one idle ambulance `a`. */
    method SpawnOne(prev: seq<Ambulance>, tickStartCount: nat, now: int, time: string, a: Ambulance, d: SpawnDraw)
      requires |hospitals| > 0 && ValidSpawnDraw(d)
      modifies this`discoveries, this`routes, this`ambulances, this`nextDiscoveryId, this`nextRouteId
      ensures State() == SpawnStep(old(State()), prev, hospitals, settings, tickStartCount, now, time, a, d)
    {
      var shouldCreateIncident := ShouldCreateIncident(a, settings, now, d.idle);
      if tickStartCount >= settings.maxIncidents {
        return;
      }
      if shouldCreateIncident && d.create < IncidentCreationProbability {
        var discovery := GenerateRandomDiscovery(nextDiscoveryId, d.discovery, time);
        var info := GenerateAmbulanceForDiscovery(discovery, prev, hospitals);
        if info.Some? {
          discoveries := discoveries + [discovery];
          routes := routes + [CreateRoute(discovery.id, info.value.ambulanceId, info.value.hospitalId,
                                          nextRouteId, d.priority)];
          ambulances := Dispatch(ambulances, info.value.ambulanceId, discovery.id, info.value.hospitalId);
        }
        nextDiscoveryId := nextDiscoveryId + 1;
        nextRouteId := nextRouteId + 1;
      }
    }

    /** The `waitingDiscoveries.forEach`: each incident offered to the dispatcher against `prev`. */
    method DispatchWaiting(prev: seq<Ambulance>, waiting: seq<Discovery>, draws: seq<real>)
      requires |hospitals| > 0
      requires |draws| >= |waiting| && forall i :: 0 <= i < |draws| ==> IsDraw(draws[i])
      modifies this
      ensures State() == DispatchAll(old(State()), prev, hospitals, waiting, draws)
      ensures isSimulating == old(isSimulating) && settings == old(settings)
      ensures simulationSpeed == old(simulationSpeed)
    {
      ghost var w := State();
      var k := 0;
      while k < |waiting|
        invariant 0 <= k <= |waiting|
        invariant State() == DispatchAll(w, prev, hospitals, waiting[..k], draws)
        modifies this`routes, this`ambulances, this`nextRouteId
      {
        DispatchAllSnoc(w, prev, hospitals, waiting, draws, k);
        DispatchOne(prev, waiting[k], draws[k]);
        k := k + 1;
      }
      assert waiting[..k] == waiting;
    }

    /**
     * The `idleAmbulances.forEach`: each idle ambulance of `prev` may
     * spawn an incident, unless `tickStartCount` has reached the cap.
     */
    method SpawnIncidents(prev: seq<Ambulance>, tickStartCount: nat, now: int, time: string,
                          idle: seq<Ambulance>, draws: seq<SpawnDraw>)
      requires |hospitals| > 0
      requires |draws| >= |idle| && forall i :: 0 <= i < |draws| ==> ValidSpawnDraw(draws[i])
      modifies this
      ensures State() == SpawnAll(old(State()), prev, hospitals, settings, tickStartCount, now, time, idle, draws)
      ensures isSimulating == old(isSimulating) && settings == old(settings)
      ensures simulationSpeed == old(simulationSpeed)
    {
      ghost var w := State();
      var j := 0;
      while j < |idle|
        invariant 0 <= j <= |idle|
        invariant State() == SpawnAll(w, prev, hospitals, settings, tickStartCount, now, time, idle[..j], draws)
        modifies this`discoveries, this`routes, this`ambulances, this`nextDiscoveryId, this`nextRouteId
      {
        SpawnAllSnoc(w, prev, hospitals, settings, tickStartCount, now, time, idle, draws, j);
        SpawnOne(prev, tickStartCount, now, time, idle[j], draws[j]);
        j := j + 1;
      }
      assert idle[..j] == idle;
    }

    /** The queued arrival callbacks, in the order the ambulances reported them. */
    method RunArrivals(ids: seq<Option<string>>)
      modifies this
      ensures State() == RemoveArrivals(old(State()), ids)
      ensures isSimulating == old(isSimulating) && settings == old(settings)
      ensures simulationSpeed == old(simulationSpeed)
    {
      ghost var w := State();
      var m := 0;
      while m < |ids|
        invariant 0 <= m <= |ids|
        invariant State() == RemoveArrivals(w, ids[..m])
        invariant isSimulating == old(isSimulating) && settings == old(settings)
        invariant simulationSpeed == old(simulationSpeed)
      {
        RemoveArrivalsSnoc(w, ids, m);
        OnArriveAtHospital(ids[m]);
        m := m + 1;
      }
      assert ids[..m] == ids;
    }

    /**
     * One interval tick, at time `now` (milliseconds) with `time` the
     * formatted clock for new incidents: move the fleet against the
     * tick-start discoveries, dispatch the waiting incidents, let idle
     * ambulances spawn incidents, and run the arrival callbacks.
     */
    method Tick(now: int, time: string, draws: TickDraws, sqrt: real -> real)
      requires Valid() && isSimulating
      requires IsSqrt(sqrt) && ValidTickDraws(draws, |ambulances|, |discoveries|)
      modifies this
      ensures Valid()
      ensures State() == TickSpec(old(State()), hospitals, settings, simulationSpeed, now, time, draws, sqrt)
      ensures isSimulating && settings == old(settings) && simulationSpeed == old(simulationSpeed)
    {
      ghost var w := State();
      var snapshot := discoveries;
      var steps := MoveAll(ambulances, snapshot, hospitals, simulationSpeed, now, draws.patrol, sqrt);
      var prev := Moved(steps);
      ambulances := prev;
      DispatchWaiting(prev, Waiting(snapshot, prev), draws.dispatch);
      assert State() == Dispatched(w, hospitals, prev, draws);
      SpawnIncidents(prev, |snapshot|, now, time, IdleAmbulances(prev), draws.spawn);
      assert State() == Spawned(w, hospitals, settings, now, time, prev, draws);
      RunArrivals(Arrivals(steps));
      TickKeepsStatusMatchesPhase(w, hospitals, settings, simulationSpeed, now, time, draws, sqrt);
      TickKeepsIdsIssued(w, hospitals, settings, simulationSpeed, now, time, draws, sqrt);
      TickAdvancesCounters(w, hospitals, settings, simulationSpeed, now, time, draws, sqrt);
      TickKeepsRoutesReferring(w, hospitals, settings, simulationSpeed, now, time, draws, sqrt);
      TickKeepsDistinctAmbulanceIds(w, hospitals, settings, simulationSpeed, now, time, draws, sqrt);
    }
  }
}
