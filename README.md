# Ambulance dispatch simulation, in Dafny

This project models the simulation core of a map demo. The demo shows
hospitals, ambulances and incident sites ("discovery points") in Tokyo and
Hamamatsu, and moves them one tick at a time:

- idle ambulances patrol around their home hospital;
- an idle ambulance that has waited long enough may raise a new incident;
- every incident without an ambulance is sent the nearest idle ambulance
  and gets a route to the hospital nearest the incident;
- the ambulance drives to the incident, stays there 3 seconds, drives to
  the hospital, and its arrival removes the incident and its routes.

The model covers:

- the pure helpers of `src/utils/simulationHelpers.js`:
  - distance;
  - the greedy dispatcher;
  - the per-ambulance phase machine;
  - the incident, route and fleet factories;
- the state of the `App` component of `src/App.js` and its handlers: start/stop, reset, speed, the
  interval tick and the arrival callback;
- the severity and priority colour tables of `src/config/colors.js`.

Module layout:

| module | file | contents |
|---|---|---|
| `Wrappers`, `Seqs` | `wrappers.dfy`, `seqs.dfy` | `Option`, plus `filter`, `findIndex` and `find` with their contracts |
| `Ids` | `ids.dfy` | the `d1`, `r1`, `a1` identifiers and their injectivity |
| `Geo` | `geo.dfy` | `calculateDistance` and one straight-line step |
| `Constants` | `constants.dfy` | the tables and settings of `src/config/constants.js` |
| `Colors` | `colors.dfy` | `getSeverityByCount` and `COLORS.priority` |
| `Entities` | `entities.dfy` | hospitals, ambulances, discoveries and routes |
| `Dispatcher` | `dispatcher.dfy` | `generateAmbulanceForDiscovery` |
| `Motion` | `motion.dfy` | `moveAmbulanceAlongRoute`, `moveToTarget`, `updateIdlePatrol` |
| `Factories` | `factories.dfy` | `generateRandomDiscovery`, `createRoute`, `initializeAmbulances` |
| `Views` | `views.dfy` | `filterData` and `getRouteCoordinates` |
| `Tick` | `tick.dfy` | one interval tick as a function of the state, phase by phase, and its invariants |
| `App` | `app.dfy` | class `Simulation`: the component's state and the methods that update it |

The helpers are pure JavaScript functions, so they are Dafny functions.
`initializeAmbulances` builds its fleet with loops, so it is a method with
loop invariants, proved equal to the function `InitialFleet`.

The component's `useState` pairs are the fields of the class
`App.Simulation`, and its handlers are methods. `Simulation.Tick` performs
the queued updates of one tick in the order React applies them, one
incident and one ambulance at a time. Its postcondition says that the new
state is `Tick.TickSpec` of the old one. The lemmas about `TickSpec` give
the promises:

- every ambulance's status agrees with its phase;
- ids are always fresh;
- no two ambulances share an id, so a dispatch, which updates the
  ambulance whose id matches, changes exactly one ambulance;
- delivered incidents disappear;
- a tick that starts at or above the incident cap creates no incident.

`Date.now()`, `Math.random()`, `Math.sqrt` and `toLocaleString` are
parameters:

- the clock is `now`;
- every random number is a draw in `[0, 1)`;
- `sqrt` must return the non-negative square root;
- the formatted time is a string.

The tick reads its snapshots the way the source does:

- every ambulance moves against the incident list as it was when the tick began;
- every dispatcher call sees the fleet as it was after moving (`prev`), not as earlier dispatches in the same tick left it;
- the incident cap is compared with the incident count at the start of the tick.

Two behaviours follow, and the model keeps both:

- `Tick.DispatchAllUsesSnapshot` shows that once any ambulance is idle,
  every waiting incident of the tick gets a route from an ambulance idle in
  `prev`. A single idle ambulance is therefore sent to all of them, and
  only the last assignment sticks.
- `Tick.NewIncidentsPerTick` shows that one tick adds at most one incident
  per ambulance. Starting just below `maxIncidents`, a tick can therefore
  overshoot the cap by up to the fleet size less one.

Starting, stopping and resetting behave as follows, and the model states
each as the code has it:

- stopping is a pause. The button shows a pause sign while running
  (`src/components/Sidebar.js:55`), and `toggleSimulation`
  (`src/App.js:367-381`) rebuilds the fleet and clears incidents and routes
  only when starting. A stopped map keeps every ambulance, incident and route.
- reset (`src/App.js:386-393`) returns to the state the component mounts
  with (`src/App.js:84-92`): no ambulances at all, not a fleet parked at
  home.
- no ambulance is guaranteed to serve a single incident. Dispatch works from
  the stale snapshot (`Tick.DispatchAllUsesSnapshot`), so `Valid()` carries
  no such invariant. It does carry that every route leads to an incident
  still on the map, and that ambulance ids are distinct.

## Model

| member | source | states |
|---|---|---|
| `Ids.NatToString` | src/utils/simulationHelpers.js:39 | the numeral of a counter is non-empty, all decimal digits, and one digit long exactly below 10 |
| `Ids.NatToStringInjective` | src/utils/simulationHelpers.js:107 | different counter values print differently |
| `Ids.Tagged` | src/utils/simulationHelpers.js:328 | an id is at least two characters long and starts with its prefix letter |
| `Ids.TaggedInjective` | src/utils/simulationHelpers.js:347 | two ids with the same prefix are equal only for the same counter value |
| `Geo.SqDistanceZero` | src/utils/simulationHelpers.js:122-126 | the squared distance is non-negative and is zero exactly between equal points |
| `Geo.CalculateDistance` | src/utils/simulationHelpers.js:122-126 | the distance is the non-negative number whose square is the squared distance, and zero exactly for equal points |
| `Geo.RootOrder` | src/utils/simulationHelpers.js:68-75 | comparing square roots gives the same answer as comparing the squares |
| `Geo.Advance` | src/utils/simulationHelpers.js:305-310 | one step of length `step` towards a target `dist` away lands exactly `step` from the start and `dist - step` from the target |
| `Geo.AdvanceCloses` | src/utils/simulationHelpers.js:278-311 | measured with `calculateDistance`, one step closes the gap by exactly the step |
| `Colors.GetSeverityByCount` | src/config/colors.js:82-89 | each of the six levels is returned exactly on its own band of counts, so the bands partition all counts |
| `Colors.SeverityMonotone` | src/config/colors.js:82-89 | for head counts, more people never means a lower severity level |
| `Colors.EveryPriorityHasColor` | src/config/colors.js:42-47 | every route priority has a polyline colour |
| `Seqs.Filter` | src/App.js:236 | `filter` keeps exactly the elements meeting the predicate, never adds any, and never grows |
| `Seqs.FilterAppend` | src/App.js:243-245 | filtering a concatenation filters each part, which preserves relative order |
| `Seqs.Find` | src/App.js:207-210 | `find` is undefined exactly when nothing matches, otherwise it returns the first match |
| `Dispatcher.NearestFold` | src/utils/simulationHelpers.js:68-75 | the strict-`<` reduce from an infinite seed finds nothing exactly when nothing is eligible, otherwise the first eligible minimum |
| `Dispatcher.FirstMinUnique` | src/utils/simulationHelpers.js:80-86 | the first minimum is unique, so the reduce's tie-break is determined |
| `Dispatcher.NearestFoldUnderRoots` | src/utils/simulationHelpers.js:68-75 | reducing over distances and over squared distances picks the same position |
| `Dispatcher.GenerateAmbulanceForDiscovery` | src/utils/simulationHelpers.js:59-92 | null exactly when no ambulance is idle; otherwise the first nearest idle ambulance and the first hospital nearest the incident |
| `Dispatcher.DispatchPicksNearestIdle` | src/utils/simulationHelpers.js:64-75 | the chosen ambulance is idle and no idle ambulance is nearer the incident |
| `Dispatcher.SameAmbulanceByDistance` | src/utils/simulationHelpers.js:68-75 | with `calculateDistance` itself as the key, the same ambulance is chosen |
| `Motion.PatrolTargetNearHome` | src/utils/simulationHelpers.js:232-240 | every patrol target lies strictly within the patrol radius of the home hospital |
| `Motion.MoveToTarget` | src/utils/simulationHelpers.js:278-311 | nearer than one step: snap onto the target and change phase, fully resetting to idle when the next phase is idle; otherwise only the position changes, moving exactly one step along the straight line to the target |
| `Motion.UpdateIdlePatrol` | src/utils/simulationHelpers.js:226-268 | with no target, or a target within two patrol steps, a new target is drawn and the ambulance stays put; otherwise only the position changes, moving exactly one patrol step along the straight line to the target |
| `Motion.MoveAmbulanceAlongRoute` | src/utils/simulationHelpers.js:137-218 | the result in every phase: an idle ambulance takes its `updateIdlePatrol` step; one on the way to an existing incident or hospital makes exactly the `moveToTarget` step towards it, at the speed-scaled step, and one whose target is gone returns to idle in place; at an incident the first tick stamps the arrival time, later ticks leave it unchanged until 3000 ms have passed, and then only the phase (to hospital) and the arrival time (cleared) change; identity and home never change; only the phase machine's transitions happen; status stays in step with phase; every return to idle is a full reset; the arrival callback fires exactly on reaching an existing hospital, with the pre-step incident id |
| `Motion.OnCallApproaches` | src/utils/simulationHelpers.js:153-214 | an ambulance on the way to an existing incident or hospital either arrives and takes the next phase or keeps its phase and gets strictly nearer |
| `Motion.MoveToTargetApproaches` | src/utils/simulationHelpers.js:278-311 | each `moveToTarget` step either lands on the target with the next phase or ends strictly nearer to it |
| `Motion.PatrolKeepsIdle` | src/utils/simulationHelpers.js:147-150 | an idle ambulance stays idle, keeps its targets and reports no arrival |
| `Motion.DwellAtDiscovery` | src/utils/simulationHelpers.js:170-189 | at an incident the ambulance does not move; the first tick records the arrival time; it leaves, forgetting the time, exactly when 3000 ms have passed |
| `Motion.DwellIgnoresSpeed` | src/utils/simulationHelpers.js:179-186 | the dwell at an incident does not depend on the simulation speed |
| `Motion.MissingTargetResets` | src/utils/simulationHelpers.js:153-205 | a vanished incident or hospital sends an ambulance on a call back to idle in place |
| `Factories.DrawIndex` | src/utils/simulationHelpers.js:29 | `Math.floor(Math.random() * n)` is an index below `n` |
| `Factories.Lerp` | src/utils/simulationHelpers.js:27-28 | `min + Math.random() * (max - min)` lies in `[min, max)` |
| `Factories.Region` | src/utils/simulationHelpers.js:22-24 | the incident is in the Tokyo area exactly when the first draw is below 0.6 |
| `Factories.GenerateRandomDiscovery` | src/utils/simulationHelpers.js:21-50 | the incident is numbered `d<id>`, lies inside the chosen region's bounds, is named after an area of that region plus a suffix, has a listed type and 0 to 14 people |
| `Factories.CreateRoute` | src/utils/simulationHelpers.js:102-114 | the route is numbered `r<routeId>`, joins the given incident, ambulance and hospital, and has a listed priority and that priority's colour |
| `Factories.InitializeAmbulances` | src/utils/simulationHelpers.js:320-361 | the loops build exactly `InitialFleet`: the crews of each hospital in order, then the randomly homed independents |
| `Factories.AddCrew` | src/utils/simulationHelpers.js:326-339 | the inner loop appends `perHospital` ambulances homed at one hospital, numbered on from the fleet so far |
| `Factories.HomeFleetSize` | src/utils/simulationHelpers.js:325-340 | the hospital crews number `perHospital` per hospital |
| `Factories.HomeFleetShape` | src/utils/simulationHelpers.js:325-340 | crew member `i` is `a<i+1>`, parked idle at hospital `i / perHospital`, so each hospital's crew is a consecutive block in hospital order |
| `Factories.InitialFleetShape` | src/utils/simulationHelpers.js:320-361 | the fleet has `hospitals × perHospital + independent` ambulances (negative counts are zero); the i-th is `a<i+1>`, idle in status and phase, parked on its home hospital, which is one of the given hospitals |
| `Factories.InitialFleetDistinctIds` | src/utils/simulationHelpers.js:322-347 | no two ambulances of the initial fleet share an id |
| `Views.FilterDiscoveries` | src/App.js:106-130 | `"all"` keeps the list; otherwise exactly the discoveries in the selected people-count bucket are kept, with no element added or repeated |
| `Views.FilterDiscoveriesKeepsOrder` | src/App.js:111-129 | the people-count filter preserves the list's order |
| `Views.UnknownFilterKeepsAll` | src/App.js:126-127 | a filter value outside the six buckets keeps every discovery, like `"all"` |
| `Views.FilterAmbulances` | src/App.js:133-140 | with no filter the list is unchanged; with both filters it is empty; otherwise exactly the ambulances of the selected status are kept |
| `Views.GetRouteCoordinates` | src/App.js:149-181 | a route is drawn only when its ambulance and hospital exist; at an incident that still exists it is the ambulance-to-incident leg; on the way to hospital it is the ambulance-to-hospital leg; never both |
| `Views.SeverityLabelMatchesFilter` | src/config/colors.js:82-89 | a head count passes a people-count bucket exactly when its severity label names that bucket |
| `Tick.NextIdsAreFresh` | src/App.js:254-283 | when every id was issued below its counter, the next discovery and route ids are new |
| `Tick.MoveAll` | src/App.js:205-232 | each ambulance, in fleet order, takes the `moveAmbulanceAlongRoute` step for its resolved targets, against the incident list of the tick's start; identity is kept and status stays in step with phase |
| `Tick.Arrivals` | src/App.js:213-222 | the arrival callbacks carry exactly the incident ids of the ambulances that reached a hospital |
| `Tick.AssignedIds` | src/App.js:239-241 | an id is assigned exactly when an en-route ambulance's set target names it |
| `Tick.WaitingExact` | src/App.js:236-245 | an incident waits exactly when no en-route ambulance is assigned to it |
| `Tick.Dispatch` | src/App.js:266-279 | the ambulance with the chosen id is sent to the incident and hospital; every other ambulance is unchanged; status stays in step with phase |
| `Tick.DispatchStep` | src/App.js:248-287 | with no idle ambulance in the snapshot nothing changes; otherwise one route numbered by the route counter joins the first nearest idle ambulance and the nearest hospital, the ambulance is sent, and the counter advances |
| `Tick.DispatchAll` | src/App.js:248-287 | dispatching only appends routes, one per counter step and at most one per waiting incident, and changes no incident |
| `Tick.DispatchAllUsesSnapshot` | src/App.js:248-253 | with any ambulance idle in the snapshot, every waiting incident gets a route; every new route names an ambulance idle in the snapshot |
| `Tick.DispatchAllKeepsStatusMatchesPhase` | src/App.js:266-279 | dispatching keeps status in step with phase |
| `Tick.DispatchStepSendsOne` | src/App.js:248-287 | when ambulance ids are distinct and the snapshot lists the fleet's ids, a successful dispatch changes exactly one ambulance, the first nearest idle one of the snapshot, which sets off for the incident and the chosen hospital; every other ambulance is unchanged |
| `Tick.DispatchAllKeepsIds` | src/App.js:266-281 | dispatching changes no ambulance's id |
| `Tick.DispatchAllKeepsIdsIssued` | src/App.js:255-285 | every route id dispatching creates is a fresh counter value |
| `Tick.SpawnStep` | src/App.js:290-346 | an incident is attempted exactly when the tick started below the cap, the ambulance has idled long enough and the draw is below 0.3; otherwise nothing changes; an attempt advances both counters; when an ambulance is idle in the snapshot it adds the new incident and a route from the first nearest idle ambulance to the nearest hospital and sends that ambulance, otherwise it adds nothing |
| `Tick.SpawnAll` | src/App.js:290-346 | both counters advance together by at most one per idle ambulance; incidents and routes only grow, equally, and by at most the counter advance |
| `Tick.SpawnAllCapped` | src/App.js:298-300 | at or above `maxIncidents` at the start of the tick, no idle ambulance changes anything |
| `Tick.SpawnAllKeepsStatusMatchesPhase` | src/App.js:329-341 | spawning keeps status in step with phase |
| `Tick.SpawnAllKeepsIds` | src/App.js:326-339 | spawned dispatches change no ambulance's id |
| `Tick.SpawnAllKeepsIdsIssued` | src/App.js:308-345 | every incident and route id spawning creates is a fresh counter value |
| `Tick.RemoveDiscovery` | src/App.js:213-222 | the arrival callback drops exactly the incident with that id and every route to it, and nothing else |
| `Tick.RemoveArrivals` | src/App.js:213-222 | after the callbacks, no remaining incident or route names a delivered incident, and nothing new appears |
| `Tick.RemoveArrivalsKeepsOthers` | src/App.js:213-222 | every incident and route that no callback names survives the callbacks |
| `Tick.IdleAmbulances` | src/App.js:236 | the result holds only ambulances of the snapshot, all idle, and every idle one |
| `Tick.IdleAmbulancesKeepsOrder` | src/App.js:236 | the idle list keeps fleet order: the idle ambulances of two consecutive parts of the fleet are those of the first, then those of the second |
| `Tick.ReferStep` | src/App.js:255-345 | appending incidents and at most one route to an incident on the list leaves every route leading to an incident |
| `Tick.DispatchStepKeepsRoutesReferring` | src/App.js:248-287 | dispatching an incident on the list routes only to that incident |
| `Tick.DispatchAllKeepsRoutesReferring` | src/App.js:243-287 | dispatching the waiting incidents keeps every route leading to an incident on the map |
| `Tick.SpawnAllKeepsRoutesReferring` | src/App.js:290-346 | every spawned route leads to the incident spawned with it |
| `Tick.RemoveDiscoveryKeepsRoutesReferring` | src/App.js:213-222 | dropping an incident together with its routes leaves no route dangling |
| `Tick.RemoveArrivalsKeepsRoutesReferring` | src/App.js:213-222 | running the arrival callbacks leaves no route dangling |
| `Tick.TickKeepsRoutesReferring` | src/App.js:198-351 | after a tick every route still leads to an incident on the map |
| `Tick.TickKeepsStatusMatchesPhase` | src/App.js:201-351 | a tick keeps the fleet's size and keeps every ambulance's status in step with its phase |
| `Tick.TickKeepsDistinctAmbulanceIds` | src/App.js:201-351 | a tick leaves every ambulance's id where it was, so distinct ids stay distinct |
| `Tick.TickKeepsIdsIssued` | src/App.js:201-351 | after a tick every incident and route id is still a counter value already handed out |
| `Tick.TickAdvancesCounters` | src/App.js:201-351 | the counters never go back, and the route counter moves at least as far as the incident counter |
| `Tick.CapStopsNewIncidents` | src/App.js:298-300 | at or above the cap at the start of a tick, the tick creates no incident and the incident counter stays put |
| `Tick.NewIncidentsPerTick` | src/App.js:290-347 | one tick adds at most one incident per ambulance |
| `Tick.DeliveredIncidentsRemoved` | src/App.js:213-222 | after a tick no incident an ambulance delivered in that tick remains, and no route to it |
| `App.Simulation.constructor` | src/App.js:84-92 | the component mounts stopped, at speed 1, with no ambulances, incidents or routes and both counters at 1 |
| `App.Simulation.ToggleSimulation` | src/App.js:367-381 | starting builds the initial fleet from the settings, clears incidents and routes, and resets the counters; stopping changes nothing else; the flag flips; `Valid()`, with its distinct ambulance ids, is kept |
| `App.Simulation.ResetSimulation` | src/App.js:386-393 | stopped, no ambulances, incidents or routes, counters and speed back to 1 |
| `App.Simulation.SetSimulationSpeed` | src/App.js:460 | only the speed changes |
| `App.Simulation.OnArriveAtHospital` | src/App.js:213-222 | the new state is `RemoveDiscovery` of the old one, and `Valid()` is kept |
| `App.Simulation.DispatchOne` | src/App.js:248-287 | the new state is one `DispatchStep` of the old one |
| `App.Simulation.SpawnOne` | src/App.js:290-346 | the new state is one `SpawnStep` of the old one |
| `App.Simulation.DispatchWaiting` | src/App.js:248-287 | the loop over waiting incidents produces `DispatchAll` |
| `App.Simulation.SpawnIncidents` | src/App.js:290-346 | the loop over idle ambulances produces `SpawnAll` |
| `App.Simulation.RunArrivals` | src/App.js:213-222 | the queued callbacks, run in order, produce `RemoveArrivals` |
| `App.Simulation.Tick` | src/App.js:198-351 | one tick leaves the state `TickSpec` of the old one and keeps `Valid()` (distinct ambulance ids, status in step with phase, ids issued below their counters, every route leading to an incident on the map) |

## Left out

- Timers: `setInterval`, `setTimeout(…, 0)`, the interval being re-created whenever a dependency changes, and the tick period `1000 / simulationSpeed` are not modelled. One call of `Simulation.Tick` is one interval firing. The arrival callbacks run after the tick's other updates, as the zero-delay timeout makes them.
- React's update queue is modelled by its effect only. The functional updates of one tick are applied in order to one state. The `setNextId` updaters that themselves queue updates are assumed to run once, in order; a second updater call under strict mode is not modelled.
- Floating point: coordinates, distances and draws are exact reals, so rounding is not modelled.
- `Math.sqrt` is a parameter that must be the true non-negative square root. The dispatcher compares squared distances, and `Dispatcher.NearestFoldUnderRoots` proves this picks the same candidate.
- A random angle is modelled as the draw `(cos, sin)` of a point on the unit circle. The unused `patrolAngle` field of a new ambulance is left out.
- The clock and the formatted time are parameters. So are the random draws, which are each required to lie in `[0, 1)`.
- Fields the source leaves `null` or `undefined` and tests for truthiness are `Option`s. A stored `0` or `""` counts as unset, as it does in JavaScript.
- `peopleCount || 0` in `filterData` is not modelled, because every incident the model creates has an integer head count.
- An ambulance phase outside the four known ones (the final `return ambulance` of `moveAmbulanceAlongRoute`) cannot occur, because `Phase` is a closed datatype.
- One tick reads a single clock value `now` and a single formatted time. The source calls `Date.now()` again inside the movement updater (src/utils/simulationHelpers.js:162-201, 297) and `toLocaleString` once per incident it creates. Likewise `Factories.InitialFleet` gives every ambulance the same `now` as its idle start time, while `initializeAmbulances` calls `Date.now()` once per ambulance (src/utils/simulationHelpers.js:336, 355). The milliseconds between those reads are not modelled.
- `Tick.RemoveArrivals`: its contract states one direction of membership. The other direction is `Tick.RemoveArrivalsKeepsOthers`.
- `App.Simulation.SetSimulationSpeed`: requires a positive speed. The buttons offer only 1, 2 and 3 (`src/components/Sidebar.js`), and a zero speed would make the interval period infinite.
- `App.Simulation.constructor`: requires a non-empty hospital list. The hospital list of `src/data/mockData.js` is a fixed non-empty constant. The dispatcher dereferences `hospitals[0]` once an ambulance is idle, and independent ambulances index it.
- The settings modal, `localStorage` persistence, the language switcher, map markers, hover and focus handling, and the sidebar statistics are not part of this model.
- `filterData` on types other than `"discovery"` and `"ambulance"` returns its input. Only these two uses are modelled.
