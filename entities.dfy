/**
 * The records the simulation passes around: hospitals, ambulances,
 * discovery points (incidents) and routes.
 *
 * The source leaves fields `null` or `undefined` and tests them for
 * truthiness; those fields are `Option`s here, and the predicates below
 * say when such a field counts as set.
 */
module Entities {
  import opened Wrappers
  import opened Geo
  import opened Seqs

  /** `status`: `'idle'` or `'en_route'`. */
  datatype Status = Idle | EnRoute

  /** `phase`: `'idle'`, `'to_discovery'`, `'at_discovery'` or `'to_hospital'`. */
  datatype Phase = Idle | ToDiscovery | AtDiscovery | ToHospital

  datatype Hospital = Hospital(id: string, name: string, lat: real, lng: real)
  {
    function Pos(): Point { Point(lat, lng) }
  }

  datatype Ambulance = Ambulance(
    id: string,
    lat: real,
    lng: real,
    homeHospitalId: string,
    homeHospitalLat: real,
    homeHospitalLng: real,
    status: Status,
    phase: Phase,
    idleStartTime: int,
    patrolTargetLat: Option<real>,
    patrolTargetLng: Option<real>,
    targetDiscoveryId: Option<string>,
    targetHospitalId: Option<string>,
    discoveryArrivalTime: Option<int>)
  {
    function Pos(): Point { Point(lat, lng) }
    function Home(): Point { Point(homeHospitalLat, homeHospitalLng) }
  }

  /** A discovery point: an incident waiting for, or being served by, an ambulance. */
  datatype Discovery = Discovery(
    id: string,
    name: string,
    lat: real,
    lng: real,
    incidentType: string,
    time: string,
    peopleCount: int)
  {
    function Pos(): Point { Point(lat, lng) }
  }

  datatype Route = Route(
    id: string,
    discoveryPointId: string,
    ambulanceId: string,
    hospitalId: string,
    priority: string,
    color: string)

  /** A numeric field that JavaScript's `!x` treats as present: set and non-zero. */
  predicate IsSetCoord(x: Option<real>)
  {
    x.Some? && x.value != 0.0
  }

  predicate IsSetTime(t: Option<int>)
  {
    t.Some? && t.value != 0
  }

  /** A target id that JavaScript treats as present: set and non-empty. */
  predicate IsSetId(x: Option<string>)
  {
    x.Some? && x.value != ""
  }

  /** The patrol target, when both of its coordinates count as set. */
  function PatrolTarget(a: Ambulance): Option<Point>
  {
    if IsSetCoord(a.patrolTargetLat) && IsSetCoord(a.patrolTargetLng)
    then Some(Point(a.patrolTargetLat.value, a.patrolTargetLng.value))
    else None
  }

  /** An ambulance is idle exactly when it is in the idle phase. */
  predicate StatusMatchesPhase(a: Ambulance)
  {
    a.status == Status.Idle <==> a.phase == Phase.Idle
  }

  predicate AllStatusMatchesPhase(ambulances: seq<Ambulance>)
  {
    forall i :: 0 <= i < |ambulances| ==> StatusMatchesPhase(ambulances[i])
  }

  /** No two ambulances share an id, so an `a.id === id` test singles out one of them. */
  predicate DistinctAmbulanceIds(ambulances: seq<Ambulance>)
  {
    forall i, j :: 0 <= i < j < |ambulances| ==> ambulances[i].id != ambulances[j].id
  }

  /** Two fleets hold the same ambulance ids, position by position. */
  predicate SameIds(a: seq<Ambulance>, b: seq<Ambulance>)
  {
    |a| == |b| && forall i :: 0 <= i < |a| ==> a[i].id == b[i].id
  }

  /** `ambulances.find((a) => a.id === id)`. */
  function AmbulanceById(ambulances: seq<Ambulance>, id: string): Option<Ambulance>
  {
    Find(ambulances, (a: Ambulance) => a.id == id)
  }

  /** `hospitals.find((h) => h.id === id)`; an unset id matches no hospital. */
  function HospitalById(hospitals: seq<Hospital>, id: Option<string>): Option<Hospital>
  {
    Find(hospitals, (h: Hospital) => id == Some(h.id))
  }

  /** `discoveries.find((d) => d.id === id)`; an unset id matches no discovery. */
  function DiscoveryById(discoveries: seq<Discovery>, id: Option<string>): Option<Discovery>
  {
    Find(discoveries, (d: Discovery) => id == Some(d.id))
  }
}
