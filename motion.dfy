/**
 * The per-ambulance phase machine of `src/utils/simulationHelpers.js`:
 * `moveAmbulanceAlongRoute`, `moveToTarget` and `updateIdlePatrol`.
 *
 *   idle --(dispatch)--> to_discovery --(arrive)--> at_discovery
 *        --(3 s dwell)--> to_hospital --(arrive)--> idle
 *
 * `Date.now()` is the parameter `now`, the two `Math.random()` draws of a
 * new patrol target are a `PatrolDraw`, and `Math.sqrt` is `sqrt`.
 */
module Motion {
  import opened Wrappers
  import opened Geo
  import opened Entities

  /** Milliseconds an ambulance stays at an incident before leaving for hospital. */
  const TimeAtDiscovery: int := 3000
  /** Degrees around the home hospital within which patrol targets are drawn. */
  const PatrolRadius: real := 0.015

  /** Degrees travelled per tick on a call. */
  function MoveSpeed(speed: real): real
  {
    0.0005 * speed
  }

  /** Degrees travelled per tick on patrol. */
  function PatrolMoveDistance(speed: real): real
  {
    0.0003 * speed
  }

  /**
   * The draws behind a new patrol target: `cos` and `sin` of the angle
   * `Math.random() * 2π`, and the `Math.random()` that scales the radius.
   */
  datatype PatrolDraw = PatrolDraw(cos: real, sin: real, radius: real)

  predicate ValidPatrolDraw(d: PatrolDraw)
  {
    d.cos * d.cos + d.sin * d.sin == 1.0 && 0.0 <= d.radius < 1.0
  }

  /** A patrol target: `home + (cos, sin) * (radius * patrolRadius)`. */
  function NewPatrolTarget(a: Ambulance, d: PatrolDraw): Point
  {
    var dist := d.radius * PatrolRadius;
    Point(a.homeHospitalLat + d.cos * dist, a.homeHospitalLng + d.sin * dist)
  }

  /** Every patrol target lies strictly within `patrolRadius` of the home hospital. */
  lemma PatrolTargetNearHome(a: Ambulance, d: PatrolDraw)
    requires ValidPatrolDraw(d)
    ensures SqDistance(NewPatrolTarget(a, d), a.Home()) < PatrolRadius * PatrolRadius
  {
    var t, r, k := NewPatrolTarget(a, d), d.radius * PatrolRadius, PatrolRadius * PatrolRadius;
    var u := d.radius;
    ScaledSquareBelow(u, k);
    assert (u * u) * k < k;
    assert t.lat - a.homeHospitalLat == d.cos * r;
    assert t.lng - a.homeHospitalLng == d.sin * r;
    calc {
      SqDistance(t, a.Home());
    ==
      (d.cos * r) * (d.cos * r) + (d.sin * r) * (d.sin * r);
    ==
      (d.cos * d.cos + d.sin * d.sin) * (r * r);
    ==
      r * r;
    ==
      (u * u) * k;
    <
      k;
    }
  }

  lemma ScaleBelow(x: real, k: real)
    requires x < 1.0 && k > 0.0
    ensures x * k < k
  {
  }

  lemma SquareBelowOne(u: real)
    requires 0.0 <= u < 1.0
    ensures u * u < 1.0
  {
    calc {
      u * u;
    <=
      u * 1.0;
    <
      1.0;
    }
  }

  lemma ScaledSquareBelow(u: real, k: real)
    requires 0.0 <= u < 1.0 && k > 0.0
    ensures (u * u) * k < k
  {
    var x := u * u;
    SquareBelowOne(u);
    ScaleBelow(x, k);
  }

  /** The state every path back to `idle` leaves behind. */
  function ReturnToIdle(a: Ambulance, now: int): Ambulance
  {
    a.(status := Status.Idle, phase := Phase.Idle,
       targetDiscoveryId := None, targetHospitalId := None,
       idleStartTime := now, patrolTargetLat := None, patrolTargetLng := None)
  }

  /** Idle in status and phase, with no targets, no patrol target, and the idle clock restarted at `now`. */
  predicate ReturnedToIdle(r: Ambulance, now: int)
  {
    r.status == Status.Idle && r.phase == Phase.Idle
    && r.targetDiscoveryId == None && r.targetHospitalId == None
    && r.idleStartTime == now && r.patrolTargetLat == None && r.patrolTargetLng == None
  }

  /** Only the mutable trip fields differ: identity and home are fixed for an ambulance's lifetime. */
  predicate SameVehicle(a: Ambulance, r: Ambulance)
  {
    r.id == a.id && r.homeHospitalId == a.homeHospitalId
    && r.homeHospitalLat == a.homeHospitalLat && r.homeHospitalLng == a.homeHospitalLng
  }

  /**
   * `moveToTarget`: snap onto the target and enter `nextPhase` when it is
   * nearer than one step, otherwise advance one step towards it.
   */
  function MoveToTarget(a: Ambulance, target: Point, step: real, nextPhase: Phase, now: int, sqrt: real -> real)
    : (r: Ambulance)
    requires step > 0.0
    requires SqrtAt(sqrt, SqDistance(target, a.Pos()))
    ensures SameVehicle(a, r)
    ensures var d := sqrt(SqDistance(target, a.Pos()));
      if d < step then
        r.Pos() == target && r.phase == nextPhase
        && (nextPhase == Phase.Idle ==> ReturnedToIdle(r, now) && r.discoveryArrivalTime == a.discoveryArrivalTime)
        && (nextPhase != Phase.Idle ==> r == a.(lat := target.lat, lng := target.lng, phase := nextPhase))
      else
        r == a.(lat := r.lat, lng := r.lng)
        && SqDistance(target, r.Pos()) == (d - step) * (d - step)
        && SqDistance(r.Pos(), a.Pos()) == step * step
  {
    var distance := sqrt(SqDistance(target, a.Pos()));
    if distance < step then
      var update := a.(lat := target.lat, lng := target.lng, phase := nextPhase);
      if nextPhase == Phase.Idle then ReturnToIdle(update, now) else update
    else
      var p := Advance(a.Pos(), target, distance, step);
      a.(lat := p.lat, lng := p.lng)
  }

  /**
   * `updateIdlePatrol`: draw a patrol target when none is set or the current
   * one is within two patrol steps, otherwise take one patrol step towards it.
   */
  function UpdateIdlePatrol(a: Ambulance, speed: real, draw: PatrolDraw, sqrt: real -> real): (r: Ambulance)
    requires speed > 0.0
    requires PatrolTarget(a).Some? ==> SqrtAt(sqrt, SqDistance(PatrolTarget(a).value, a.Pos()))
    ensures var move := PatrolMoveDistance(speed);
      if PatrolTarget(a).None? || sqrt(SqDistance(PatrolTarget(a).value, a.Pos())) < 2.0 * move then
        r == a.(patrolTargetLat := Some(NewPatrolTarget(a, draw).lat),
                patrolTargetLng := Some(NewPatrolTarget(a, draw).lng))
      else
        var t, d := PatrolTarget(a).value, sqrt(SqDistance(PatrolTarget(a).value, a.Pos()));
        r == a.(lat := r.lat, lng := r.lng) && SqDistance(t, r.Pos()) == (d - move) * (d - move)
        && SqDistance(r.Pos(), a.Pos()) == move * move
  {
    var move := PatrolMoveDistance(speed);
    match PatrolTarget(a)
    case None =>
      var t := NewPatrolTarget(a, draw);
      a.(patrolTargetLat := Some(t.lat), patrolTargetLng := Some(t.lng))
    case Some(target) =>
      var distance := sqrt(SqDistance(target, a.Pos()));
      if distance < move * 2.0 then
        var t := NewPatrolTarget(a, draw);
        a.(lat := a.lat, lng := a.lng, patrolTargetLat := Some(t.lat), patrolTargetLng := Some(t.lng))
      else
        var p := Advance(a.Pos(), target, distance, move);
        a.(lat := p.lat, lng := p.lng)
  }

  /** Whether an ambulance reached its hospital this tick, and with which pre-step discovery id. */
  datatype Arrival = NoArrival | ArrivedAtHospital(discoveryId: Option<string>)

  /** One tick of one ambulance: its new record and the arrival callback, if it fired. */
  datatype Step = Step(ambulance: Ambulance, arrival: Arrival)

  /** The square roots one tick of `a` takes, present wherever it takes them. */
  predicate RootsFor(a: Ambulance, discovery: Option<Discovery>, hospital: Option<Hospital>, sqrt: real -> real)
  {
    (a.phase == Phase.Idle && PatrolTarget(a).Some? ==> SqrtAt(sqrt, SqDistance(PatrolTarget(a).value, a.Pos())))
    && (a.phase == Phase.ToDiscovery && discovery.Some? ==> SqrtAt(sqrt, SqDistance(discovery.value.Pos(), a.Pos())))
    && (a.phase == Phase.ToHospital && hospital.Some? ==> SqrtAt(sqrt, SqDistance(hospital.value.Pos(), a.Pos())))
  }

  /** The transitions of the phase machine, including staying put. */
  predicate PhaseStepAllowed(from: Phase, to: Phase)
  {
    match from
    case Idle => to == Phase.Idle
    case ToDiscovery => to in {Phase.ToDiscovery, Phase.AtDiscovery, Phase.Idle}
    case AtDiscovery => to in {Phase.AtDiscovery, Phase.ToHospital}
    case ToHospital => to in {Phase.ToHospital, Phase.Idle}
  }

  /**
   * `moveAmbulanceAlongRoute`. `discovery` and `hospital` are the records
   * the ambulance's target ids resolve to, or `None` when they are gone.
   */
  function MoveAmbulanceAlongRoute(
    a: Ambulance, discovery: Option<Discovery>, hospital: Option<Hospital>,
    speed: real, now: int, draw: PatrolDraw, sqrt: real -> real): (s: Step)
    requires speed > 0.0
    requires RootsFor(a, discovery, hospital, sqrt)
    ensures SameVehicle(a, s.ambulance)
    ensures PhaseStepAllowed(a.phase, s.ambulance.phase)
    ensures StatusMatchesPhase(a) ==> StatusMatchesPhase(s.ambulance)
    ensures a.phase != Phase.Idle && s.ambulance.phase == Phase.Idle ==> ReturnedToIdle(s.ambulance, now)
    ensures s.arrival.ArrivedAtHospital? <==>
              a.phase == Phase.ToHospital && hospital.Some? && s.ambulance.phase == Phase.Idle
    ensures s.arrival.ArrivedAtHospital? ==> s.arrival.discoveryId == a.targetDiscoveryId
    ensures a.phase == Phase.ToDiscovery && discovery.Some? ==>
              s.ambulance == MoveToTarget(a, discovery.value.Pos(), MoveSpeed(speed), Phase.AtDiscovery, now, sqrt)
    ensures a.phase == Phase.ToHospital && hospital.Some? ==>
              s.ambulance == MoveToTarget(a, hospital.value.Pos(), MoveSpeed(speed), Phase.Idle, now, sqrt)
    ensures a.phase == Phase.Idle ==> s.ambulance == UpdateIdlePatrol(a, speed, draw, sqrt)
    ensures (a.phase == Phase.ToDiscovery && discovery.None?) || (a.phase == Phase.ToHospital && hospital.None?) ==>
              s.ambulance == ReturnToIdle(a, now)
    ensures a.phase == Phase.AtDiscovery && !IsSetTime(a.discoveryArrivalTime) ==>
              s.ambulance == a.(discoveryArrivalTime := Some(now))
    ensures a.phase == Phase.AtDiscovery && IsSetTime(a.discoveryArrivalTime) ==>
              s.ambulance == (if now - a.discoveryArrivalTime.value >= TimeAtDiscovery
                              then a.(phase := Phase.ToHospital, discoveryArrivalTime := None)
                              else a)
  {
    match a.phase
    case Idle =>
      Step(UpdateIdlePatrol(a, speed, draw, sqrt), NoArrival)
    case ToDiscovery =>
      if discovery.None? then Step(ReturnToIdle(a, now), NoArrival)
      else Step(MoveToTarget(a, discovery.value.Pos(), MoveSpeed(speed), Phase.AtDiscovery, now, sqrt), NoArrival)
    case AtDiscovery =>
      if !IsSetTime(a.discoveryArrivalTime) then
        Step(a.(discoveryArrivalTime := Some(now)), NoArrival)
      else if now - a.discoveryArrivalTime.value >= TimeAtDiscovery then
        Step(a.(phase := Phase.ToHospital, discoveryArrivalTime := None), NoArrival)
      else
        Step(a, NoArrival)
    case ToHospital =>
      if hospital.None? then Step(ReturnToIdle(a, now), NoArrival)
      else
        var r := MoveToTarget(a, hospital.value.Pos(), MoveSpeed(speed), Phase.Idle, now, sqrt);
        Step(r, if r.phase == Phase.Idle then ArrivedAtHospital(a.targetDiscoveryId) else NoArrival)
  }

  /**
   * An ambulance on a call whose target still exists either reaches it this
   * tick, entering the next phase on the spot, or ends strictly nearer to it.
   */
  lemma OnCallApproaches(a: Ambulance, discovery: Option<Discovery>, hospital: Option<Hospital>,
                         speed: real, now: int, draw: PatrolDraw, sqrt: real -> real)
    requires speed > 0.0 && RootsFor(a, discovery, hospital, sqrt)
    requires (a.phase == Phase.ToDiscovery && discovery.Some?) || (a.phase == Phase.ToHospital && hospital.Some?)
    ensures var s := MoveAmbulanceAlongRoute(a, discovery, hospital, speed, now, draw, sqrt);
      var target := if a.phase == Phase.ToDiscovery then discovery.value.Pos() else hospital.value.Pos();
      var next := if a.phase == Phase.ToDiscovery then Phase.AtDiscovery else Phase.Idle;
      (s.ambulance.Pos() == target && s.ambulance.phase == next)
      || (s.ambulance.phase == a.phase && SqDistance(target, s.ambulance.Pos()) < SqDistance(target, a.Pos()))
  {
    if a.phase == Phase.ToDiscovery {
      MoveToTargetApproaches(a, discovery.value.Pos(), MoveSpeed(speed), Phase.AtDiscovery, now, sqrt);
    } else {
      MoveToTargetApproaches(a, hospital.value.Pos(), MoveSpeed(speed), Phase.Idle, now, sqrt);
    }
  }

  /** `moveToTarget` either arrives, entering `nextPhase`, or ends strictly nearer the target in its old phase. */
  lemma MoveToTargetApproaches(a: Ambulance, target: Point, step: real, nextPhase: Phase, now: int, sqrt: real -> real)
    requires step > 0.0 && SqrtAt(sqrt, SqDistance(target, a.Pos()))
    ensures var r := MoveToTarget(a, target, step, nextPhase, now, sqrt);
      (r.Pos() == target && r.phase == nextPhase)
      || (r.phase == a.phase && SqDistance(target, r.Pos()) < SqDistance(target, a.Pos()))
  {
    var r := MoveToTarget(a, target, step, nextPhase, now, sqrt);
    var d := sqrt(SqDistance(target, a.Pos()));
    if d >= step {
      assert r == a.(lat := r.lat, lng := r.lng);
      calc {
        SqDistance(target, r.Pos());
      ==
        (d - step) * (d - step);
      <  { SquareShrinks(d, step); }
        d * d;
      ==
        SqDistance(target, a.Pos());
      }
    }
  }

  /** Shortening a non-negative length by a positive amount, no further than zero, shrinks its square. */
  lemma SquareShrinks(d: real, step: real)
    requires 0.0 < step <= d
    ensures (d - step) * (d - step) < d * d
  {
    var e := d - step;
    calc {
      e * e;
    <=  { MulLeft(e, e, d); }
      e * d;
    <   { MulLeftStrict(d, e, d); }
      d * d;
    }
  }

  /** Idle patrol never changes status or phase and never reports an arrival. */
  lemma PatrolKeepsIdle(a: Ambulance, discovery: Option<Discovery>, hospital: Option<Hospital>,
                        speed: real, now: int, draw: PatrolDraw, sqrt: real -> real)
    requires speed > 0.0 && RootsFor(a, discovery, hospital, sqrt)
    requires a.phase == Phase.Idle
    ensures var s := MoveAmbulanceAlongRoute(a, discovery, hospital, speed, now, draw, sqrt);
      s.ambulance.status == a.status && s.ambulance.phase == Phase.Idle && s.arrival == NoArrival
      && s.ambulance.targetDiscoveryId == a.targetDiscoveryId && s.ambulance.targetHospitalId == a.targetHospitalId
  {
  }

  /**
   * At an incident the first tick only records the arrival time, the
   * ambulance never moves, and it leaves for hospital, forgetting the
   * arrival time, exactly when 3000 ms have passed since that time.
   */
  lemma DwellAtDiscovery(a: Ambulance, discovery: Option<Discovery>, hospital: Option<Hospital>,
                         speed: real, now: int, draw: PatrolDraw, sqrt: real -> real)
    requires speed > 0.0 && RootsFor(a, discovery, hospital, sqrt)
    requires a.phase == Phase.AtDiscovery
    ensures var s := MoveAmbulanceAlongRoute(a, discovery, hospital, speed, now, draw, sqrt);
      s.ambulance.Pos() == a.Pos() && s.ambulance.status == a.status && s.arrival == NoArrival
      && (!IsSetTime(a.discoveryArrivalTime) ==> s.ambulance == a.(discoveryArrivalTime := Some(now)))
      && (IsSetTime(a.discoveryArrivalTime) ==>
            (s.ambulance.phase == Phase.ToHospital <==> now - a.discoveryArrivalTime.value >= TimeAtDiscovery))
      && (s.ambulance.phase == Phase.ToHospital ==> s.ambulance.discoveryArrivalTime == None)
  {
  }

  /** The dwell at an incident is measured in wall-clock time: the simulation speed plays no part. */
  lemma DwellIgnoresSpeed(a: Ambulance, discovery: Option<Discovery>, hospital: Option<Hospital>,
                          speed1: real, speed2: real, now: int, draw: PatrolDraw, sqrt: real -> real)
    requires speed1 > 0.0 && speed2 > 0.0 && RootsFor(a, discovery, hospital, sqrt)
    requires a.phase == Phase.AtDiscovery
    ensures MoveAmbulanceAlongRoute(a, discovery, hospital, speed1, now, draw, sqrt)
            == MoveAmbulanceAlongRoute(a, discovery, hospital, speed2, now, draw, sqrt)
  {
  }

  /** A missing discovery or hospital sends an ambulance on a call straight back to idle, in place. */
  lemma MissingTargetResets(a: Ambulance, discovery: Option<Discovery>, hospital: Option<Hospital>,
                            speed: real, now: int, draw: PatrolDraw, sqrt: real -> real)
    requires speed > 0.0 && RootsFor(a, discovery, hospital, sqrt)
    requires (a.phase == Phase.ToDiscovery && discovery.None?) || (a.phase == Phase.ToHospital && hospital.None?)
    ensures var s := MoveAmbulanceAlongRoute(a, discovery, hospital, speed, now, draw, sqrt);
      ReturnedToIdle(s.ambulance, now) && s.ambulance.Pos() == a.Pos() && s.arrival == NoArrival
  {
  }
}
