/**
 * The entity factories of `src/utils/simulationHelpers.js`:
 * `generateRandomDiscovery`, `createRoute` and `initializeAmbulances`.
 *
 * Every `Math.random()` is a parameter in [0, 1), `Date.now()` is `now`,
 * and `new Date().toLocaleString('ja-JP')` is the string `time`.
 */
module Factories {
  import opened Wrappers
  import opened Geo
  import opened Ids
  import opened Constants
  import opened Colors
  import opened Entities

  predicate IsDraw(u: real)
  {
    0.0 <= u < 1.0
  }

  /** A draw scaled to a non-empty range `0 .. n`: `u * n`, which stays below `n`. */
  lemma ScaledDrawBelow(u: real, n: real)
    requires IsDraw(u) && n > 0.0
    ensures 0.0 <= u * n < n
  {
    calc {
      u * n;
    <
      1.0 * n;
    }
  }

  /** `Math.floor(Math.random() * n)`: an index in `0 .. n - 1`. */
  function DrawIndex(u: real, n: nat): (i: nat)
    requires IsDraw(u) && n > 0
    ensures i < n
  {
    ScaledDrawBelow(u, n as real);
    (u * n as real).Floor
  }

  /** `list[Math.floor(Math.random() * list.length)]`. */
  function Pick<T>(list: seq<T>, u: real): (x: T)
    requires IsDraw(u) && |list| > 0
    ensures x in list
  {
    list[DrawIndex(u, |list|)]
  }

  /** `lo + Math.random() * width`: a point of the half-open interval of that width. */
  function Interpolate(lo: real, width: real, u: real): (x: real)
    requires IsDraw(u) && width > 0.0
    ensures lo <= x < lo + width
  {
    ScaledDrawBelow(u, width);
    lo + u * width
  }

  /** `min + Math.random() * (max - min)`. */
  function Lerp(r: Range, u: real): (x: real)
    requires IsDraw(u) && r.min < r.max
    ensures r.min <= x < r.max
  {
    Interpolate(r.min, r.max - r.min, u)
  }

  predicate InBounds(p: Point, b: Bounds)
  {
    b.lat.min <= p.lat < b.lat.max && b.lng.min <= p.lng < b.lng.max
  }

  /** The draws `generateRandomDiscovery` makes, in the order it makes them. */
  datatype DiscoveryDraws = DiscoveryDraws(
    region: real, lat: real, lng: real, area: real, suffix: real, incidentType: real, people: real)

  predicate ValidDiscoveryDraws(d: DiscoveryDraws)
  {
    IsDraw(d.region) && IsDraw(d.lat) && IsDraw(d.lng) && IsDraw(d.area)
    && IsDraw(d.suffix) && IsDraw(d.incidentType) && IsDraw(d.people)
  }

  /** The region the first draw selects: Tokyo with probability 0.6, otherwise Hamamatsu. */
  function Region(d: DiscoveryDraws): (b: Bounds)
    ensures b == TokyoBounds <==> d.region < TokyoAreaProbability
  {
    if d.region < TokyoAreaProbability then TokyoBounds else HamamatsuBounds
  }

  /** `generateRandomDiscovery`: incident number `id`, placed and described by the draws. */
  function GenerateRandomDiscovery(id: nat, d: DiscoveryDraws, time: string): (r: Discovery)
    requires ValidDiscoveryDraws(d)
    ensures r.id == Tagged('d', id) && r.time == time
    ensures InBounds(r.Pos(), Region(d))
    ensures 0 <= r.peopleCount <= 14
    ensures r.incidentType in IncidentTypes
    ensures var areas := if d.region < TokyoAreaProbability then TokyoAreas else HamamatsuAreas;
      exists i, j :: 0 <= i < |areas| && 0 <= j < |LocationSuffixes| && r.name == areas[i] + LocationSuffixes[j]
  {
    var tokyo := d.region < TokyoAreaProbability;
    var bounds := if tokyo then TokyoBounds else HamamatsuBounds;
    var areas := if tokyo then TokyoAreas else HamamatsuAreas;
    var area := DrawIndex(d.area, |areas|);
    var suffix := DrawIndex(d.suffix, |LocationSuffixes|);
    Discovery(
      Tagged('d', id),
      areas[area] + LocationSuffixes[suffix],
      Lerp(bounds.lat, d.lat),
      Lerp(bounds.lng, d.lng),
      Pick(IncidentTypes, d.incidentType),
      time,
      DrawIndex(d.people, 15))
  }

  /** `createRoute`: route number `routeId` for one dispatch, with a drawn priority and its colour. */
  function CreateRoute(discoveryId: string, ambulanceId: string, hospitalId: string, routeId: nat, draw: real)
    : (r: Route)
    requires IsDraw(draw)
    ensures r.id == Tagged('r', routeId)
    ensures r.discoveryPointId == discoveryId && r.ambulanceId == ambulanceId && r.hospitalId == hospitalId
    ensures r.priority in RoutePriorities
    ensures r.priority in PriorityColors && r.color == PriorityColors[r.priority]
  {
    var priority := Pick(RoutePriorities, draw);
    EveryPriorityHasColor(priority);
    Route(Tagged('r', routeId), discoveryId, ambulanceId, hospitalId, priority, PriorityColors[priority])
  }

  /** Ambulance number `n`, idle and parked at hospital `h`, which becomes its home. */
  function NewAmbulance(n: nat, h: Hospital, now: int): Ambulance
  {
    Ambulance(Tagged('a', n), h.lat, h.lng, h.id, h.lat, h.lng, Status.Idle, Phase.Idle, now,
              None, None, None, None, None)
  }

  /** `count` ambulances numbered from `first`, all at home at `h`. */
  function Crew(h: Hospital, count: nat, first: nat, now: int): (c: seq<Ambulance>)
    ensures |c| == count
    ensures forall i :: 0 <= i < count ==> c[i] == NewAmbulance(first + i, h, now)
  {
    seq(count, i requires 0 <= i < count => NewAmbulance(first + i, h, now))
  }

  /** The crews of the listed hospitals, `per` each, in hospital order and numbered from 1. */
  function HomeFleet(hospitals: seq<Hospital>, per: nat, now: int): seq<Ambulance>
    decreases |hospitals|
  {
    if hospitals == [] then []
    else
      var prefix := HomeFleet(hospitals[..|hospitals| - 1], per, now);
      prefix + Crew(hospitals[|hospitals| - 1], per, |prefix| + 1, now)
  }

  /** The independent ambulances, each at a home picked by its own draw, numbered from `first`. */
  function Independents(hospitals: seq<Hospital>, count: nat, first: nat, now: int, draws: seq<real>)
    : (c: seq<Ambulance>)
    requires count == 0 || |hospitals| > 0
    requires count <= |draws| && forall i :: 0 <= i < |draws| ==> IsDraw(draws[i])
    ensures |c| == count
    ensures forall i :: 0 <= i < count ==> c[i] == NewAmbulance(first + i, Pick(hospitals, draws[i]), now)
  {
    seq(count, i requires 0 <= i < count => NewAmbulance(first + i, Pick(hospitals, draws[i]), now))
  }

  /** A loop bound as `for (i = 0; i < n; i++)` sees it: negative counts run no iteration. */
  function Iterations(n: int): nat
  {
    if n < 0 then 0 else n
  }

  /** The fleet `initializeAmbulances` builds. */
  function InitialFleet(hospitals: seq<Hospital>, perHospital: int, independent: int, now: int, draws: seq<real>)
    : seq<Ambulance>
    requires independent <= 0 || |hospitals| > 0
    requires Iterations(independent) <= |draws| && forall i :: 0 <= i < |draws| ==> IsDraw(draws[i])
  {
    var home := HomeFleet(hospitals, Iterations(perHospital), now);
    home + Independents(hospitals, Iterations(independent), |home| + 1, now, draws)
  }

  /**
   * `initializeAmbulances`: `perHospital` ambulances per hospital, then
   * `independent` more at randomly drawn hospitals, numbered `a1`, `a2`, …
   * An independent ambulance reads the drawn hospital's fields, which throws
   * on an empty hospital list.
   */
  method InitializeAmbulances(hospitals: seq<Hospital>, perHospital: int, independent: int, now: int, draws: seq<real>)
    returns (ambulances: seq<Ambulance>)
    requires independent <= 0 || |hospitals| > 0
    requires Iterations(independent) <= |draws| && forall i :: 0 <= i < |draws| ==> IsDraw(draws[i])
    ensures ambulances == InitialFleet(hospitals, perHospital, independent, now, draws)
  {
    ambulances := [];
    var idCounter: nat := 1;
    var per := Iterations(perHospital);
    for k := 0 to |hospitals|
      invariant ambulances == HomeFleet(hospitals[..k], per, now)
      invariant idCounter == |ambulances| + 1
    {
      ambulances, idCounter := AddCrew(ambulances, hospitals[k], perHospital, now);
      HomeFleetGrows(hospitals, k, per, now);
    }
    assert hospitals[..|hospitals|] == hospitals;
    ghost var home := ambulances;
    var j := 0;
    while j < independent
      invariant 0 <= j <= Iterations(independent)
      invariant ambulances == home + Independents(hospitals, j, |home| + 1, now, draws)
      invariant idCounter == |ambulances| + 1
    {
      IndependentsGrow(hospitals, j, |home| + 1, now, draws);
      var randomHospital := hospitals[DrawIndex(draws[j], |hospitals|)];
      ambulances := ambulances + [NewAmbulance(idCounter, randomHospital, now)];
      idCounter := idCounter + 1;
      j := j + 1;
    }
  }

  /** The inner loop of `initializeAmbulances`: `count` more ambulances homed at `hospital`. */
  method AddCrew(fleet: seq<Ambulance>, hospital: Hospital, count: int, now: int)
    returns (ambulances: seq<Ambulance>, idCounter: nat)
    ensures ambulances == fleet + Crew(hospital, Iterations(count), |fleet| + 1, now)
    ensures idCounter == |ambulances| + 1
  {
    ambulances, idCounter := fleet, |fleet| + 1;
    var i := 0;
    while i < count
      invariant 0 <= i <= Iterations(count)
      invariant ambulances == fleet + Crew(hospital, i, |fleet| + 1, now)
      invariant idCounter == |ambulances| + 1
    {
      CrewGrows(hospital, i, |fleet| + 1, now);
      ambulances := ambulances + [NewAmbulance(idCounter, hospital, now)];
      idCounter := idCounter + 1;
      i := i + 1;
    }
  }

  lemma CrewGrows(h: Hospital, count: nat, first: nat, now: int)
    ensures Crew(h, count + 1, first, now) == Crew(h, count, first, now) + [NewAmbulance(first + count, h, now)]
  {
  }

  lemma HomeFleetGrows(hospitals: seq<Hospital>, k: nat, per: nat, now: int)
    requires k < |hospitals|
    ensures HomeFleet(hospitals[..k + 1], per, now)
            == HomeFleet(hospitals[..k], per, now) + Crew(hospitals[k], per, |HomeFleet(hospitals[..k], per, now)| + 1, now)
  {
    assert hospitals[..k + 1][..k] == hospitals[..k];
  }

  lemma IndependentsGrow(hospitals: seq<Hospital>, count: nat, first: nat, now: int, draws: seq<real>)
    requires |hospitals| > 0
    requires count < |draws| && forall i :: 0 <= i < |draws| ==> IsDraw(draws[i])
    ensures Independents(hospitals, count + 1, first, now, draws)
            == Independents(hospitals, count, first, now, draws)
               + [NewAmbulance(first + count, hospitals[DrawIndex(draws[count], |hospitals|)], now)]
  {
  }

  /** The home crews number `per` for each hospital. */
  lemma {:induction false} HomeFleetSize(hospitals: seq<Hospital>, per: nat, now: int)
    ensures |HomeFleet(hospitals, per, now)| == |hospitals| * per
    decreases |hospitals|
  {
    if hospitals != [] {
      var n := |hospitals|;
      HomeFleetSize(hospitals[..n - 1], per, now);
      calc {
        |HomeFleet(hospitals, per, now)|;
      ==
        (n - 1) * per + per;
      ==
        n * per;
      }
    }
  }

  /** Crew member `i` of the home fleet belongs to hospital `i / per`, numbered `a(i+1)`. */
  lemma {:induction false} HomeFleetShape(hospitals: seq<Hospital>, per: nat, now: int, i: int)
    requires 0 <= i < |HomeFleet(hospitals, per, now)|
    ensures per > 0 && i / per < |hospitals|
    ensures HomeFleet(hospitals, per, now)[i] == NewAmbulance(i + 1, hospitals[i / per], now)
    decreases |hospitals|
  {
    var n := |hospitals|;
    var prefix := HomeFleet(hospitals[..n - 1], per, now);
    HomeFleetSize(hospitals[..n - 1], per, now);
    if i < |prefix| {
      HomeFleetShape(hospitals[..n - 1], per, now, i);
      assert hospitals[..n - 1][i / per] == hospitals[i / per];
    } else {
      HomeFleetSize(hospitals, per, now);
      assert per > 0;
      DivBetween(i, n - 1, per);
      assert HomeFleet(hospitals, per, now)[i] == NewAmbulance(i + 1, hospitals[n - 1], now);
    }
  }

  /** An index in the `q`-th block of `per` lies in block `i / per == q`. */
  lemma DivBetween(i: int, q: int, per: int)
    requires per > 0 && q * per <= i < q * per + per
    ensures i / per == q
  {
    var d, m := i / per - q, i % per;
    assert per * d == (i - q * per) - m by {
      assert i == per * (i / per) + m;
      assert per * d == per * (i / per) - per * q;
    }
    if d > 0 {
      BlockAtLeast(per, d);
    } else if d < 0 {
      BlockAtLeast(per, -d);
    }
  }

  /** A positive number of blocks of `per` spans at least `per`. */
  lemma BlockAtLeast(per: int, d: int)
    requires per > 0 && d >= 1
    ensures per * d >= per
    decreases d
  {
    if d > 1 {
      BlockAtLeast(per, d - 1);
      assert per * d == per * (d - 1) + per;
    }
  }

  /**
   * The whole initial fleet: |hospitals| × perHospital + independent
   * ambulances, the i-th named `a(i+1)`, each idle in status and phase,
   * parked on its home hospital, which is one of the given hospitals.
   */
  lemma InitialFleetShape(hospitals: seq<Hospital>, perHospital: int, independent: int, now: int, draws: seq<real>)
    requires independent <= 0 || |hospitals| > 0
    requires Iterations(independent) <= |draws| && forall i :: 0 <= i < |draws| ==> IsDraw(draws[i])
    ensures var fleet := InitialFleet(hospitals, perHospital, independent, now, draws);
      |fleet| == |hospitals| * Iterations(perHospital) + Iterations(independent)
      && forall i :: 0 <= i < |fleet| ==>
           fleet[i].id == Tagged('a', i + 1)
           && fleet[i].status == Status.Idle && fleet[i].phase == Phase.Idle
           && fleet[i].Pos() == fleet[i].Home() && fleet[i].idleStartTime == now
           && exists k :: 0 <= k < |hospitals| && fleet[i].homeHospitalId == hospitals[k].id
                          && fleet[i].Home() == hospitals[k].Pos()
  {
    var per := Iterations(perHospital);
    var home := HomeFleet(hospitals, per, now);
    var fleet := InitialFleet(hospitals, perHospital, independent, now, draws);
    HomeFleetSize(hospitals, per, now);
    forall i | 0 <= i < |fleet|
      ensures exists k :: 0 <= k < |hospitals| && fleet[i] == NewAmbulance(i + 1, hospitals[k], now)
    {
      if i < |home| {
        HomeFleetShape(hospitals, per, now, i);
        assert fleet[i] == NewAmbulance(i + 1, hospitals[i / per], now);
      } else {
        var j := i - |home|;
        var k := DrawIndex(draws[j], |hospitals|);
        assert fleet[i] == NewAmbulance(i + 1, hospitals[k], now);
      }
    }
  }

  /** No two ambulances of the initial fleet share an id. */
  lemma InitialFleetDistinctIds(hospitals: seq<Hospital>, perHospital: int, independent: int, now: int,
                                draws: seq<real>, i: int, j: int)
    requires independent <= 0 || |hospitals| > 0
    requires Iterations(independent) <= |draws| && forall i :: 0 <= i < |draws| ==> IsDraw(draws[i])
    requires 0 <= i < j < |InitialFleet(hospitals, perHospital, independent, now, draws)|
    ensures InitialFleet(hospitals, perHospital, independent, now, draws)[i].id
            != InitialFleet(hospitals, perHospital, independent, now, draws)[j].id
  {
    InitialFleetShape(hospitals, perHospital, independent, now, draws);
    if Tagged('a', i + 1) == Tagged('a', j + 1) {
      TaggedInjective('a', i + 1, j + 1);
    }
  }
}
