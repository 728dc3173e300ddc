/**
 * The greedy dispatcher `generateAmbulanceForDiscovery`: the nearest idle
 * ambulance goes to an incident, and the patient is taken to the hospital
 * nearest the incident (`src/utils/simulationHelpers.js`).
 *
 * Both choices are a `reduce` seeded with an infinite distance that
 * replaces the best entry only on a strictly smaller distance, so the first
 * of several equally near candidates wins. The model compares squared
 * distances; `NearestFoldUnderRoots` shows that comparing the distances
 * themselves, as the source does, picks the same candidate.
 */
module Dispatcher {
  import opened Wrappers
  import opened Geo
  import opened Entities

  /** The accumulator of the `reduce`: still the infinite seed, or the best candidate so far. */
  datatype Best = Infinite | Found(index: nat, dist: real)

  /**
   * Position `k` is eligible, its key is at most every eligible key, and
   * every eligible position before it has a strictly larger key.
   */
  predicate IsFirstMin(keys: seq<real>, eligible: seq<bool>, k: int)
  {
    |eligible| == |keys| && 0 <= k < |keys| && eligible[k]
    && (forall j :: 0 <= j < |keys| && eligible[j] ==> keys[k] <= keys[j])
    && (forall j :: 0 <= j < k && eligible[j] ==> keys[k] < keys[j])
  }

  /**
   * The strict-`<` `reduce` from an infinite seed over the eligible
   * positions, in order.
   */
  function NearestFold(keys: seq<real>, eligible: seq<bool>): (b: Best)
    requires |eligible| == |keys|
    ensures b.Infinite? <==> forall j :: 0 <= j < |keys| ==> !eligible[j]
    ensures b.Found? ==> IsFirstMin(keys, eligible, b.index) && b.dist == keys[b.index]
    decreases |keys|
  {
    if keys == [] then Infinite
    else
      var n := |keys| - 1;
      var b := NearestFold(keys[..n], eligible[..n]);
      if eligible[n] && (b.Infinite? || keys[n] < b.dist) then Found(n, keys[n]) else b
  }

  /** There is only one first minimum. */
  lemma FirstMinUnique(keys: seq<real>, eligible: seq<bool>, k: int, m: int)
    requires IsFirstMin(keys, eligible, k) && IsFirstMin(keys, eligible, m)
    ensures k == m
  {
  }

  /** Taking square roots of non-negative keys keeps the first minimum where it is. */
  lemma FirstMinUnderRoots(keys: seq<real>, roots: seq<real>, eligible: seq<bool>, sqrt: real -> real, k: int)
    requires |roots| == |keys|
    requires forall j :: 0 <= j < |keys| ==> keys[j] >= 0.0 && SqrtAt(sqrt, keys[j]) && roots[j] == sqrt(keys[j])
    ensures IsFirstMin(keys, eligible, k) <==> IsFirstMin(roots, eligible, k)
  {
    if |eligible| == |keys| && 0 <= k < |keys| {
      forall j | 0 <= j < |keys|
        ensures roots[k] < roots[j] <==> keys[k] < keys[j]
        ensures roots[j] < roots[k] <==> keys[j] < keys[k]
      {
        RootOrder(sqrt, keys[k], keys[j]);
        RootOrder(sqrt, keys[j], keys[k]);
      }
    }
  }

  /** The fold over distances and the fold over squared distances pick the same position. */
  lemma NearestFoldUnderRoots(keys: seq<real>, roots: seq<real>, eligible: seq<bool>, sqrt: real -> real)
    requires |roots| == |keys| == |eligible|
    requires forall j :: 0 <= j < |keys| ==> keys[j] >= 0.0 && SqrtAt(sqrt, keys[j]) && roots[j] == sqrt(keys[j])
    ensures NearestFold(roots, eligible).Infinite? <==> NearestFold(keys, eligible).Infinite?
    ensures NearestFold(keys, eligible).Found? ==>
              NearestFold(roots, eligible).index == NearestFold(keys, eligible).index
  {
    var a, b := NearestFold(keys, eligible), NearestFold(roots, eligible);
    if a.Found? {
      FirstMinUnderRoots(keys, roots, eligible, sqrt, a.index);
      FirstMinUnderRoots(keys, roots, eligible, sqrt, b.index);
      FirstMinUnique(keys, eligible, a.index, b.index);
    }
  }

  /** Squared distances to `p` from the position `pos` gives each element. */
  function Keys<T>(xs: seq<T>, pos: T -> Point, p: Point): (keys: seq<real>)
    ensures |keys| == |xs|
    ensures forall i :: 0 <= i < |xs| ==> keys[i] == SqDistance(pos(xs[i]), p)
  {
    seq(|xs|, i requires 0 <= i < |xs| => SqDistance(pos(xs[i]), p))
  }

  /** Squared distances from each ambulance to `p`. */
  function AmbulanceKeys(ambulances: seq<Ambulance>, p: Point): seq<real>
  {
    Keys(ambulances, (a: Ambulance) => a.Pos(), p)
  }

  /** `a.status === 'idle'` for each ambulance: the ones the `filter` keeps. */
  function IdleFlags(ambulances: seq<Ambulance>): (flags: seq<bool>)
    ensures |flags| == |ambulances|
    ensures forall i :: 0 <= i < |ambulances| ==> flags[i] == (ambulances[i].status == Status.Idle)
  {
    seq(|ambulances|, i requires 0 <= i < |ambulances| => ambulances[i].status == Status.Idle)
  }

  /** Squared distances from each hospital to `p`. */
  function HospitalKeys(hospitals: seq<Hospital>, p: Point): seq<real>
  {
    Keys(hospitals, (h: Hospital) => h.Pos(), p)
  }

  function AllEligible(n: nat): (flags: seq<bool>)
    ensures |flags| == n
    ensures forall i :: 0 <= i < n ==> flags[i]
  {
    seq(n, i => true)
  }

  /** `ambulances[k]` is the first idle ambulance at the least distance from `p`. */
  predicate IsNearestIdle(ambulances: seq<Ambulance>, p: Point, k: int)
  {
    IsFirstMin(AmbulanceKeys(ambulances, p), IdleFlags(ambulances), k)
  }

  /** `hospitals[h]` is the first hospital at the least distance from `p`. */
  predicate IsNearestHospital(hospitals: seq<Hospital>, p: Point, h: int)
  {
    IsFirstMin(HospitalKeys(hospitals, p), AllEligible(|hospitals|), h)
  }

  predicate NoneIdle(ambulances: seq<Ambulance>)
  {
    forall i :: 0 <= i < |ambulances| ==> ambulances[i].status != Status.Idle
  }

  /** The dispatcher's answer: which ambulance to send and where it will take the patient. */
  datatype DispatchInfo = DispatchInfo(ambulanceId: string, hospitalId: string)

  /**
   * `generateAmbulanceForDiscovery`. The hospital search dereferences
   * `hospitals[0]` once an idle ambulance exists, so the hospital list must
   * then be non-empty.
   */
  function GenerateAmbulanceForDiscovery(discovery: Discovery, ambulances: seq<Ambulance>, hospitals: seq<Hospital>)
    : (r: Option<DispatchInfo>)
    requires |hospitals| > 0 || NoneIdle(ambulances)
    ensures r.None? <==> NoneIdle(ambulances)
    ensures r.Some? ==> exists k :: IsNearestIdle(ambulances, discovery.Pos(), k) && ambulances[k].id == r.value.ambulanceId
    ensures r.Some? ==> exists h :: IsNearestHospital(hospitals, discovery.Pos(), h) && hospitals[h].id == r.value.hospitalId
  {
    var p := discovery.Pos();
    var nearest := NearestFold(AmbulanceKeys(ambulances, p), IdleFlags(ambulances));
    if nearest.Infinite? then None
    else
      var hospital := NearestFold(HospitalKeys(hospitals, p), AllEligible(|hospitals|));
      Some(DispatchInfo(ambulances[nearest.index].id, hospitals[hospital.index].id))
  }

  /** The chosen ambulance is idle, and no idle ambulance is nearer the incident. */
  lemma DispatchPicksNearestIdle(discovery: Discovery, ambulances: seq<Ambulance>, hospitals: seq<Hospital>, k: int)
    requires |hospitals| > 0 || NoneIdle(ambulances)
    requires IsNearestIdle(ambulances, discovery.Pos(), k)
    ensures ambulances[k].status == Status.Idle
    ensures forall j :: 0 <= j < |ambulances| && ambulances[j].status == Status.Idle ==>
              SqDistance(ambulances[k].Pos(), discovery.Pos()) <= SqDistance(ambulances[j].Pos(), discovery.Pos())
    ensures GenerateAmbulanceForDiscovery(discovery, ambulances, hospitals).Some?
    ensures GenerateAmbulanceForDiscovery(discovery, ambulances, hospitals).value.ambulanceId == ambulances[k].id
  {
    var p := discovery.Pos();
    var keys, flags := AmbulanceKeys(ambulances, p), IdleFlags(ambulances);
    assert flags[k];
    var b := NearestFold(keys, flags);
    FirstMinUnique(keys, flags, k, b.index);
    assert GenerateAmbulanceForDiscovery(discovery, ambulances, hospitals).value.ambulanceId == ambulances[b.index].id;
  }

  /** Distances from each ambulance to `p`, as `calculateDistance` computes them. */
  function AmbulanceDistances(ambulances: seq<Ambulance>, p: Point, sqrt: real -> real): (ds: seq<real>)
    requires forall i :: 0 <= i < |ambulances| ==> SqrtAt(sqrt, SqDistance(ambulances[i].Pos(), p))
    ensures |ds| == |ambulances|
    ensures forall i :: 0 <= i < |ambulances| ==> ds[i] == sqrt(SqDistance(ambulances[i].Pos(), p))
  {
    seq(|ambulances|, i requires 0 <= i < |ambulances| && SqrtAt(sqrt, SqDistance(ambulances[i].Pos(), p)) =>
      CalculateDistance(ambulances[i].Pos(), p, sqrt))
  }

  /** Reducing over `calculateDistance` values, as the source does, sends the same ambulance. */
  lemma SameAmbulanceByDistance(ambulances: seq<Ambulance>, p: Point, sqrt: real -> real)
    requires forall i :: 0 <= i < |ambulances| ==> SqrtAt(sqrt, SqDistance(ambulances[i].Pos(), p))
    ensures NoneIdle(ambulances) <==>
              NearestFold(AmbulanceDistances(ambulances, p, sqrt), IdleFlags(ambulances)).Infinite?
    ensures !NoneIdle(ambulances) ==>
              NearestFold(AmbulanceDistances(ambulances, p, sqrt), IdleFlags(ambulances)).index
              == NearestFold(AmbulanceKeys(ambulances, p), IdleFlags(ambulances)).index
  {
    var keys := AmbulanceKeys(ambulances, p);
    forall j | 0 <= j < |keys| ensures keys[j] >= 0.0 {
      SqDistanceZero(ambulances[j].Pos(), p);
    }
    NearestFoldUnderRoots(keys, AmbulanceDistances(ambulances, p, sqrt), IdleFlags(ambulances), sqrt);
  }
}
