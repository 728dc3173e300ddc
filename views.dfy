/**
 * The two derived views of `src/App.js`: `filterData`, which narrows the
 * discovery and ambulance lists shown in the side panel, and
 * `getRouteCoordinates`, which draws a route according to its ambulance's
 * phase.
 */
module Views {
  import opened Wrappers
  import opened Seqs
  import opened Geo
  import opened Constants
  import opened Entities
  import Colors

  /**
   * The `switch (peopleCountFilter)` of `filterData`; a value outside the
   * six buckets falls to `default` and keeps every discovery.
   */
  predicate MatchesPeopleCount(filter: string, count: int)
  {
    match filter
    case "10+" => count >= 10
    case "5-9" => 5 <= count <= 9
    case "3-4" => 3 <= count <= 4
    case "2" => count == 2
    case "1" => count == 1
    case "0" => count == 0
    case _ => true
  }

  /** `filterData(data, "discovery")`: the discoveries in the selected people-count bucket, in order. */
  function FilterDiscoveries(discoveries: seq<Discovery>, peopleCountFilter: string): (r: seq<Discovery>)
    ensures peopleCountFilter == "all" ==> r == discoveries
    ensures |r| <= |discoveries| && multiset(r) <= multiset(discoveries)
    ensures forall i :: 0 <= i < |r| ==>
              r[i] in discoveries && MatchesPeopleCount(peopleCountFilter, r[i].peopleCount)
    ensures forall i :: 0 <= i < |discoveries| && MatchesPeopleCount(peopleCountFilter, discoveries[i].peopleCount) ==>
              discoveries[i] in r
  {
    if peopleCountFilter == "all" then discoveries
    else Filter(discoveries, (d: Discovery) => MatchesPeopleCount(peopleCountFilter, d.peopleCount))
  }

  /** The filter keeps relative order: filtering a concatenation filters each part. */
  lemma FilterDiscoveriesKeepsOrder(a: seq<Discovery>, b: seq<Discovery>, peopleCountFilter: string)
    ensures FilterDiscoveries(a + b, peopleCountFilter)
            == FilterDiscoveries(a, peopleCountFilter) + FilterDiscoveries(b, peopleCountFilter)
  {
    if peopleCountFilter != "all" {
      FilterAppend(a, b, (d: Discovery) => MatchesPeopleCount(peopleCountFilter, d.peopleCount));
    }
  }

  /** A value that is not one of the six buckets leaves the list as it is, like `"all"`. */
  lemma UnknownFilterKeepsAll(discoveries: seq<Discovery>, peopleCountFilter: string)
    requires peopleCountFilter !in PeopleCountFilterValues
    ensures FilterDiscoveries(discoveries, peopleCountFilter) == discoveries
  {
    assert peopleCountFilter !in {"10+", "5-9", "3-4", "2", "1", "0"} by {
      assert PeopleCountFilterValues[1..] == ["10+", "5-9", "3-4", "2", "1", "0"];
    }
    FilterKeepsAll(discoveries, (d: Discovery) => MatchesPeopleCount(peopleCountFilter, d.peopleCount));
  }

  predicate KeptByStatusFilters(a: Ambulance, showOnlyEnRoute: bool, showOnlyIdle: bool)
  {
    (showOnlyEnRoute ==> a.status == Status.EnRoute) && (showOnlyIdle ==> a.status == Status.Idle)
  }

  /** `filterData(data, "ambulance")`: the en-route-only filter, then the idle-only filter. */
  function FilterAmbulances(ambulances: seq<Ambulance>, showOnlyEnRoute: bool, showOnlyIdle: bool)
    : (r: seq<Ambulance>)
    ensures !showOnlyEnRoute && !showOnlyIdle ==> r == ambulances
    ensures showOnlyEnRoute && showOnlyIdle ==> r == []
    ensures forall i :: 0 <= i < |r| ==> r[i] in ambulances
    ensures forall i :: 0 <= i < |r| ==> KeptByStatusFilters(r[i], showOnlyEnRoute, showOnlyIdle)
    ensures forall i :: 0 <= i < |ambulances| && KeptByStatusFilters(ambulances[i], showOnlyEnRoute, showOnlyIdle) ==>
              ambulances[i] in r
  {
    var enRoute := if showOnlyEnRoute then Filter(ambulances, (a: Ambulance) => a.status == Status.EnRoute)
                   else ambulances;
    var idle := (a: Ambulance) => a.status == Status.Idle;
    if showOnlyIdle && showOnlyEnRoute then
      FilterNoneMatch(enRoute, idle);
      Filter(enRoute, idle)
    else if showOnlyIdle then Filter(enRoute, idle)
    else enRoute
  }

  /** A line segment of a drawn route, `[[lat, lng], [lat, lng]]`. */
  datatype Segment = Segment(from: Point, to: Point)

  /** What `getRouteCoordinates` returns: the leg to the incident and the leg to the hospital. */
  datatype RouteSegments = RouteSegments(segment1: Option<Segment>, segment2: Option<Segment>)

  /**
   * `getRouteCoordinates`: at an incident, the ambulance-to-incident leg;
   * on the way to hospital, the ambulance-to-hospital leg; nothing otherwise,
   * and nothing when the route's ambulance or hospital is gone.
   */
  function GetRouteCoordinates(route: Route, discoveries: seq<Discovery>, ambulances: seq<Ambulance>,
                               hospitals: seq<Hospital>): (r: Option<RouteSegments>)
    ensures var amb := AmbulanceById(ambulances, route.ambulanceId);
            var hosp := HospitalById(hospitals, Some(route.hospitalId));
            var disc := DiscoveryById(discoveries, Some(route.discoveryPointId));
      (r.Some? <==> amb.Some? && hosp.Some? &&
                    (amb.value.phase == Phase.ToHospital || (amb.value.phase == Phase.AtDiscovery && disc.Some?)))
      && (r.Some? ==> (r.value.segment1.Some? <==> r.value.segment2.None?))
      && (r.Some? && r.value.segment1.Some? ==>
            amb.value.phase == Phase.AtDiscovery
            && r.value.segment1.value == Segment(amb.value.Pos(), disc.value.Pos()))
      && (r.Some? && r.value.segment2.Some? ==>
            amb.value.phase == Phase.ToHospital
            && r.value.segment2.value == Segment(amb.value.Pos(), hosp.value.Pos()))
  {
    var discovery := DiscoveryById(discoveries, Some(route.discoveryPointId));
    var ambulance := AmbulanceById(ambulances, route.ambulanceId);
    var hospital := HospitalById(hospitals, Some(route.hospitalId));
    if ambulance.None? || hospital.None? then None
    else if ambulance.value.phase == Phase.AtDiscovery && discovery.Some? then
      Some(RouteSegments(Some(Segment(ambulance.value.Pos(), discovery.value.Pos())), None))
    else if ambulance.value.phase == Phase.ToHospital then
      Some(RouteSegments(None, Some(Segment(ambulance.value.Pos(), hospital.value.Pos()))))
    else None
  }

  /** The severity label of a count, spelled as a people-count filter value (`3~4` becomes `3-4`). */
  function LabelAsFilter(text: string): (f: string)
    ensures |f| == |text|
  {
    seq(|text|, i requires 0 <= i < |text| => if text[i] == '~' then '-' else text[i])
  }

  /**
   * For head counts the people-count buckets and the severity levels agree:
   * a count passes a bucket's filter exactly when its severity label names
   * that bucket.
   */
  lemma SeverityLabelMatchesFilter(count: int, filter: string)
    requires count >= 0
    requires filter in PeopleCountFilterValues && filter != "all"
    ensures MatchesPeopleCount(filter, count)
            <==> LabelAsFilter(Colors.GetSeverityByCount(count as real).labelText) == filter
  {
    assert LabelAsFilter("10+") == "10+";
    assert LabelAsFilter("5~9") == "5-9";
    assert LabelAsFilter("3~4") == "3-4";
    assert LabelAsFilter("2") == "2";
    assert LabelAsFilter("1") == "1";
    assert LabelAsFilter("0") == "0";
  }
}
