/** The fixed tables and tunables of the simulation (`src/config/constants.js`). */
module Constants {

  /** A closed interval of degrees, `{ min, max }`. */
  datatype Range = Range(min: real, max: real)

  /** A rectangle of coordinates in which incidents are generated. */
  datatype Bounds = Bounds(lat: Range, lng: Range)

  const TokyoBounds: Bounds := Bounds(Range(35.6, 35.75), Range(139.65, 139.8))
  const HamamatsuBounds: Bounds := Bounds(Range(34.7, 34.8), Range(137.7, 137.8))

  /** Share of incidents placed in the Tokyo area; the rest go to Hamamatsu. */
  const TokyoAreaProbability: real := 0.6
  /** Chance that an idle check actually creates an incident. */
  const IncidentCreationProbability: real := 0.3

  const IncidentTypes: seq<string> :=
    ["交通事故", "心肺停止", "急病", "転倒", "熱中症", "意識不明", "打撲", "脱水症状"]
  const TokyoAreas: seq<string> :=
    ["渋谷", "新宿", "六本木", "銀座", "池袋", "品川", "恵比寿", "表参道", "原宿", "代官山"]
  const HamamatsuAreas: seq<string> :=
    ["浜松", "舞阪", "浜北", "天竜", "細江", "引佐", "三ヶ日", "春野", "佐久間", "水窪"]
  const LocationSuffixes: seq<string> := ["駅前", "交差点", "公園", "広場", "通り"]

  /** The values of the people-count filter, `"all"` first. */
  const PeopleCountFilterValues: seq<string> := ["all", "10+", "5-9", "3-4", "2", "1", "0"]

  const RoutePriorities: seq<string> := ["critical", "high", "medium", "low"]

  /**
   * The user-tunable settings. They are read with `parseInt`, so they are
   * integers; nothing stops them from being zero or negative.
   */
  datatype Settings = Settings(
    ambulancesPerHospital: int,
    independentAmbulances: int,
    maxIncidents: int,
    minIdleTime: int,
    maxIdleTime: int)

  const SimulationDefaults: Settings := Settings(2, 0, 12, 5, 15)
}
