/** Severity styling by number of people involved, and route colours by priority (`src/config/colors.js`). */
module Colors {
  import opened Constants

  /** One entry of `COLORS.severity` (its `label` is `labelText` here: `label` is a Dafny keyword). */
  datatype Severity = Severity(gradient: string, badge: string, labelText: string)

  const SeverityNone: Severity :=
    Severity("linear-gradient(135deg, #E5E7EB 0%, #D1D5DB 100%)", "#9CA3AF", "0")
  const SeverityLow: Severity :=
    Severity("linear-gradient(135deg, #D1D5DB 0%, #9CA3AF 100%)", "#6B7280", "1")
  const SeverityModerate: Severity :=
    Severity("linear-gradient(135deg, #FED7AA 0%, #FDBA74 100%)", "#FB923C", "2")
  const SeverityModerateHigh: Severity :=
    Severity("linear-gradient(135deg, #FCD34D 0%, #FBBF24 100%)", "#F59E0B", "3~4")
  const SeverityHigh: Severity :=
    Severity("linear-gradient(135deg, #F97316 0%, #EA580C 100%)", "#EA580C", "5~9")
  const SeverityCritical: Severity :=
    Severity("linear-gradient(135deg, #4B5563 0%, #374151 100%)", "#1F2937", "10+")

  /**
   * `getSeverityByCount`: the six levels partition every possible count,
   * so each count has exactly one level and each level its own band.
   */
  function GetSeverityByCount(count: real): (s: Severity)
    ensures s == SeverityCritical <==> count >= 10.0
    ensures s == SeverityHigh <==> 5.0 <= count < 10.0
    ensures s == SeverityModerateHigh <==> 3.0 <= count < 5.0
    ensures s == SeverityModerate <==> count == 2.0
    ensures s == SeverityLow <==> count == 1.0
    ensures s == SeverityNone <==> count < 3.0 && count != 2.0 && count != 1.0
  {
    if count >= 10.0 then SeverityCritical
    else if count >= 5.0 then SeverityHigh
    else if count >= 3.0 then SeverityModerateHigh
    else if count == 2.0 then SeverityModerate
    else if count == 1.0 then SeverityLow
    else SeverityNone
  }

  /** Position of a severity level, from `none` (0) to `critical` (5), read off its label. */
  function Rank(s: Severity): nat
  {
    match s.labelText
    case "10+" => 5
    case "5~9" => 4
    case "3~4" => 3
    case "2" => 2
    case "1" => 1
    case _ => 0
  }

  /** For head counts (non-negative integers) more people never means a lower severity. */
  lemma SeverityMonotone(m: int, n: int)
    requires 0 <= m <= n
    ensures Rank(GetSeverityByCount(m as real)) <= Rank(GetSeverityByCount(n as real))
  {
    var a, b := GetSeverityByCount(m as real), GetSeverityByCount(n as real);
    if n >= 10 {
      assert b == SeverityCritical;
    } else if n >= 5 {
      assert b == SeverityHigh && a != SeverityCritical;
    } else if n >= 3 {
      assert b == SeverityModerateHigh && m < 5;
    } else if n == 2 {
      assert b == SeverityModerate && m <= 2;
    }
  }

  /** `COLORS.priority`: the polyline colour of a route of each priority. */
  const PriorityColors: map<string, string> :=
    map["critical" := "#EA580C", "high" := "#DC2626", "medium" := "#0891B2", "low" := "#059669"]

  /** Every priority a route can be created with has a colour. */
  lemma EveryPriorityHasColor(p: string)
    requires p in RoutePriorities
    ensures p in PriorityColors
  {
  }
}
