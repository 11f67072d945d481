/** Report categories and severities (apps/api/app/domain/categories.py). */
module Categories {

  const SIMILAR_GROUPS: seq<set<string>> := [
    {"road_collapse", "road_blocked", "landslide", "fallen_tree"},
    {"flooding", "embankment_damage"},
    {"bridge_damage", "road_blocked"},
    {"building_damage", "fire", "gas_leak"},
    {"trapped_person", "medical_need"},
    {"power_outage", "water_outage"}
  ]

  /** The same category, or two members of one similarity group. */
  predicate AreSimilar(a: string, b: string) {
    a == b || exists i :: 0 <= i < |SIMILAR_GROUPS| && a in SIMILAR_GROUPS[i] && b in SIMILAR_GROUPS[i]
  }

  /** The other categories whose reports may join one of this category. */
  function Partners(a: string): set<string> {
    match a
    case "road_collapse" => {"road_blocked", "landslide", "fallen_tree"}
    case "road_blocked" => {"road_collapse", "landslide", "fallen_tree", "bridge_damage"}
    case "landslide" => {"road_collapse", "road_blocked", "fallen_tree"}
    case "fallen_tree" => {"road_collapse", "road_blocked", "landslide"}
    case "flooding" => {"embankment_damage"}
    case "embankment_damage" => {"flooding"}
    case "bridge_damage" => {"road_blocked"}
    case "building_damage" => {"fire", "gas_leak"}
    case "fire" => {"building_damage", "gas_leak"}
    case "gas_leak" => {"building_damage", "fire"}
    case "trapped_person" => {"medical_need"}
    case "medical_need" => {"trapped_person"}
    case "power_outage" => {"water_outage"}
    case "water_outage" => {"power_outage"}
    case _ => {}
  }

  /** Two categories are similar exactly when they are the same or partners. */
  lemma {:induction false} SimilarArePartners(a: string, b: string)
    ensures AreSimilar(a, b) <==> a == b || b in Partners(a)
  {
    assert a in SIMILAR_GROUPS[0] && b in SIMILAR_GROUPS[0] ==> a == b || b in Partners(a);
    assert a in SIMILAR_GROUPS[1] && b in SIMILAR_GROUPS[1] ==> a == b || b in Partners(a);
    assert a in SIMILAR_GROUPS[2] && b in SIMILAR_GROUPS[2] ==> a == b || b in Partners(a);
    assert a in SIMILAR_GROUPS[3] && b in SIMILAR_GROUPS[3] ==> a == b || b in Partners(a);
    assert a in SIMILAR_GROUPS[4] && b in SIMILAR_GROUPS[4] ==> a == b || b in Partners(a);
    assert a in SIMILAR_GROUPS[5] && b in SIMILAR_GROUPS[5] ==> a == b || b in Partners(a);
  }

  datatype Severity = Low | Medium | High | Critical

  function Rank(s: Severity): nat {
    match s
    case Low => 0
    case Medium => 1
    case High => 2
    case Critical => 3
  }

  /** The highest severity of a list, `Low` for an empty one. */
  function Highest(values: seq<Severity>): (best: Severity)
    ensures forall v <- values :: Rank(v) <= Rank(best)
    ensures best in values || (best == Low && forall v <- values :: v == Low)
  {
    if values == [] then Low
    else
      var n := |values| - 1;
      var best := Highest(values[..n]);
      assert values == values[..n] + [values[n]];
      if Rank(values[n]) > Rank(best) then values[n] else best
  }

  method MaxSeverity(values: seq<Severity>) returns (best: Severity)
    ensures best == Highest(values)
    ensures forall v <- values :: Rank(v) <= Rank(best)
    ensures values != [] ==> best in values
  {
    best := Low;
    for i := 0 to |values|
      invariant best == Highest(values[..i])
    {
      assert values[..i + 1][..i] == values[..i];
      if Rank(values[i]) > Rank(best) {
        best := values[i];
      }
    }
    assert values[..|values|] == values;
  }
}
