/**
 * The map overlay of components/Map.js: every district of the district list is
 * joined with the year's ledger row of the same name (all zeros when there is
 * none), given a total impact, and coloured by that total.
 */
module DisasterMap {
  import opened JsSemantics
  import opened Ledger

  datatype Color = Green | Orange | Red

  /** The order of the colours, from least to most severe. */
  function Severity(c: Color): nat
  {
    match c
    case Green => 0
    case Orange => 1
    case Red => 2
  }

  /**
   * `getMarkerColor`. A total that is `NaN` (`None`) fails both comparisons,
   * so it is green.
   */
  function MarkerColor(totalImpact: Option<int>): (c: Color)
    ensures c == Red <==> totalImpact.Some? && totalImpact.value > 5
    ensures c == Orange <==> totalImpact.Some? && 2 < totalImpact.value <= 5
    ensures c == Green <==> totalImpact.None? || totalImpact.value <= 2
  {
    if totalImpact.Some? && totalImpact.value > 5 then Red
    else if totalImpact.Some? && totalImpact.value > 2 then Orange
    else Green
  }

  /** A larger total never gets a less severe colour. */
  lemma MarkerColorMonotone(a: int, b: int)
    requires a <= b
    ensures Severity(MarkerColor(Some(a))) <= Severity(MarkerColor(Some(b)))
  {
  }

  /** `disastersData.find(d => d.kecamatan === name)`: the first row of that district, if any. */
  function FindRow(rows: seq<Row>, name: string): (r: Option<Row>)
    ensures r.None? <==> forall i :: 0 <= i < |rows| ==> rows[i].kecamatan != name
    ensures r.Some? ==> exists i :: 0 <= i < |rows| && rows[i] == r.value && rows[i].kecamatan == name
                          && forall j :: 0 <= j < i ==> rows[j].kecamatan != name
  {
    if rows == [] then None
    else if rows[0].kecamatan == name then Some(rows[0])
    else
      var r := FindRow(rows[1..], name);
      assert forall i :: 0 < i < |rows| ==> rows[i] == rows[1..][i - 1];
      if r.Some? then
        var i :| 0 <= i < |rows[1..]| && rows[1..][i] == r.value && rows[1..][i].kecamatan == name
                  && forall j :: 0 <= j < i ==> rows[1..][j].kecamatan != name;
        assert rows[i + 1] == r.value;
        assert forall j :: 0 <= j < i + 1 ==> rows[j].kecamatan != name by {
          forall j | 0 <= j < i + 1 ensures rows[j].kecamatan != name {
            if j > 0 { assert rows[j] == rows[1..][j - 1]; }
          }
        }
        r
      else r
  }

  /** One entry of `combinedData`: the district, the counters shown for it and its total impact (`None` is `NaN`). */
  datatype MapEntry = MapEntry(name: string, disasters: Counts, totalImpact: Option<int>)

  /** JavaScript `+` on numbers: `NaN` if either side is `NaN`. */
  function JsAdd(a: Option<int>, b: Option<int>): (r: Option<int>)
    ensures r.Some? <==> a.Some? && b.Some?
    ensures r.Some? ==> r.value == a.value + b.value
  {
    if a.Some? && b.Some? then Some(a.value + b.value) else None
  }

  /** `parseInt(n)` on a JSON number: it reads back the number's decimal text. */
  function ParseNumber(n: int): Option<int>
  {
    ParseInt(IntString(n))
  }

  /** `parseInt` gives back every integer counter unchanged. */
  lemma ParseNumberExact(n: int)
    ensures ParseNumber(n) == Some(n)
  {
    ParseIntRoundTrip(n);
  }

  /** The numbers, each through `parseInt`. */
  function ParseAll(vs: seq<int>): (ps: seq<Option<int>>)
    ensures |ps| == |vs|
  {
    seq(|vs|, i requires 0 <= i < |vs| => ParseNumber(vs[i]))
  }

  /** `p0 + p1 + ...`, added left to right. */
  function JsSum(ps: seq<Option<int>>): Option<int>
    requires ps != []
  {
    if |ps| == 1 then ps[0] else JsAdd(JsSum(ps[..|ps| - 1]), ps[|ps| - 1])
  }

  /** `parseInt(Banjir) + parseInt(Gempa_Bumi) + parseInt(Tanah_Longsor)` */
  function TotalImpact(c: Counts): Option<int>
  {
    JsSum(ParseAll([c.banjir, c.gempaBumi, c.tanahLongsor]))
  }

  function Sum(vs: seq<int>): int
  {
    if vs == [] then 0 else Sum(vs[..|vs| - 1]) + vs[|vs| - 1]
  }

  function Somes(vs: seq<int>): (ps: seq<Option<int>>)
    ensures |ps| == |vs|
  {
    seq(|vs|, i requires 0 <= i < |vs| => Some(vs[i]))
  }

  lemma ParseAllExact(vs: seq<int>)
    ensures ParseAll(vs) == Somes(vs)
  {
    forall i | 0 <= i < |vs| ensures ParseAll(vs)[i] == Somes(vs)[i] {
      ParseNumberExact(vs[i]);
    }
  }

  /** Adding up numbers none of which is `NaN` gives their plain sum. */
  lemma {:induction false} JsSumOfNumbers(vs: seq<int>)
    requires vs != []
    ensures JsSum(Somes(vs)) == Some(Sum(vs))
  {
    if |vs| > 1 {
      assert Somes(vs)[..|vs| - 1] == Somes(vs[..|vs| - 1]);
      JsSumOfNumbers(vs[..|vs| - 1]);
    } else {
      assert vs[..0] == [];
    }
  }

  /** Re-parsing integers is lossless, so a parsed sum is never `NaN` and is the plain sum. */
  lemma ParsedSumIsSum(vs: seq<int>)
    requires vs != []
    ensures JsSum(ParseAll(vs)) == Some(Sum(vs))
  {
    ParseAllExact(vs);
    JsSumOfNumbers(vs);
  }

  lemma SumOfThree(a: int, b: int, c: int)
    ensures Sum([a, b, c]) == a + b + c
  {
    var vs := [a, b, c];
    assert vs[..2] == [a, b];
    assert [a, b][..1] == [a];
    assert [a][..0] == [];
    assert Sum([a]) == a;
    assert Sum([a, b]) == a + b;
  }

  /** The total impact of a row is never `NaN` and is the sum of its three counters. */
  lemma TotalImpactIsTotal(c: Counts)
    ensures TotalImpact(c) == Some(Total(c))
  {
    ParsedSumIsSum([c.banjir, c.gempaBumi, c.tanahLongsor]);
    SumOfThree(c.banjir, c.gempaBumi, c.tanahLongsor);
  }

  /** The combined entry of one district. */
  function Combined(name: string, rows: seq<Row>): MapEntry
  {
    var disaster := match FindRow(rows, name) case Some(row) => row.counts case None => Zero;
    MapEntry(name, disaster, TotalImpact(disaster))
  }

  /** `combinedData`: one entry per district, in the district list's order. */
  function CombinedData(districts: seq<string>, rows: seq<Row>): (entries: seq<MapEntry>)
    ensures |entries| == |districts|
    ensures forall i :: 0 <= i < |districts| ==> entries[i] == Combined(districts[i], rows)
  {
    seq(|districts|, i requires 0 <= i < |districts| => Combined(districts[i], rows))
  }

  /**
   * What each entry of `combinedData` holds: the district of the same
   * position; the counters of the first row carrying its name, or all zeros
   * when no row does; and the sum of those counters as its total impact.
   */
  lemma CombinedDataEntries(districts: seq<string>, rows: seq<Row>)
    ensures var entries := CombinedData(districts, rows);
      forall i :: 0 <= i < |entries| ==>
        && entries[i].name == districts[i]
        && entries[i].totalImpact == Some(Total(entries[i].disasters))
        && ((forall k :: 0 <= k < |rows| ==> rows[k].kecamatan != districts[i]) ==> entries[i].disasters == Zero)
        && (forall k :: 0 <= k < |rows| && rows[k].kecamatan == districts[i]
              && (forall j :: 0 <= j < k ==> rows[j].kecamatan != districts[i])
              ==> entries[i].disasters == rows[k].counts)
  {
    var entries := CombinedData(districts, rows);
    forall i | 0 <= i < |entries|
      ensures entries[i].totalImpact == Some(Total(entries[i].disasters))
      ensures forall k :: (0 <= k < |rows| && rows[k].kecamatan == districts[i]
                && (forall j :: 0 <= j < k ==> rows[j].kecamatan != districts[i]))
                ==> entries[i].disasters == rows[k].counts
    {
      TotalImpactIsTotal(entries[i].disasters);
      var found := FindRow(rows, districts[i]);
      if found.Some? {
        var w :| 0 <= w < |rows| && rows[w] == found.value && rows[w].kecamatan == districts[i]
                 && forall j :: 0 <= j < w ==> rows[j].kecamatan != districts[i];
        forall k | 0 <= k < |rows| && rows[k].kecamatan == districts[i]
                   && (forall j :: 0 <= j < k ==> rows[j].kecamatan != districts[i])
          ensures entries[i].disasters == rows[k].counts
        {
          assert k == w;
        }
      }
    }
  }

  /** The colour a district's marker gets is the threshold class of its counters' sum. */
  lemma MarkerOfCombined(name: string, rows: seq<Row>)
    ensures MarkerColor(Combined(name, rows).totalImpact) == MarkerColor(Some(Total(Combined(name, rows).disasters)))
  {
    TotalImpactIsTotal(Combined(name, rows).disasters);
  }
}
