/**
 * The read side of components/BencanaManagement.js: the list of years the
 * ledger holds (distinct, newest first), the year selected by default, the
 * rows shown for the selected year, and how a form field is coerced.
 */
module BencanaManagement {
  import opened JsSemantics
  import opened Ledger

  predicate StrictlyDescending(ys: seq<int>)
  {
    forall i, j :: 0 <= i < j < |ys| ==> ys[i] > ys[j]
  }

  /** `y` placed in a strictly descending list, unless it is already there. */
  function InsertDescending(ys: seq<int>, y: int): (r: seq<int>)
    requires StrictlyDescending(ys)
    ensures StrictlyDescending(r)
    ensures forall x :: x in r <==> x in ys || x == y
  {
    if ys == [] then [y]
    else if y > ys[0] then [y] + ys
    else if y == ys[0] then ys
    else
      var tail := InsertDescending(ys[1..], y);
      assert forall x :: x in ys[1..] ==> x < ys[0];
      assert forall x :: x in ys <==> x == ys[0] || x in ys[1..];
      assert forall k :: 0 <= k < |tail| ==> tail[k] < ys[0] by {
        forall k | 0 <= k < |tail| ensures tail[k] < ys[0] {
          assert tail[k] in tail;
        }
      }
      [ys[0]] + tail
  }

  /** `[...new Set(data.map(item => item.tahun))].sort((a, b) => b - a)` */
  function UniqueYears(rows: seq<Row>): (ys: seq<int>)
    ensures StrictlyDescending(ys)
    ensures forall y :: y in ys <==> exists i :: 0 <= i < |rows| && rows[i].tahun == y
  {
    if rows == [] then []
    else
      var pre := rows[..|rows| - 1];
      var ys := InsertDescending(UniqueYears(pre), rows[|rows| - 1].tahun);
      assert forall i :: 0 <= i < |pre| ==> pre[i] == rows[i];
      ys
  }

  /** The head of a strictly descending list is its maximum, and the tail holds exactly the smaller elements. */
  lemma DescendingHead(a: seq<int>)
    requires StrictlyDescending(a) && a != []
    ensures forall x :: x in a ==> x <= a[0]
    ensures forall x :: x in a[1..] <==> x in a && x < a[0]
  {
    forall x | x in a ensures x <= a[0] {
      var k :| 0 <= k < |a| && a[k] == x;
    }
    forall x | x in a && x < a[0] ensures x in a[1..] {
      var k :| 0 <= k < |a| && a[k] == x;
      assert a[1..][k - 1] == x;
    }
  }

  lemma HasHead(a: seq<int>)
    ensures a != [] ==> a[0] in a
  {
  }

  /** A strictly descending list without duplicates is fixed by its elements: there is one such list per set of years. */
  lemma {:induction false} DescendingUnique(a: seq<int>, b: seq<int>)
    requires StrictlyDescending(a) && StrictlyDescending(b)
    requires forall x :: x in a <==> x in b
    ensures a == b
    decreases |a|
  {
    if a != [] && b != [] {
      DescendingHead(a);
      DescendingHead(b);
      assert a[0] in b && b[0] in a;
      assert a[0] == b[0];
      DescendingUnique(a[1..], b[1..]);
      assert a == [a[0]] + a[1..] && b == [b[0]] + b[1..];
    } else {
      HasHead(a);
      HasHead(b);
    }
  }

  /** The year list is the one distinct, newest-first list of the ledger's years. */
  lemma UniqueYearsIsTheSortedSet(rows: seq<Row>, ys: seq<int>)
    requires StrictlyDescending(ys)
    requires forall y :: y in ys <==> exists i :: 0 <= i < |rows| && rows[i].tahun == y
    ensures UniqueYears(rows) == ys
  {
    DescendingUnique(UniqueYears(rows), ys);
  }

  /** `uniqueYears[0] || new Date().getFullYear()`: an empty list, or a first year of 0, falls back to the current year. */
  function DefaultYear(years: seq<int>, currentYear: int): (y: int)
    ensures years != [] && years[0] != 0 ==> y == years[0]
    ensures (years == [] || years[0] == 0) ==> y == currentYear
  {
    if years != [] && years[0] != 0 then years[0] else currentYear
  }

  /** `y` is a year of the ledger and no row is newer. */
  predicate IsNewest(rows: seq<Row>, y: int)
  {
    (exists i :: 0 <= i < |rows| && rows[i].tahun == y) && forall i :: 0 <= i < |rows| ==> rows[i].tahun <= y
  }

  /**
   * The default year is the ledger's newest year, except that a newest year
   * of 0 is falsy and gives way to the current year.
   */
  lemma DefaultYearIsNewest(rows: seq<Row>, currentYear: int)
    requires rows != []
    ensures var d := DefaultYear(UniqueYears(rows), currentYear);
      d == currentYear || IsNewest(rows, d)
    ensures (exists i :: 0 <= i < |rows| && rows[i].tahun > 0) ==> IsNewest(rows, DefaultYear(UniqueYears(rows), currentYear))
  {
    var ys := UniqueYears(rows);
    assert rows[0].tahun in ys;
    forall i | 0 <= i < |rows| ensures rows[i].tahun <= ys[0] {
      assert rows[i].tahun in ys;
      var k :| 0 <= k < |ys| && ys[k] == rows[i].tahun;
    }
    assert ys[0] in ys;
    assert IsNewest(rows, ys[0]);
  }

  /** `bencanaData.filter(item => item.tahun === year)` */
  function FilterYear(rows: seq<Row>, year: int): (r: seq<Row>)
    ensures forall x :: x in r <==> x in rows && x.tahun == year
  {
    if rows == [] then []
    else
      var pre := rows[..|rows| - 1];
      var last := rows[|rows| - 1];
      assert rows == pre + [last];
      FilterYear(pre, year) + (if last.tahun == year then [last] else [])
  }

  /** Filtering distributes over concatenation, so the shown rows keep their original order. */
  lemma {:induction false} FilterYearAppend(a: seq<Row>, b: seq<Row>, year: int)
    ensures FilterYear(a + b, year) == FilterYear(a, year) + FilterYear(b, year)
    decreases |b|
  {
    if b == [] {
      assert a + b == a;
    } else {
      var pre := b[..|b| - 1];
      assert (a + b)[..|a + b| - 1] == a + pre;
      assert (a + b)[|a + b| - 1] == b[|b| - 1];
      FilterYearAppend(a, pre, year);
    }
  }

  /** Filtering again by the same year changes nothing. */
  lemma {:induction false} FilterYearIdempotent(rows: seq<Row>, year: int)
    ensures FilterYear(FilterYear(rows, year), year) == FilterYear(rows, year)
  {
    if rows != [] {
      var pre := rows[..|rows| - 1];
      var last := rows[|rows| - 1];
      FilterYearIdempotent(pre, year);
      FilterYearAppend(FilterYear(pre, year), if last.tahun == year then [last] else [], year);
    }
  }

  /** The selected year: a number right after loading, or the text of the year picker after a change. */
  datatype Selection = Num(n: int) | Text(s: string)

  predicate Truthy(sel: Selection)
  {
    match sel
    case Num(n) => n != 0
    case Text(s) => s != ""
  }

  /** `parseInt(selectedYear)` (a number is read back through its decimal text). */
  function SelectedYear(sel: Selection): Option<int>
  {
    match sel
    case Num(n) => ParseInt(IntString(n))
    case Text(s) => ParseInt(s)
  }

  /**
   * The rows shown after the effect runs: a falsy selection leaves the
   * previous list as it was, an unreadable year (`NaN`) matches no row, and
   * otherwise the rows of that year, in order.
   */
  function ShownRows(rows: seq<Row>, sel: Selection, previous: seq<Row>): (shown: seq<Row>)
    ensures !Truthy(sel) ==> shown == previous
    ensures Truthy(sel) && SelectedYear(sel).None? ==> shown == []
    ensures Truthy(sel) && SelectedYear(sel).Some? ==> shown == FilterYear(rows, SelectedYear(sel).value)
  {
    if !Truthy(sel) then previous
    else match SelectedYear(sel)
      case None => []
      case Some(y) => FilterYear(rows, y)
  }

  /** Selecting a (non-zero) year number shows exactly that year's rows, in their original order. */
  lemma ShownRowsOfNumber(rows: seq<Row>, year: int, previous: seq<Row>)
    requires year != 0
    ensures ShownRows(rows, Num(year), previous) == FilterYear(rows, year)
    ensures forall x :: x in ShownRows(rows, Num(year), previous) <==> x in rows && x.tahun == year
  {
    ParseIntRoundTrip(year);
  }

  /** Picking the text of a year from the list shows that year's rows. */
  lemma ShownRowsOfText(rows: seq<Row>, year: int, previous: seq<Row>)
    ensures ShownRows(rows, Text(IntString(year)), previous) == FilterYear(rows, year)
  {
    ParseIntRoundTrip(year);
    assert IntString(year) != [] by {
      if year >= 0 { assert |Decimal(year)| > 0; }
    }
  }

  /** A form field as stored: the district as typed, anything else as an integer. */
  datatype FieldValue = TextValue(text: string) | NumberValue(number: int)

  /** `name === 'kecamatan' ? value : parseInt(value) || 0` */
  function FormValue(name: string, value: string): (v: FieldValue)
    ensures name == "kecamatan" ==> v == TextValue(value)
    ensures name != "kecamatan" ==> v.NumberValue? && (ParseInt(value).None? ==> v.number == 0)
    ensures name != "kecamatan" && ParseInt(value).Some? ==> v.number == ParseInt(value).value
  {
    if name == "kecamatan" then TextValue(value) else NumberValue(ParseIntOrZero(value))
  }

  /** An integer typed into a numeric field is stored as that integer; an empty field is stored as 0. */
  lemma FormValueOfInteger(name: string, n: int)
    requires name != "kecamatan"
    ensures FormValue(name, IntString(n)) == NumberValue(n)
    ensures FormValue(name, "") == NumberValue(0)
  {
    ParseIntRoundTrip(n);
    assert TrimStart("") == "";
    assert DigitPrefix("", 10) == [];
  }
}
