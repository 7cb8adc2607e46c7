/**
 * The bulk import of pages/api/disasters/upload.js: a POST carrying a year and
 * CSV text. The parsed rows are grouped per district (the `Kecamatan` column,
 * with the `"Kecamatan "` prefix the rest of the portal uses), the three
 * counts are summed per district in a JavaScript `Map` that keeps first-
 * insertion order, and the grouped records are upserted into `bencana` with
 * replace-on-conflict on (kecamatan, tahun).
 *
 * The CSV parser is outside the model: its output (the rows, as column name to
 * cell text, and the number of parse errors it reported) is an input here.
 */
module CsvUpload {
  import opened JsSemantics
  import opened Ledger

  const KecamatanColumn := "Kecamatan"
  const BanjirColumn := "Jumlah Desa/Kelurahan yang Mengalami Bencana Alam - Banjir"
  const GempaBumiColumn := "Jumlah Desa/Kelurahan yang Mengalami Bencana Alam - Gempa Bumi"
  const TanahLongsorColumn := "Jumlah Desa/Kelurahan yang Mengalami Bencana Alam - Tanah Longsor"

  /** One parsed CSV row in header mode: column name to cell text; a missing column reads as `undefined`. */
  type CsvRow = map<string, string>

  /** What the CSV parser returns for the request's text. */
  datatype ParseResult = ParseResult(rows: seq<CsvRow>, errorCount: nat)

  /** The request: its HTTP method and the two body fields (`None` when a field is absent). */
  datatype UploadRequest = UploadRequest(httpMethod: string, year: Option<string>, csvData: Option<string>)

  datatype UploadResponse = Failure(status: int, error: string) | Success(count: nat, affectedRows: nat)

  /** JavaScript truthiness of an optional string body field. */
  predicate Truthy(field: Option<string>)
  {
    field.Some? && field.value != ""
  }

  function Cell(row: CsvRow, column: string): Option<string>
  {
    if column in row then Some(row[column]) else None
  }

  /** The text a template literal prints for the `Kecamatan` cell (`undefined` when the column is absent). */
  function KecamatanText(row: CsvRow): string
  {
    match Cell(row, KecamatanColumn)
    case Some(s) => s
    case None => "undefined"
  }

  /** `` `Kecamatan ${row.Kecamatan}`.trim() `` */
  function DistrictName(row: CsvRow): string
  {
    Trim("Kecamatan " + KecamatanText(row))
  }

  /** `!kecamatan || kecamatan === 'Kecamatan'`: the row names no district. */
  predicate Skipped(row: CsvRow)
  {
    DistrictName(row) == "" || DistrictName(row) == "Kecamatan"
  }

  /** The three `parseInt(...) || 0` counts of a row. */
  function RowCounts(row: CsvRow): (c: Counts)
    ensures c.banjir == CellIntOrZero(Cell(row, BanjirColumn))
    ensures c.gempaBumi == CellIntOrZero(Cell(row, GempaBumiColumn))
    ensures c.tanahLongsor == CellIntOrZero(Cell(row, TanahLongsorColumn))
  {
    Counts(CellIntOrZero(Cell(row, BanjirColumn)),
           CellIntOrZero(Cell(row, GempaBumiColumn)),
           CellIntOrZero(Cell(row, TanahLongsorColumn)))
  }

  /** What one row contributes: its district and its counts, or nothing when it is skipped. */
  datatype Entry = Entry(kecamatan: string, counts: Counts)

  function RowEntry(row: CsvRow): Option<Entry>
  {
    if Skipped(row) then None else Some(Entry(DistrictName(row), RowCounts(row)))
  }

  function Entries(rows: seq<CsvRow>): (es: seq<Option<Entry>>)
    ensures |es| == |rows|
    ensures forall i :: 0 <= i < |rows| ==> es[i] == RowEntry(rows[i])
  {
    seq(|rows|, i requires 0 <= i < |rows| => RowEntry(rows[i]))
  }

  // ---------------------------------------------------------------------------
  // District normalisation

  lemma {:induction false} TrimEndAppend(p: string, s: string)
    requires !IsAllWhiteSpace(s)
    ensures TrimEnd(p + s) == p + TrimEnd(s)
    decreases |s|
  {
    var i :| 0 <= i < |s| && !IsWhiteSpace(s[i]);
    if IsWhiteSpace(s[|s| - 1]) {
      assert i < |s| - 1;
      assert s[..|s| - 1][i] == s[i];
      assert (p + s)[..|p + s| - 1] == p + s[..|s| - 1];
      TrimEndAppend(p, s[..|s| - 1]);
    } else {
      assert (p + s)[|p + s| - 1] == s[|s| - 1];
    }
  }

  lemma BlankAfterSpace(name: string)
    ensures IsAllWhiteSpace(" " + name) <==> IsAllWhiteSpace(name)
  {
    if IsAllWhiteSpace(name) {
      forall i | 0 <= i < |" " + name| ensures IsWhiteSpace((" " + name)[i]) {
        if i > 0 { assert (" " + name)[i] == name[i - 1]; }
      }
    }
    if IsAllWhiteSpace(" " + name) {
      forall i | 0 <= i < |name| ensures IsWhiteSpace(name[i]) {
        assert (" " + name)[i + 1] == name[i];
      }
    }
  }

  /**
   * Trimming a word that neither starts nor ends blank, a space and a text:
   * never empty, the bare word exactly when the text is blank, and otherwise
   * the word, the space and the text with its trailing blanks cut.
   */
  lemma PaddedTrim(p: string, name: string)
    requires p != [] && !IsWhiteSpace(p[0]) && !IsWhiteSpace(p[|p| - 1])
    ensures Trim(p + " " + name) != []
    ensures Trim(p + " " + name) == p <==> IsAllWhiteSpace(name)
    ensures !IsAllWhiteSpace(name) ==> Trim(p + " " + name) == p + " " + TrimEnd(name)
  {
    var tail := " " + name;
    var full := p + tail;
    assert p + " " + name == full;
    assert full[0] == p[0];
    TrimKeepsHead(full);
    TrimEndOfPaddedPrefix(p, tail);
    BlankAfterSpace(name);
    if !IsAllWhiteSpace(name) {
      var head := p + " ";
      assert full == head + name;
      TrimEndAppend(head, name);
    }
  }

  /**
   * A row is skipped exactly when its `Kecamatan` cell is blank (or empty);
   * otherwise its key is `"Kecamatan "` followed by the cell with trailing
   * blanks cut.
   */
  lemma DistrictNormalization(row: CsvRow)
    ensures Skipped(row) <==> IsAllWhiteSpace(KecamatanText(row))
    ensures !Skipped(row) ==> DistrictName(row) == "Kecamatan " + TrimEnd(KecamatanText(row))
  {
    var p := "Kecamatan";
    assert p[0] == 'K' && p[|p| - 1] == 'n';
    assert "Kecamatan " == p + " ";
    PaddedTrim(p, KecamatanText(row));
  }

  // ---------------------------------------------------------------------------
  // Group-and-sum over the row entries, as specification functions

  predicate Carries(e: Option<Entry>, name: string)
  {
    e.Some? && e.value.kecamatan == name
  }

  /** The summed counts of the entries filed under `name`. */
  function SumFor(es: seq<Option<Entry>>, name: string): Counts
  {
    if es == [] then Zero
    else
      var last := es[|es| - 1];
      Plus(SumFor(es[..|es| - 1], name), if Carries(last, name) then last.value.counts else Zero)
  }

  /** The districts of the non-skipped rows, each once, in order of first occurrence. */
  function DistinctNames(es: seq<Option<Entry>>): seq<string>
  {
    if es == [] then []
    else
      var names := DistinctNames(es[..|es| - 1]);
      var last := es[|es| - 1];
      if last.None? || last.value.kecamatan in names then names else names + [last.value.kecamatan]
  }

  predicate NoDuplicates(s: seq<string>)
  {
    forall i, j :: 0 <= i < j < |s| ==> s[i] != s[j]
  }

  predicate IsPrefix(p: seq<string>, s: seq<string>)
  {
    |p| <= |s| && s[..|p|] == p
  }

  /** Each district appears once, and a name appears exactly when some non-skipped row carries it. */
  lemma {:induction false} DistinctNamesExact(es: seq<Option<Entry>>)
    ensures NoDuplicates(DistinctNames(es))
    ensures forall n :: n in DistinctNames(es) <==> exists j :: 0 <= j < |es| && Carries(es[j], n)
  {
    if es != [] {
      var pre := es[..|es| - 1];
      DistinctNamesExact(pre);
      forall n ensures n in DistinctNames(es) <==> exists j :: 0 <= j < |es| && Carries(es[j], n) {
        if n in DistinctNames(es) && n in DistinctNames(pre) {
          var j :| 0 <= j < |pre| && Carries(pre[j], n);
          assert es[j] == pre[j];
        }
        if exists j :: 0 <= j < |es| && Carries(es[j], n) {
          var j :| 0 <= j < |es| && Carries(es[j], n);
          if j < |pre| {
            assert pre[j] == es[j];
          }
        }
      }
    }
  }

  /** First-occurrence order: the districts of any leading part of the rows come first, in the same order. */
  lemma {:induction false} DistinctNamesPrefix(es: seq<Option<Entry>>, j: nat)
    requires j <= |es|
    ensures IsPrefix(DistinctNames(es[..j]), DistinctNames(es))
    decreases |es|
  {
    if j < |es| {
      var pre := es[..|es| - 1];
      assert pre[..j] == es[..j];
      DistinctNamesPrefix(pre, j);
    } else {
      assert es[..j] == es;
    }
  }

  /** A district no row carries sums to zero. */
  lemma {:induction false} SumForAbsent(es: seq<Option<Entry>>, name: string)
    requires name !in DistinctNames(es)
    ensures SumFor(es, name) == Zero
  {
    if es != [] {
      var pre := es[..|es| - 1];
      assert name !in DistinctNames(pre);
      SumForAbsent(pre, name);
    }
  }

  /** The grouped records `Array.from(disastersMap.values())`, for the upload's `parseInt(year)`. */
  function Grouped(es: seq<Option<Entry>>, tahun: int): (records: seq<Row>)
    ensures |records| == |DistinctNames(es)|
  {
    var names := DistinctNames(es);
    seq(|names|, i requires 0 <= i < |names| => Row(names[i], tahun, SumFor(es, names[i])))
  }

  predicate DistinctKeys(records: seq<Row>)
  {
    forall i, j :: 0 <= i < j < |records| ==> RowKey(records[i]) != RowKey(records[j])
  }

  /** The districts the records name. */
  function Districts(records: seq<Row>): (names: seq<string>)
    ensures |names| == |records|
  {
    seq(|records|, i requires 0 <= i < |records| => records[i].kecamatan)
  }

  /**
   * The grouped output: one record per district, all of the upload's year, in
   * first-occurrence order, each holding the sums of its district's rows; a
   * district has a record exactly when some non-skipped row names it.
   */
  lemma GroupedShape(es: seq<Option<Entry>>, tahun: int)
    ensures var records := Grouped(es, tahun);
      && DistinctKeys(records)
      && Districts(records) == DistinctNames(es)
      && (forall i :: 0 <= i < |records| ==>
            records[i].tahun == tahun && records[i].counts == SumFor(es, records[i].kecamatan))
      && (forall n :: n in Districts(records) <==> exists j :: 0 <= j < |es| && Carries(es[j], n))
  {
    DistinctNamesExact(es);
    var records := Grouped(es, tahun);
    assert Districts(records) == DistinctNames(es);
  }

  // ---------------------------------------------------------------------------
  // Conservation: the merge neither loses nor double-counts a row

  /** The counts of all non-skipped rows together. */
  function SumAll(es: seq<Option<Entry>>): Counts
  {
    if es == [] then Zero
    else
      var last := es[|es| - 1];
      Plus(SumAll(es[..|es| - 1]), if last.None? then Zero else last.value.counts)
  }

  /** The values `f` gives the listed districts, added up. */
  function Accumulated(names: seq<string>, f: string -> Counts): Counts
  {
    if names == [] then Zero
    else Plus(Accumulated(names[..|names| - 1], f), f(names[|names| - 1]))
  }

  /** The per-district sums for the listed districts, added up. */
  function SumOver(es: seq<Option<Entry>>, names: seq<string>): Counts
  {
    Accumulated(names, n => SumFor(es, n))
  }

  /** The counters of a list of records, added up. */
  function RecordsTotal(records: seq<Row>): Counts
  {
    if records == [] then Zero
    else Plus(RecordsTotal(records[..|records| - 1]), records[|records| - 1].counts)
  }

  lemma {:induction false} AccumulatedPointwise(names: seq<string>, f: string -> Counts, f': string -> Counts)
    requires forall n :: n in names ==> f'(n) == f(n)
    ensures Accumulated(names, f') == Accumulated(names, f)
  {
    if names != [] {
      var pre := names[..|names| - 1];
      assert forall n :: n in pre ==> n in names by {
        forall n | n in pre ensures n in names {
          var i :| 0 <= i < |pre| && pre[i] == n;
          assert names[i] == n;
        }
      }
      AccumulatedPointwise(pre, f, f');
    }
  }

  /** Dropping the last name of a duplicate-free list keeps it duplicate-free and keeps every other name. */
  lemma DropLast(names: seq<string>, m: string)
    requires NoDuplicates(names) && m in names && m != names[|names| - 1]
    ensures var pre := names[..|names| - 1];
      NoDuplicates(pre) && m in pre && forall n :: n in pre ==> n in names
  {
    var pre := names[..|names| - 1];
    forall n | n in pre ensures n in names {
      var i :| 0 <= i < |pre| && pre[i] == n;
      assert names[i] == n;
    }
    var k :| 0 <= k < |names| && names[k] == m;
    assert pre[k] == m;
    forall i, j | 0 <= i < j < |pre| ensures pre[i] != pre[j] { assert pre[i] == names[i] && pre[j] == names[j]; }
  }

  /** Bumping the value of one listed district (listed once) bumps the total by the same amount. */
  lemma {:induction false} AccumulatedBump(names: seq<string>, f: string -> Counts, f': string -> Counts, m: string, delta: Counts)
    requires NoDuplicates(names) && m in names
    requires forall n :: n in names && n != m ==> f'(n) == f(n)
    requires f'(m) == Plus(f(m), delta)
    ensures Accumulated(names, f') == Plus(Accumulated(names, f), delta)
  {
    var pre := names[..|names| - 1];
    if names[|names| - 1] == m {
      forall n | n in pre ensures f'(n) == f(n) {
        var i :| 0 <= i < |pre| && pre[i] == n;
        assert names[i] == n && i < |names| - 1;
      }
      AccumulatedPointwise(pre, f, f');
    } else {
      DropLast(names, m);
      AccumulatedBump(pre, f, f', m, delta);
    }
  }

  lemma {:induction false} SumOverIsTotal(es: seq<Option<Entry>>, tahun: int, k: nat)
    requires k <= |DistinctNames(es)|
    ensures RecordsTotal(Grouped(es, tahun)[..k]) == SumOver(es, DistinctNames(es)[..k])
  {
    if k > 0 {
      var names := DistinctNames(es);
      assert Grouped(es, tahun)[..k][..k - 1] == Grouped(es, tahun)[..k - 1];
      assert names[..k][..k - 1] == names[..k - 1];
      SumOverIsTotal(es, tahun, k - 1);
    }
  }

  lemma {:induction false} SumOverDistinct(es: seq<Option<Entry>>)
    ensures SumOver(es, DistinctNames(es)) == SumAll(es)
  {
    if es != [] {
      var pre := es[..|es| - 1];
      var x := es[|es| - 1];
      var d := DistinctNames(pre);
      SumOverDistinct(pre);
      DistinctNamesExact(pre);
      var f, f' := n => SumFor(pre, n), n => SumFor(es, n);
      if x.None? {
        AccumulatedPointwise(d, f, f');
      } else if x.value.kecamatan in d {
        AccumulatedBump(d, f, f', x.value.kecamatan, x.value.counts);
      } else {
        var m := x.value.kecamatan;
        assert DistinctNames(es) == d + [m];
        assert (d + [m])[..|d|] == d;
        AccumulatedPointwise(d, f, f');
        SumForAbsent(pre, m);
      }
    }
  }

  /** The grouped records' counters add up to the counters of all non-skipped rows together. */
  lemma GroupedConservesCounts(es: seq<Option<Entry>>, tahun: int)
    ensures RecordsTotal(Grouped(es, tahun)) == SumAll(es)
  {
    var records := Grouped(es, tahun);
    var names := DistinctNames(es);
    SumOverIsTotal(es, tahun, |names|);
    assert records[..|names|] == records;
    assert names[..|names|] == names;
    SumOverDistinct(es);
  }

  // ---------------------------------------------------------------------------
  // The `disastersMap` loop

  /**
   * The `forEach` filling `disastersMap`, run over the rows' entries (each
   * row's trimmed district, or its skip, and its three counts), then
   * `Array.from(disastersMap.values())`.
   */
  method GroupRows(es: seq<Option<Entry>>, tahun: int) returns (records: seq<Row>)
    ensures records == Grouped(es, tahun)
  {
    var sums: map<string, Counts> := map[];
    var order: seq<string> := [];
    var i := 0;
    while i < |es|
      invariant 0 <= i <= |es|
      invariant order == DistinctNames(es[..i])
      invariant forall n :: n in sums <==> n in order
      invariant forall n :: n in sums ==> sums[n] == SumFor(es[..i], n)
    {
      var entry := es[i];
      assert es[..i + 1][..i] == es[..i];
      assert es[..i + 1][i] == entry;
      if entry.Some? {
        var kecamatan := entry.value.kecamatan;
        if kecamatan !in sums {
          SumForAbsent(es[..i], kecamatan);
          sums := sums[kecamatan := Zero];
          order := order + [kecamatan];
        }
        var existing := sums[kecamatan];
        sums := sums[kecamatan := Plus(existing, entry.value.counts)];
      }
      i := i + 1;
    }
    assert es[..i] == es;
    records := [];
    var j := 0;
    while j < |order|
      invariant 0 <= j <= |order|
      invariant |records| == j
      invariant forall k :: 0 <= k < j ==> records[k] == Row(order[k], tahun, sums[order[k]])
    {
      records := records + [Row(order[j], tahun, sums[order[j]])];
      j := j + 1;
    }
  }

  // ---------------------------------------------------------------------------
  // Upsert with replace-on-conflict on (kecamatan, tahun)

  function Upserted(ledger: Table, records: seq<Row>): Table
  {
    if records == [] then ledger
    else
      var last := records[|records| - 1];
      Upserted(ledger, records[..|records| - 1])[RowKey(last) := last.counts]
  }

  lemma {:induction false} UpsertIsUnion(ledger: Table, records: seq<Row>)
    ensures Upserted(ledger, records) == ledger + Upserted(map[], records)
  {
    if records != [] {
      UpsertIsUnion(ledger, records[..|records| - 1]);
    }
  }

  lemma {:induction false} UpsertedDomain(records: seq<Row>)
    ensures forall k :: k in Upserted(map[], records) <==> exists i :: 0 <= i < |records| && RowKey(records[i]) == k
  {
    if records != [] {
      var pre := records[..|records| - 1];
      UpsertedDomain(pre);
      forall k ensures k in Upserted(map[], records) <==> exists i :: 0 <= i < |records| && RowKey(records[i]) == k {
        if exists i :: 0 <= i < |pre| && RowKey(pre[i]) == k {
          var i :| 0 <= i < |pre| && RowKey(pre[i]) == k;
          assert records[i] == pre[i];
        }
        if exists i :: 0 <= i < |records| && RowKey(records[i]) == k {
          var i :| 0 <= i < |records| && RowKey(records[i]) == k;
          if i < |pre| { assert pre[i] == records[i]; }
        }
      }
    }
  }

  lemma {:induction false} UpsertedValues(records: seq<Row>)
    requires DistinctKeys(records)
    ensures forall i :: 0 <= i < |records| ==>
      RowKey(records[i]) in Upserted(map[], records) && Upserted(map[], records)[RowKey(records[i])] == records[i].counts
  {
    if records != [] {
      var pre := records[..|records| - 1];
      assert DistinctKeys(pre) by {
        forall i, j | 0 <= i < j < |pre| ensures RowKey(pre[i]) != RowKey(pre[j]) {
          assert pre[i] == records[i] && pre[j] == records[j];
        }
      }
      UpsertedValues(pre);
      forall i | 0 <= i < |records|
        ensures RowKey(records[i]) in Upserted(map[], records) && Upserted(map[], records)[RowKey(records[i])] == records[i].counts
      {
        if i < |pre| {
          assert records[i] == pre[i];
        }
      }
    }
  }

  /**
   * The upsert replaces the counters of every key it writes (whatever was
   * there before) and leaves every other row of the ledger as it was.
   */
  lemma UpsertReplaces(ledger: Table, records: seq<Row>)
    requires DistinctKeys(records)
    ensures var r := Upserted(ledger, records);
      && (forall i :: 0 <= i < |records| ==> RowKey(records[i]) in r && r[RowKey(records[i])] == records[i].counts)
      && (forall k :: (forall i :: 0 <= i < |records| ==> RowKey(records[i]) != k) ==>
            (k in r <==> k in ledger) && (k in r ==> r[k] == ledger[k]))
  {
    UpsertIsUnion(ledger, records);
    UpsertedDomain(records);
    UpsertedValues(records);
  }

  /** Importing the same records twice leaves the ledger as importing them once. */
  lemma UpsertIdempotent(ledger: Table, records: seq<Row>)
    ensures Upserted(Upserted(ledger, records), records) == Upserted(ledger, records)
  {
    var m := Upserted(map[], records);
    UpsertIsUnion(ledger, records);
    UpsertIsUnion(ledger + m, records);
    assert (ledger + m) + m == ledger + m;
  }

  // ---------------------------------------------------------------------------
  // The request handler

  /**
   * `handler`: check the method and the two fields, give up on any parse
   * error, group the rows, upsert them, and report how many records were
   * written. A year `parseInt` cannot read gives `NaN` for every record's
   * `tahun`; the model treats the upsert of such records as a store failure.
   */
  method HandleUpload(req: UploadRequest, parsed: ParseResult, ledger: Table) returns (resp: UploadResponse, ledger': Table)
    ensures req.httpMethod != "POST" ==> resp == Failure(405, "Method not allowed") && ledger' == ledger
    ensures req.httpMethod == "POST" && !(Truthy(req.year) && Truthy(req.csvData)) ==>
      resp == Failure(400, "Year and CSV data are required") && ledger' == ledger
    ensures req.httpMethod == "POST" && Truthy(req.year) && Truthy(req.csvData) && parsed.errorCount > 0 ==>
      resp == Failure(400, "Invalid CSV format") && ledger' == ledger
    ensures req.httpMethod == "POST" && Truthy(req.year) && Truthy(req.csvData) && parsed.errorCount == 0 ==>
      match ParseInt(req.year.value)
      case Some(tahun) =>
        var records := Grouped(Entries(parsed.rows), tahun);
        resp == Success(|records|, |records|) && ledger' == Upserted(ledger, records)
      case None =>
        if DistinctNames(Entries(parsed.rows)) == [] then resp == Success(0, 0) && ledger' == ledger
        else resp.Failure? && resp.status == 500 && ledger' == ledger
  {
    if req.httpMethod != "POST" {
      return Failure(405, "Method not allowed"), ledger;
    }
    if !Truthy(req.year) || !Truthy(req.csvData) {
      return Failure(400, "Year and CSV data are required"), ledger;
    }
    if parsed.errorCount > 0 {
      return Failure(400, "Invalid CSV format"), ledger;
    }
    var year := ParseInt(req.year.value);
    var disastersData := GroupRows(Entries(parsed.rows), if year.Some? then year.value else 0);
    if disastersData == [] {
      return Success(0, 0), ledger;
    }
    if year.None? {
      return Failure(500, "tahun is not a number"), ledger;
    }
    ledger' := Upserted(ledger, disastersData);
    resp := Success(|disastersData|, |disastersData|);
  }

  lemma GroupedSingle(e: Entry, tahun: int)
    ensures Grouped([Some(e)], tahun) == [Row(e.kecamatan, tahun, e.counts)]
  {
    var es := [Some(e)];
    assert es[..0] == [];
    assert DistinctNames(es) == [e.kecamatan];
    assert SumFor(es, e.kecamatan) == Plus(Zero, e.counts);
  }

  lemma NamedRowEntry(row: CsvRow)
    requires !IsAllWhiteSpace(KecamatanText(row))
    ensures RowEntry(row) == Some(Entry("Kecamatan " + TrimEnd(KecamatanText(row)), RowCounts(row)))
  {
    DistrictNormalization(row);
  }

  lemma NoCountColumns(row: CsvRow)
    requires BanjirColumn !in row && GempaBumiColumn !in row && TanahLongsorColumn !in row
    ensures RowCounts(row) == Zero
  {
  }

  lemma NamesOnlyEntry(name: string)
    requires !IsAllWhiteSpace(name)
    ensures Entries([map[KecamatanColumn := name]]) == [Some(Entry("Kecamatan " + TrimEnd(name), Zero))]
  {
    var row: CsvRow := map[KecamatanColumn := name];
    assert KecamatanText(row) == name;
    assert BanjirColumn != KecamatanColumn by { assert |BanjirColumn| != |KecamatanColumn|; }
    assert GempaBumiColumn != KecamatanColumn by { assert |GempaBumiColumn| != |KecamatanColumn|; }
    assert TanahLongsorColumn != KecamatanColumn by { assert |TanahLongsorColumn| != |KecamatanColumn|; }
    NoCountColumns(row);
    NamedRowEntry(row);
    assert Entries([row])[0] == RowEntry(row);
  }

  /**
   * A row naming a district but none of the three count columns is still
   * imported, as a row whose three counters are 0; so an import can leave the
   * ledger in a state the reconciler never produces.
   */
  lemma ImportMayWriteZeroRow(ledger: Table, name: string, tahun: int)
    requires !IsAllWhiteSpace(name)
    ensures var records := Grouped(Entries([map[KecamatanColumn := name]]), tahun);
      && records == [Row("Kecamatan " + TrimEnd(name), tahun, Zero)]
      && !WellFormed(Upserted(ledger, records))
  {
    var district := "Kecamatan " + TrimEnd(name);
    NamesOnlyEntry(name);
    GroupedSingle(Entry(district, Zero), tahun);
    var records := [Row(district, tahun, Zero)];
    assert records[..0] == [];
    assert Upserted(ledger, records)[Key(district, tahun)] == Zero;
  }
}
