/**
 * The first stages of the ETL (etl_expedientes.py): normalised case rows
 * from the two scraper exports, de-duplicated resolutions, and the forum and
 * jurisdiction dimension tables.
 */
module EtlCases {
  import opened Optional
  import opened Strings
  import opened Sorting
  import opened EtlText

  /** One row of a CSV file as `csv.DictReader` yields it: column -> text. */
  type CsvRow = map<string, string>

  /** `row.get(column)`. */
  function Get(row: CsvRow, column: string): Option<string> {
    if column in row then Some(row[column]) else None
  }

  /** `x or y` on values that are `None` or text. */
  function Or(x: Option<string>, y: Option<string>): Option<string> {
    if Truthy(x) then x else y
  }

  // ---------------------------------------------------------------------
  // procesar_expedientes
  // ---------------------------------------------------------------------

  /** One row of etl_expedientes.csv, with the forum kept for later stages. */
  datatype CaseRecord = CaseRecord(
    number: Option<string>,
    title: Option<string>,
    jurisdiction: string,
    court: Option<string>,
    stateId: nat,
    startDate: string,
    lastMove: string,
    chamber: string,
    startYear: Option<nat>,
    offences: Option<string>,
    prosecutor: Option<string>,
    office: Option<string>,
    forum: string)

  /** The raw filing summary of a row: taken as it is, not cleaned. */
  function FilingText(row: CsvRow): string {
    var f := Or(Get(row, "Radicación del expediente"), Get(row, "radicacion"));
    if Truthy(f) then f.value else []
  }

  function CaseNumber(row: CsvRow): Option<string> {
    CleanText(Or(Get(row, "Expediente"), Get(row, "numero_expediente")))
  }

  lemma CleanedNotBlank(x: Option<string>)
    ensures var c := CleanText(x); !Truthy(c) || !AllSpace(c.value)
  {
    CleanTextCollapsed(x);
  }

  /** The row built from a CSV row once its filing summary has been split. */
  function CaseRecordOf(row: CsvRow, stateId: nat, filing: Filing): CaseRecord {
    var number := CaseNumber(row);
    var lastMove := CleanText(Or(Get(row, "Última actualización"),
                              Or(Get(row, "fecha_ultimo_mov"), Get(row, "fecha_ultimo_movimiento"))));
    var chamberYear := ExtractChamberAndYear(number);
    CleanedNotBlank(Or(Get(row, "Expediente"), Get(row, "numero_expediente")));
    CaseRecord(
      number,
      CleanText(Or(Get(row, "Carátula"), Get(row, "caratula"))),
      InferJurisdiction(Some(FilingText(row))),
      CleanText(Some(filing.court)),
      stateId,
      ParseDate(Some(filing.date)),
      ParseDate(lastMove),
      chamberYear.0,
      chamberYear.1,
      CleanText(Or(Get(row, "Delitos"), Get(row, "delitos"))),
      CleanText(Some(filing.prosecutor)),
      CleanText(Some(filing.office)),
      InferForum(number))
  }

  /** The row procesar_reader appends for one CSV row. */
  function NormalizeCase(row: CsvRow, stateId: nat): CaseRecord {
    CaseRecordOf(row, stateId, FilingOf(FilingText(row)))
  }

  /** What every normalised row satisfies, whatever the CSV row held. */
  lemma NormalizeCaseFacts(row: CsvRow, stateId: nat)
    ensures var r := NormalizeCase(row, stateId);
      && r.stateId == stateId
      && (r.number.Some? ==> Collapsed(r.number.value))
      && (r.court.Some? ==> Collapsed(r.court.value))
      && (r.startDate == [] || IsIsoDate(r.startDate))
      && (r.lastMove == [] || IsIsoDate(r.lastMove))
      && (r.forum == Unknown || r.forum in Forums)
      && (r.chamber != UnknownChamber ==> r.forum in Forums)
      && (r.startYear.None? ==> r.chamber == UnknownChamber)
      && (r.jurisdiction == "Federal" || r.jurisdiction == "Nacional")
  {
    var f := FilingOf(FilingText(row));
    CleanedNotBlank(Or(Get(row, "Expediente"), Get(row, "numero_expediente")));
    CleanTextCollapsed(Or(Get(row, "Expediente"), Get(row, "numero_expediente")));
    CleanTextCollapsed(Some(f.court));
    ChamberImpliesForum(CaseNumber(row));
  }

  function NormalizeAll(rows: seq<CsvRow>, stateId: nat): (r: seq<CaseRecord>)
    ensures |r| == |rows|
    ensures forall i :: 0 <= i < |rows| ==> r[i].stateId == stateId
    decreases |rows|
  {
    if rows == [] then []
    else NormalizeAll(rows[..|rows| - 1], stateId) + [NormalizeCase(rows[|rows| - 1], stateId)]
  }

  /** procesar_reader: one record per CSV row, in order, and the per-state counter. */
  method ProcessCaseReader(rows: seq<CsvRow>, stateId: nat) returns (out: seq<CaseRecord>, count: nat)
    ensures out == NormalizeAll(rows, stateId)
    ensures count == |rows| == |out|
    ensures forall i :: 0 <= i < |out| ==> out[i].stateId == stateId
  {
    out, count := [], 0;
    for i := 0 to |rows|
      invariant out == NormalizeAll(rows[..i], stateId)
      invariant count == i
    {
      var row := rows[i];
      var filing := SplitFiling(FilingText(row));
      NormalizeAllSnoc(rows, i, stateId);
      out := out + [CaseRecordOf(row, stateId, filing)];
      count := count + 1;
    }
    assert rows[..|rows|] == rows;
  }

  lemma NormalizeAllSnoc(rows: seq<CsvRow>, i: nat, stateId: nat)
    requires i < |rows|
    ensures NormalizeAll(rows[..i + 1], stateId) == NormalizeAll(rows[..i], stateId) + [NormalizeCase(rows[i], stateId)]
  {
    assert rows[..i + 1][..i] == rows[..i];
  }

  /** The rows of an input file; a file that does not exist gives none. */
  function RowsOf(file: Option<seq<CsvRow>>): seq<CsvRow> {
    if file.Some? then file.value else []
  }

  /** procesar_expedientes: cases in progress (state 1) then finished ones
      (state 2). A missing input file is skipped, which is what reading no
      rows from it does. */
  method ProcesarExpedientes(inProgress: Option<seq<CsvRow>>, finished: Option<seq<CsvRow>>)
    returns (rows: seq<CaseRecord>, countInProgress: nat, countFinished: nat)
    ensures rows == NormalizeAll(RowsOf(inProgress), 1) + NormalizeAll(RowsOf(finished), 2)
    ensures countInProgress == |RowsOf(inProgress)| && countFinished == |RowsOf(finished)|
    ensures |rows| == countInProgress + countFinished
    ensures forall i :: 0 <= i < |rows| ==> (rows[i].stateId == 1 <==> i < countInProgress)
  {
    var first, second;
    first, countInProgress := ProcessCaseReader(RowsOf(inProgress), 1);
    second, countFinished := ProcessCaseReader(RowsOf(finished), 2);
    rows := first + second;
    StatesOfConcat(first, second);
  }

  /** In-progress rows first, finished rows after them. */
  lemma StatesOfConcat(first: seq<CaseRecord>, second: seq<CaseRecord>)
    requires forall i :: 0 <= i < |first| ==> first[i].stateId == 1
    requires forall i :: 0 <= i < |second| ==> second[i].stateId == 2
    ensures forall i :: 0 <= i < |first + second| ==> ((first + second)[i].stateId == 1 <==> i < |first|)
  {
  }

  // ---------------------------------------------------------------------
  // procesar_resoluciones
  // ---------------------------------------------------------------------

  datatype ResolutionRecord = ResolutionRecord(number: string, date: string, name: Option<string>, link: Option<string>)

  /** The de-duplication key `(expediente, fecha, nombre, link)`. */
  datatype ResolutionKey = ResolutionKey(number: Option<string>, date: string, name: Option<string>, link: Option<string>)

  function KeyOfRow(row: CsvRow): ResolutionKey {
    ResolutionKey(
      CleanText(Or(Get(row, "Expediente"), Get(row, "numero_expediente"))),
      ParseDate(Or(Get(row, "Fecha"), Get(row, "fecha"))),
      CleanText(Or(Get(row, "Nombre"), Get(row, "nombre"))),
      CleanText(Or(Get(row, "Link"), Get(row, "link"))))
  }

  function KeyOf(r: ResolutionRecord): ResolutionKey {
    ResolutionKey(Some(r.number), r.date, r.name, r.link)
  }

  function KeysOf(rows: seq<CsvRow>): (keys: seq<ResolutionKey>)
    ensures |keys| == |rows|
  {
    Mapped(KeyOfRow, rows)
  }

  function RecordOf(k: ResolutionKey): ResolutionRecord
    requires k.number.Some?
  {
    ResolutionRecord(k.number.value, k.date, k.name, k.link)
  }

  /** What `process` keeps of a reader, given the keys already seen: a row is
      kept when it has a case number and its key is new. Left fold over the
      rows' keys. */
  function Dedup(keys: seq<ResolutionKey>, seen: set<ResolutionKey>): (seq<ResolutionRecord>, set<ResolutionKey>)
    decreases |keys|
  {
    if keys == [] then ([], seen)
    else
      var acc := Dedup(keys[..|keys| - 1], seen);
      var k := keys[|keys| - 1];
      if Truthy(k.number) && k !in acc.1 then (acc.0 + [RecordOf(k)], acc.1 + {k})
      else acc
  }

  /** `process(reader)`: appends the new resolutions and records their keys. */
  method Process(rows: seq<CsvRow>, out0: seq<ResolutionRecord>, seen0: set<ResolutionKey>)
    returns (out: seq<ResolutionRecord>, seen: set<ResolutionKey>)
    ensures out == out0 + Dedup(KeysOf(rows), seen0).0
    ensures seen == Dedup(KeysOf(rows), seen0).1
  {
    out, seen := DedupRows(rows, KeyOfRow, out0, seen0);
  }

  /** The row loop of `process`, for any way of computing a row's key. */
  method DedupRows<Row>(rows: seq<Row>, keyOf: Row -> ResolutionKey, out0: seq<ResolutionRecord>, seen0: set<ResolutionKey>)
    returns (out: seq<ResolutionRecord>, seen: set<ResolutionKey>)
    ensures out == out0 + Dedup(Mapped(keyOf, rows), seen0).0
    ensures seen == Dedup(Mapped(keyOf, rows), seen0).1
  {
    out, seen := out0, seen0;
    for i := 0 to |rows|
      invariant out == out0 + Dedup(Mapped(keyOf, rows[..i]), seen0).0
      invariant seen == Dedup(Mapped(keyOf, rows[..i]), seen0).1
    {
      var key := keyOf(rows[i]);
      MappedSnoc(keyOf, rows, i);
      DedupRowsStep(out0, Mapped(keyOf, rows[..i]), key, seen0, out, seen);
      if Truthy(key.number) && key !in seen {
        out := out + [RecordOf(key)];
        seen := seen + {key};
      }
    }
    assert rows[..|rows|] == rows;
  }

  /** One step of the row loop keeps it in line with `Dedup`. */
  lemma DedupRowsStep(out0: seq<ResolutionRecord>, prev: seq<ResolutionKey>, key: ResolutionKey, seen0: set<ResolutionKey>,
                      out: seq<ResolutionRecord>, seen: set<ResolutionKey>)
    requires out == out0 + Dedup(prev, seen0).0 && seen == Dedup(prev, seen0).1
    ensures var kept := Truthy(key.number) && key !in seen;
      && (if kept then out + [RecordOf(key)] else out) == out0 + Dedup(prev + [key], seen0).0
      && (if kept then seen + {key} else seen) == Dedup(prev + [key], seen0).1
  {
    var acc := Dedup(prev, seen0);
    DedupSnoc(prev, key, seen0);
    if Truthy(key.number) {
      assert (out0 + acc.0) + [RecordOf(key)] == out0 + (acc.0 + [RecordOf(key)]);
    }
  }

  /** One more key: kept when it has a case number and is new. */
  lemma DedupSnoc(keys: seq<ResolutionKey>, k: ResolutionKey, seen: set<ResolutionKey>)
    ensures var acc := Dedup(keys, seen);
      Dedup(keys + [k], seen) ==
        if Truthy(k.number) && k !in acc.1 then (acc.0 + [RecordOf(k)], acc.1 + {k}) else acc
  {
    assert (keys + [k])[..|keys|] == keys;
  }

  /** The kept resolutions have a case number, distinct keys that were not
      seen before, and the seen set grows by exactly their keys. */
  lemma {:induction false} DedupSound(keys: seq<ResolutionKey>, seen: set<ResolutionKey>)
    ensures var (out, seen') := Dedup(keys, seen);
      && seen' == seen + (set r | r in out :: KeyOf(r))
      && (forall i :: 0 <= i < |out| ==> out[i].number != [] && KeyOf(out[i]) !in seen)
      && (forall i, j :: 0 <= i < j < |out| ==> KeyOf(out[i]) != KeyOf(out[j]))
    decreases |keys|
  {
    if keys != [] {
      DedupSound(keys[..|keys| - 1], seen);
      var acc := Dedup(keys[..|keys| - 1], seen);
      var k := keys[|keys| - 1];
      if Truthy(k.number) && k !in acc.1 {
        var r := RecordOf(k);
        assert KeyOf(r) == k;
        assert (set x | x in acc.0 + [r] :: KeyOf(x)) == (set x | x in acc.0 :: KeyOf(x)) + {k};
      }
    }
  }

  /** No resolution with a case number is lost: its key ends up seen. */
  lemma {:induction false} DedupComplete(keys: seq<ResolutionKey>, seen: set<ResolutionKey>)
    ensures seen <= Dedup(keys, seen).1
    ensures forall i :: 0 <= i < |keys| && Truthy(keys[i].number) ==> keys[i] in Dedup(keys, seen).1
    decreases |keys|
  {
    if keys != [] {
      var init := keys[..|keys| - 1];
      DedupComplete(init, seen);
      assert forall i :: 0 <= i < |init| ==> init[i] == keys[i];
    }
  }

  /** procesar_resoluciones: the in-progress file, then the finished one,
      sharing one seen set; a missing file is skipped. The counters are the
      number of new rows each file contributed. */
  method ProcesarResoluciones(inProgress: Option<seq<CsvRow>>, finished: Option<seq<CsvRow>>)
    returns (out: seq<ResolutionRecord>, countInProgress: nat, countFinished: nat)
    ensures var first := Dedup(KeysOf(RowsOf(inProgress)), {});
      var second := Dedup(KeysOf(RowsOf(finished)), first.1);
      && out == first.0 + second.0
      && countInProgress == |first.0| && countFinished == |second.0|
  {
    ghost var first := Dedup(KeysOf(RowsOf(inProgress)), {});
    var seen: set<ResolutionKey>;
    out, seen := Process(RowsOf(inProgress), [], {});
    assert out == first.0 && seen == first.1;
    countInProgress := |out|;
    out, seen := Process(RowsOf(finished), out, seen);
    countFinished := |out| - countInProgress;
  }

  /** The combined resolutions table has no two rows with the same key. */
  lemma ResolutionsDistinct(a: seq<ResolutionKey>, b: seq<ResolutionKey>)
    ensures var first := Dedup(a, {});
      var out := first.0 + Dedup(b, first.1).0;
      forall i, j :: 0 <= i < j < |out| ==> KeyOf(out[i]) != KeyOf(out[j])
  {
    var first := Dedup(a, {});
    var second := Dedup(b, first.1);
    DedupSound(a, {});
    DedupSound(b, first.1);
    var out := first.0 + second.0;
    forall i, j | 0 <= i < j < |out| ensures KeyOf(out[i]) != KeyOf(out[j]) {
      if j >= |first.0| && i < |first.0| {
        assert out[i] == first.0[i];
        assert KeyOf(out[i]) in first.1;
        assert out[j] == second.0[j - |first.0|];
      } else if i >= |first.0| {
        assert out[i] == second.0[i - |first.0|] && out[j] == second.0[j - |first.0|];
      }
    }
  }

  // ---------------------------------------------------------------------
  // generar_dim_fueros / generar_dim_jurisdicciones
  // ---------------------------------------------------------------------

  /** `[v for v in values if v]`. */
  function NonEmpty(values: seq<string>): (r: seq<string>)
    ensures forall v :: v in r <==> v in values && v != []
    decreases |values|
  {
    if values == [] then []
    else NonEmpty(values[..|values| - 1]) + (if values[|values| - 1] != [] then [values[|values| - 1]] else [])
  }

  function ForumColumn(cases: seq<CaseRecord>): seq<string> {
    seq(|cases|, i requires 0 <= i < |cases| => cases[i].forum)
  }

  function JurisdictionColumn(cases: seq<CaseRecord>): seq<string> {
    seq(|cases|, i requires 0 <= i < |cases| => cases[i].jurisdiction)
  }

  datatype ForumRow = ForumRow(id: nat, name: string)

  datatype JurisdictionRow = JurisdictionRow(id: nat, scope: string, province: Option<string>, district: string)

  /** generar_dim_fueros: one row per distinct non-empty forum, numbered from 1
      in string order. A frame built from no case rows has no "fuero" column,
      so `.get("fuero", [])` gives a list, whose `.tolist()` raises
      AttributeError: None. */
  function DimForums(cases: seq<CaseRecord>): (rows: Option<seq<ForumRow>>)
    ensures rows.None? <==> cases == []
    ensures rows.Some? ==> forall i :: 0 <= i < |rows.value| ==>
      rows.value[i].id == i + 1 && rows.value[i].name != [] && rows.value[i].name in ForumColumn(cases)
    ensures rows.Some? ==> forall i, j :: 0 <= i < j < |rows.value| ==> Less(rows.value[i].name, rows.value[j].name)
    ensures rows.Some? ==> forall k :: 0 <= k < |cases| && cases[k].forum != [] ==>
      exists i :: 0 <= i < |rows.value| && rows.value[i].name == cases[k].forum
  {
    if cases == [] then None
    else
      var names := SortedDistinct(NonEmpty(ForumColumn(cases)));
      var rows := seq(|names|, i requires 0 <= i < |names| => ForumRow(i + 1, names[i]));
      assert forall i :: 0 <= i < |names| ==> names[i] in names;
      forall k | 0 <= k < |cases| && cases[k].forum != []
        ensures exists i :: 0 <= i < |rows| && rows[i].name == cases[k].forum
      {
        assert ForumColumn(cases)[k] == cases[k].forum;
        assert cases[k].forum in names;
        var i :| 0 <= i < |names| && names[i] == cases[k].forum;
        assert rows[i].name == cases[k].forum;
      }
      Some(rows)
  }

  /** generar_dim_jurisdicciones: one row per distinct non-empty jurisdiction,
      numbered from 1 in string order, with no province and the fixed district;
      None for no case rows, where `.tolist()` raises AttributeError. */
  function DimJurisdictions(cases: seq<CaseRecord>): (rows: Option<seq<JurisdictionRow>>)
    ensures rows.None? <==> cases == []
    ensures rows.Some? ==> forall i :: 0 <= i < |rows.value| ==>
      && rows.value[i].id == i + 1 && rows.value[i].province.None? && rows.value[i].district == "Comodoro Py"
      && rows.value[i].scope != [] && rows.value[i].scope in JurisdictionColumn(cases)
    ensures rows.Some? ==> forall i, j :: 0 <= i < j < |rows.value| ==> Less(rows.value[i].scope, rows.value[j].scope)
    ensures rows.Some? ==> forall k :: 0 <= k < |cases| && cases[k].jurisdiction != [] ==>
      exists i :: 0 <= i < |rows.value| && rows.value[i].scope == cases[k].jurisdiction
  {
    if cases == [] then None
    else
      var names := SortedDistinct(NonEmpty(JurisdictionColumn(cases)));
      var rows := seq(|names|, i requires 0 <= i < |names| => JurisdictionRow(i + 1, names[i], None, "Comodoro Py"));
      assert forall i :: 0 <= i < |names| ==> names[i] in names;
      forall k | 0 <= k < |cases| && cases[k].jurisdiction != []
        ensures exists i :: 0 <= i < |rows| && rows[i].scope == cases[k].jurisdiction
      {
        assert JurisdictionColumn(cases)[k] == cases[k].jurisdiction;
        assert cases[k].jurisdiction in names;
        var i :| 0 <= i < |names| && names[i] == cases[k].jurisdiction;
        assert rows[i].scope == cases[k].jurisdiction;
      }
      Some(rows)
  }
}
