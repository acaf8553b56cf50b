/**
 * generar_dim_tribunales (etl_expedientes.py): the court dimension, built
 * from the normalised cases and enriched from the court directory file, with
 * ids given in name order and a jurisdiction id per court.
 */
module EtlCourts {
  import opened Optional
  import opened Strings
  import opened Sorting
  import opened EtlText
  import opened EtlCases

  // ---------------------------------------------------------------------
  // Cells of a table read with pandas
  // ---------------------------------------------------------------------

  /** A cell of a CSV file read with `pd.read_csv`: an empty field reads as NaN. */
  datatype Cell = NaN | Text(text: string)

  /** `limpiar_texto(cell)` as the code applies it: NaN is not None, so
      `str(nan)`, the text "nan", is what gets cleaned, and cleaning keeps it
      (NanIsClean). */
  function CleanCellAsWritten(c: Cell): Option<string> {
    match c
    case NaN => Some("nan")
    case Text(s) => CleanText(Some(s))
  }

  /** A missing cell cleans to None, as the `pd.notna` guards elsewhere in the
      same file intend. */
  function CleanCell(c: Cell): Option<string> {
    match c
    case NaN => None
    case Text(s) => CleanText(Some(s))
  }

  /** `get(row, key)`: the cleaned cell of the column mapped to `key`, or None
      when no column is mapped. `cell` is None when no column is mapped. */
  function FieldAsWritten(cell: Option<Cell>): Option<string> {
    if cell.None? then None else CleanCellAsWritten(cell.value)
  }

  function Field(cell: Option<Cell>): Option<string> {
    if cell.None? then None else CleanCell(cell.value)
  }

  /** The two readings agree on every cell that holds text; on a NaN cell the
      code as written yields the text "nan", where None is meant. */
  lemma FieldReadings(cell: Option<Cell>)
    ensures cell != Some(NaN) ==> Field(cell) == FieldAsWritten(cell)
    ensures cell == Some(NaN) ==> Field(cell) == None && FieldAsWritten(cell) == Some("nan")
  {
    if cell == Some(NaN) {
      NanIsClean();
    }
  }

  lemma NanIsClean()
    ensures CleanText(Some("nan")) == Some("nan")
  {
    assert Collapsed("nan");
    CleanTextFixes("nan");
  }

  // ---------------------------------------------------------------------
  // Contact text
  // ---------------------------------------------------------------------

  /** `" | ".join(p for p in [f"Tel: {tel}" if tel else None,
      f"Email: {mail}" if mail else None] if p)`. */
  function ContactOf(tel: Option<string>, mail: Option<string>): (r: string)
    ensures r == [] <==> !Truthy(tel) && !Truthy(mail)
    ensures Truthy(tel) && Truthy(mail) ==> r == ("Tel: " + tel.value) + " | " + ("Email: " + mail.value)
    ensures Truthy(tel) && !Truthy(mail) ==> r == "Tel: " + tel.value
    ensures !Truthy(tel) && Truthy(mail) ==> r == "Email: " + mail.value
  {
    var parts := (if Truthy(tel) then ["Tel: " + tel.value] else [])
               + (if Truthy(mail) then ["Email: " + mail.value] else []);
    Join2(" | ", "Tel: " + (if Truthy(tel) then tel.value else []), "Email: " + (if Truthy(mail) then mail.value else []));
    Join(" | ", parts)
  }

  /** A directory row whose phone cell is empty gets the contact "Tel: nan". */
  lemma NaNPhoneAsWritten(phone: Option<Cell>)
    requires phone == Some(NaN)
    ensures FieldAsWritten(phone) == Some("nan") && ContactOf(FieldAsWritten(phone), None) == "Tel: " + "nan"
  {
    FieldReadings(phone);
    PhoneOnly("nan");
  }

  lemma PhoneOnly(tel: string)
    requires tel != []
    ensures ContactOf(Some(tel), None) == "Tel: " + tel
  {
  }

  /** With the cell read as missing, an empty phone cell adds nothing to the
      contact, and a row with neither phone nor e-mail leaves it unset. */
  lemma NaNPhoneCorrected(mail: Option<Cell>)
    ensures ContactOf(Field(Some(NaN)), Field(mail)) == ContactOf(None, Field(mail))
    ensures ContactOf(Field(Some(NaN)), Field(Some(NaN))) == []
  {
  }

  // ---------------------------------------------------------------------
  // The courts dictionary
  // ---------------------------------------------------------------------

  datatype Court = Court(
    name: string,
    instance: string,
    seat: Option<string>,
    contact: Option<string>,
    forum: Option<string>,
    jurisdiction: Option<string>)

  /** The `tribunales` dictionary: its keys in insertion order, and its entries. */
  datatype Courts = Courts(names: seq<string>, byName: map<string, Court>)

  /** Every key is listed and every entry is filed under its own name. */
  ghost predicate Valid(cs: Courts) {
    && (forall n :: n in cs.names <==> n in cs.byName)
    && (forall n :: n in cs.byName ==> cs.byName[n].name == n)
  }

  /** What one row of either loop contributes: the cleaned court name, the
      fields a new court gets, and the contact text ("" when there is none). */
  datatype Entry = Entry(
    name: Option<string>,
    instance: string,
    seat: Option<string>,
    forum: Option<string>,
    jurisdiction: Option<string>,
    contact: string)

  /** The dictionary update both loops perform: a new name adds a court with
      the row's fields and no contact; then a non-empty contact replaces the
      court's contact. */
  function Insert(cs: Courts, e: Entry): Courts {
    if !Truthy(e.name) then cs
    else
      var n := e.name.value;
      var cs1 :=
        if n in cs.byName then cs
        else Courts(cs.names + [n], cs.byName[n := Court(n, e.instance, e.seat, None, e.forum, e.jurisdiction)]);
      if e.contact != [] then Courts(cs1.names, cs1.byName[n := cs1.byName[n].(contact := Some(e.contact))])
      else cs1
  }

  function InsertAll(cs: Courts, es: seq<Entry>): Courts
    decreases |es|
  {
    if es == [] then cs else Insert(InsertAll(cs, es[..|es| - 1]), es[|es| - 1])
  }

  /** A case row: its court, cleaned again, as a first-instance court with the
      case's forum and jurisdiction and no contact. */
  function CaseEntry(c: CaseRecord): Entry {
    Entry(CleanText(c.court), "Primera Instancia", None, Some(c.forum), Some(c.jurisdiction), [])
  }

  function CaseEntries(cases: seq<CaseRecord>): seq<Entry> {
    seq(|cases|, k requires 0 <= k < |cases| => CaseEntry(cases[k]))
  }

  /** The columns of a directory row that `get` can reach; None where no column
      of the file maps to that key. */
  datatype SourceRow = SourceRow(
    name: Option<Cell>,
    instance: Option<Cell>,
    seat: Option<Cell>,
    phone: Option<Cell>,
    email: Option<Cell>,
    forum: Option<Cell>,
    jurisdiction: Option<Cell>)

  /** A directory row: instance "N/D" when the row has none, and the contact
      built from its phone and e-mail. */
  function SourceEntry(row: SourceRow): Entry {
    var instance := FieldAsWritten(row.instance);
    Entry(FieldAsWritten(row.name), if Truthy(instance) then instance.value else "N/D",
          FieldAsWritten(row.seat), FieldAsWritten(row.forum), FieldAsWritten(row.jurisdiction),
          ContactOf(FieldAsWritten(row.phone), FieldAsWritten(row.email)))
  }

  /** The same row read with a missing cell as None, as intended. */
  function SourceEntryIntended(row: SourceRow): Entry {
    var instance := Field(row.instance);
    Entry(Field(row.name), if Truthy(instance) then instance.value else "N/D",
          Field(row.seat), Field(row.forum), Field(row.jurisdiction),
          ContactOf(Field(row.phone), Field(row.email)))
  }

  /** As written, empty cells of a directory row become the text "nan": a
      court named "nan", an instance "nan", a contact "Tel: nan | Email: nan". */
  lemma NaNCellsAsWritten(row: SourceRow)
    ensures row.name == Some(NaN) ==> SourceEntry(row).name == Some("nan")
    ensures row.instance == Some(NaN) ==> SourceEntry(row).instance == "nan"
    ensures row.seat == Some(NaN) ==> SourceEntry(row).seat == Some("nan")
    ensures row.phone == Some(NaN) && row.email == Some(NaN) ==>
      SourceEntry(row).contact == ("Tel: " + "nan") + " | " + ("Email: " + "nan")
  {
    NanIsClean();
  }

  /** Read as intended, the same row adds no court when its name is empty,
      says "N/D" for an empty instance and gives no contact when both phone
      and e-mail are empty; on a row without empty cells both readings agree. */
  lemma NaNCellsCorrected(cs: Courts, row: SourceRow)
    ensures row.name == Some(NaN) ==> Insert(cs, SourceEntryIntended(row)) == cs
    ensures row.instance == Some(NaN) ==> SourceEntryIntended(row).instance == "N/D"
    ensures row.seat == Some(NaN) ==> SourceEntryIntended(row).seat == None
    ensures row.phone == Some(NaN) && row.email == Some(NaN) ==> SourceEntryIntended(row).contact == []
    ensures Some(NaN) !in [row.name, row.instance, row.seat, row.phone, row.email, row.forum, row.jurisdiction] ==>
      SourceEntryIntended(row) == SourceEntry(row)
  {
    FieldReadings(row.name);
    FieldReadings(row.instance);
    FieldReadings(row.seat);
    FieldReadings(row.phone);
    FieldReadings(row.email);
    FieldReadings(row.forum);
    FieldReadings(row.jurisdiction);
  }

  function SourceEntries(rows: seq<SourceRow>): seq<Entry> {
    seq(|rows|, k requires 0 <= k < |rows| => SourceEntry(rows[k]))
  }

  /** The dictionary after both loops. */
  function CourtsOf(cases: seq<CaseRecord>, directory: seq<SourceRow>): Courts {
    InsertAll(InsertAll(Courts([], map[]), CaseEntries(cases)), SourceEntries(directory))
  }

  // ---------------------------------------------------------------------
  // Properties of the dictionary updates
  // ---------------------------------------------------------------------

  lemma InsertFacts(cs: Courts, e: Entry)
    requires Valid(cs)
    ensures var cs' := Insert(cs, e);
      && Valid(cs')
      && cs'.byName.Keys == cs.byName.Keys + (if Truthy(e.name) then {e.name.value} else {})
      && (forall n :: n in cs.byName && Some(n) != e.name ==> cs'.byName[n] == cs.byName[n])
  {
  }

  /** The keys after the updates are the old keys and the non-empty names of
      the rows. */
  lemma {:induction false} InsertAllKeys(cs: Courts, es: seq<Entry>)
    requires Valid(cs)
    ensures Valid(InsertAll(cs, es))
    ensures forall n :: n in InsertAll(cs, es).byName <==>
      n in cs.byName || exists k :: 0 <= k < |es| && es[k].name == Some(n) && n != []
    decreases |es|
  {
    if es != [] {
      var init := es[..|es| - 1];
      InsertAllKeys(cs, init);
      InsertFacts(InsertAll(cs, init), es[|es| - 1]);
      forall n ensures n in InsertAll(cs, es).byName <==>
        n in cs.byName || exists k :: 0 <= k < |es| && es[k].name == Some(n) && n != []
      {
        if exists k :: 0 <= k < |es| && es[k].name == Some(n) && n != [] {
          var k :| 0 <= k < |es| && es[k].name == Some(n) && n != [];
          if k < |init| {
            assert init[k] == es[k];
          }
        }
        if exists k :: 0 <= k < |init| && init[k].name == Some(n) && n != [] {
          var k :| 0 <= k < |init| && init[k].name == Some(n) && n != [];
          assert es[k] == init[k];
        }
      }
    }
  }

  /** The updates keep the dictionary well formed. */
  lemma {:induction false} InsertAllValid(cs: Courts, es: seq<Entry>)
    requires Valid(cs)
    ensures Valid(InsertAll(cs, es))
    decreases |es|
  {
    if es != [] {
      InsertAllValid(cs, es[..|es| - 1]);
      InsertFacts(InsertAll(cs, es[..|es| - 1]), es[|es| - 1]);
    }
  }

  /** Rows naming other courts leave a court as it is. */
  lemma {:induction false} InsertAllOthers(cs: Courts, es: seq<Entry>, n: string)
    requires Valid(cs) && n in cs.byName
    requires forall k :: 0 <= k < |es| ==> es[k].name != Some(n)
    ensures n in InsertAll(cs, es).byName && InsertAll(cs, es).byName[n] == cs.byName[n]
    decreases |es|
  {
    if es != [] {
      var init := es[..|es| - 1];
      assert forall k :: 0 <= k < |init| ==> init[k] == es[k];
      InsertAllOthers(cs, init, n);
      InsertAllValid(cs, init);
      InsertFacts(InsertAll(cs, init), es[|es| - 1]);
    }
  }

  /** Once a court exists, later rows change only its contact. */
  lemma {:induction false} InsertAllKeepsFields(cs: Courts, es: seq<Entry>, n: string)
    requires Valid(cs) && n in cs.byName
    ensures n in InsertAll(cs, es).byName
    ensures InsertAll(cs, es).byName[n].(contact := cs.byName[n].contact) == cs.byName[n]
    decreases |es|
  {
    if es != [] {
      var init := es[..|es| - 1];
      InsertAllKeepsFields(cs, init, n);
      InsertAllValid(cs, init);
      InsertFacts(InsertAll(cs, init), es[|es| - 1]);
    }
  }

  /** The first row that names a new court decides all of its fields but the
      contact. */
  lemma FirstRowWins(cs: Courts, es: seq<Entry>, k: nat, n: string)
    requires Valid(cs) && n !in cs.byName && n != []
    requires k < |es| && es[k].name == Some(n)
    requires forall j :: 0 <= j < k ==> es[j].name != Some(n)
    ensures n in InsertAll(cs, es).byName
    ensures InsertAll(cs, es).byName[n].(contact := None) ==
      Court(n, es[k].instance, es[k].seat, None, es[k].forum, es[k].jurisdiction)
  {
    var before := es[..k];
    var upTo := es[..k + 1];
    InsertAllAbsent(cs, before, n);
    InsertAllValid(cs, before);
    assert upTo[..k] == before && upTo[k] == es[k];
    InsertNew(InsertAll(cs, before), es[k]);
    InsertAllValid(cs, upTo);
    InsertAllSplit(cs, es, k + 1);
    InsertAllKeepsFields(InsertAll(cs, upTo), es[k + 1..], n);
  }

  lemma InsertNew(cs: Courts, e: Entry)
    requires Valid(cs) && Truthy(e.name) && e.name.value !in cs.byName
    ensures e.name.value in Insert(cs, e).byName
    ensures Insert(cs, e).byName[e.name.value].(contact := None) ==
      Court(e.name.value, e.instance, e.seat, None, e.forum, e.jurisdiction)
  {
  }

  /** A name no row mentions stays absent. */
  lemma {:induction false} InsertAllAbsent(cs: Courts, es: seq<Entry>, n: string)
    requires n !in cs.byName
    requires forall j :: 0 <= j < |es| ==> es[j].name != Some(n)
    ensures n !in InsertAll(cs, es).byName
    decreases |es|
  {
    if es != [] {
      var init := es[..|es| - 1];
      assert forall j :: 0 <= j < |init| ==> init[j] == es[j];
      InsertAllAbsent(cs, init, n);
    }
  }

  lemma {:induction false} InsertAllSplit(cs: Courts, es: seq<Entry>, k: nat)
    requires k <= |es|
    ensures InsertAll(cs, es) == InsertAll(InsertAll(cs, es[..k]), es[k..])
    decreases |es|
  {
    if k < |es| {
      var init := es[..|es| - 1];
      InsertAllSplit(cs, init, k);
      assert init[..k] == es[..k];
      assert es[k..][..|es[k..]| - 1] == init[k..];
    } else {
      assert es[..k] == es;
    }
  }

  /** The contact of a court is the last non-empty contact among the rows that
      name it. */
  lemma {:induction false} LastContactWins(cs: Courts, es: seq<Entry>, k: nat, n: string)
    requires Valid(cs) && n != []
    requires k < |es| && es[k].name == Some(n) && es[k].contact != []
    requires forall j :: k < j < |es| && es[j].name == Some(n) ==> es[j].contact == []
    ensures n in InsertAll(cs, es).byName
    ensures InsertAll(cs, es).byName[n].contact == Some(es[k].contact)
    decreases |es|
  {
    var init := es[..|es| - 1];
    InsertAllValid(cs, init);
    InsertFacts(InsertAll(cs, init), es[|es| - 1]);
    if k < |init| {
      assert forall j :: k < j < |init| ==> init[j] == es[j];
      assert init[k] == es[k];
      LastContactWins(cs, init, k, n);
    }
  }

  /** A court that no row gives a contact keeps the one it had. */
  lemma {:induction false} NoContactKept(cs: Courts, es: seq<Entry>, n: string)
    requires Valid(cs) && n in cs.byName
    requires forall j :: 0 <= j < |es| && es[j].name == Some(n) ==> es[j].contact == []
    ensures n in InsertAll(cs, es).byName
    ensures InsertAll(cs, es).byName[n].contact == cs.byName[n].contact
    decreases |es|
  {
    if es != [] {
      var init := es[..|es| - 1];
      assert forall j :: 0 <= j < |init| ==> init[j] == es[j];
      NoContactKept(cs, init, n);
      InsertAllValid(cs, init);
      InsertFacts(InsertAll(cs, init), es[|es| - 1]);
    }
  }

  /** A court that gets no contact from any row ends without one if it had none. */
  lemma {:induction false} InsertAllNoNew(cs: Courts, es: seq<Entry>, n: string)
    requires Valid(cs) && (n in cs.byName ==> cs.byName[n].contact.None?)
    requires forall j :: 0 <= j < |es| && es[j].name == Some(n) ==> es[j].contact == []
    ensures n in InsertAll(cs, es).byName ==> InsertAll(cs, es).byName[n].contact.None?
    decreases |es|
  {
    if es != [] {
      var init := es[..|es| - 1];
      assert forall j :: 0 <= j < |init| ==> init[j] == es[j];
      InsertAllNoNew(cs, init, n);
      InsertAllValid(cs, init);
      InsertFacts(InsertAll(cs, init), es[|es| - 1]);
    }
  }

  /** The courts the cases name carry no contact. */
  lemma {:induction false} CaseCourtsHaveNoContact(cases: seq<CaseRecord>)
    ensures Valid(InsertAll(Courts([], map[]), CaseEntries(cases)))
    ensures forall n :: n in InsertAll(Courts([], map[]), CaseEntries(cases)).byName ==>
      InsertAll(Courts([], map[]), CaseEntries(cases)).byName[n].contact.None?
  {
    InsertAllNoContact(Courts([], map[]), CaseEntries(cases));
  }

  lemma {:induction false} InsertAllNoContact(cs: Courts, es: seq<Entry>)
    requires Valid(cs) && forall n :: n in cs.byName ==> cs.byName[n].contact.None?
    requires forall k :: 0 <= k < |es| ==> es[k].contact == []
    ensures Valid(InsertAll(cs, es))
    ensures forall n :: n in InsertAll(cs, es).byName ==> InsertAll(cs, es).byName[n].contact.None?
    decreases |es|
  {
    if es != [] {
      var init := es[..|es| - 1];
      assert forall k :: 0 <= k < |init| ==> init[k] == es[k];
      InsertAllNoContact(cs, init);
      InsertFacts(InsertAll(cs, init), es[|es| - 1]);
    }
  }

  /** The courts of the dimension are the cleaned court names of the cases
      and the names of the directory rows, and nothing else. */
  lemma CourtsOfKeys(cases: seq<CaseRecord>, directory: seq<SourceRow>, n: string)
    ensures n in CourtsOf(cases, directory).byName <==>
      (exists k :: 0 <= k < |cases| && CleanText(cases[k].court) == Some(n))
      || (exists k :: 0 <= k < |directory| && FieldAsWritten(directory[k].name) == Some(n) && n != [])
  {
    var empty := Courts([], map[]);
    var ces := CaseEntries(cases);
    var ses := SourceEntries(directory);
    InsertAllKeys(empty, ces);
    InsertAllKeys(InsertAll(empty, ces), ses);
    CaseEntryNames(cases, n);
    SourceEntryNames(directory, n);
  }

  lemma CaseEntryNames(cases: seq<CaseRecord>, n: string)
    ensures (exists k :: 0 <= k < |CaseEntries(cases)| && CaseEntries(cases)[k].name == Some(n) && n != [])
      <==> exists k :: 0 <= k < |cases| && CleanText(cases[k].court) == Some(n)
  {
    var ces := CaseEntries(cases);
    if exists k :: 0 <= k < |cases| && CleanText(cases[k].court) == Some(n) {
      var k :| 0 <= k < |cases| && CleanText(cases[k].court) == Some(n);
      assert ces[k].name == Some(n) && n != [];
    }
  }

  lemma SourceEntryNames(directory: seq<SourceRow>, n: string)
    ensures (exists k :: 0 <= k < |SourceEntries(directory)| && SourceEntries(directory)[k].name == Some(n) && n != [])
      <==> exists k :: 0 <= k < |directory| && FieldAsWritten(directory[k].name) == Some(n) && n != []
  {
    var ses := SourceEntries(directory);
    if exists k :: 0 <= k < |directory| && FieldAsWritten(directory[k].name) == Some(n) && n != [] {
      var k :| 0 <= k < |directory| && FieldAsWritten(directory[k].name) == Some(n) && n != [];
      assert ses[k].name == Some(n);
    }
  }

  /** A court first named by case k is a first-instance court with that
      case's forum and jurisdiction, whatever the directory says about it
      besides its contact. */
  lemma CaseCourtFields(cases: seq<CaseRecord>, directory: seq<SourceRow>, k: nat, n: string)
    requires k < |cases| && CleanText(cases[k].court) == Some(n)
    requires forall j :: 0 <= j < k ==> CleanText(cases[j].court) != Some(n)
    ensures n in CourtsOf(cases, directory).byName
    ensures CourtsOf(cases, directory).byName[n].(contact := None) ==
      Court(n, "Primera Instancia", None, None, Some(cases[k].forum), Some(cases[k].jurisdiction))
  {
    var empty := Courts([], map[]);
    var ces := CaseEntries(cases);
    assert ces[k].name == Some(n) && n != [];
    assert forall j :: 0 <= j < k ==> ces[j].name == CleanText(cases[j].court);
    FirstRowWins(empty, ces, k, n);
    InsertAllValid(empty, ces);
    InsertAllKeepsFields(InsertAll(empty, ces), SourceEntries(directory), n);
  }

  /** A court only the directory names takes the fields of its first row
      there, with instance "N/D" when that row has none. */
  lemma DirectoryCourtFields(cases: seq<CaseRecord>, directory: seq<SourceRow>, k: nat, n: string)
    requires forall j :: 0 <= j < |cases| ==> CleanText(cases[j].court) != Some(n)
    requires k < |directory| && FieldAsWritten(directory[k].name) == Some(n) && n != []
    requires forall j :: 0 <= j < k ==> FieldAsWritten(directory[j].name) != Some(n)
    ensures n in CourtsOf(cases, directory).byName
    ensures var c := CourtsOf(cases, directory).byName[n];
      && c.seat == FieldAsWritten(directory[k].seat)
      && c.forum == FieldAsWritten(directory[k].forum)
      && c.jurisdiction == FieldAsWritten(directory[k].jurisdiction)
      && (Truthy(FieldAsWritten(directory[k].instance)) ==> c.instance == FieldAsWritten(directory[k].instance).value)
      && (!Truthy(FieldAsWritten(directory[k].instance)) ==> c.instance == "N/D")
  {
    var empty := Courts([], map[]);
    var ces := CaseEntries(cases);
    var ses := SourceEntries(directory);
    InsertAllValid(empty, ces);
    assert n !in InsertAll(empty, ces).byName by {
      CourtsOfKeysCases(cases, n);
    }
    var e := SourceEntry(directory[k]);
    assert ses[k] == e && e.name == Some(n);
    assert forall j :: 0 <= j < k ==> ses[j].name == FieldAsWritten(directory[j].name);
    FirstRowWins(InsertAll(empty, ces), ses, k, n);
    assert CourtsOf(cases, directory) == InsertAll(InsertAll(empty, ces), ses);
    var c := CourtsOf(cases, directory).byName[n];
    assert c.(contact := None) == Court(n, e.instance, e.seat, None, e.forum, e.jurisdiction);
  }

  /** As written, a directory row with an empty name cell puts a court named
      "nan" in the dimension. */
  lemma NaNCourtAsWritten(cases: seq<CaseRecord>, directory: seq<SourceRow>, k: nat)
    requires k < |directory| && directory[k].name == Some(NaN)
    ensures "nan" in CourtsOf(cases, directory).byName
  {
    FieldReadings(directory[k].name);
    CourtsOfKeys(cases, directory, "nan");
  }

  lemma CourtsOfKeysCases(cases: seq<CaseRecord>, n: string)
    requires forall j :: 0 <= j < |cases| ==> CleanText(cases[j].court) != Some(n)
    ensures n !in InsertAll(Courts([], map[]), CaseEntries(cases)).byName
  {
    var ces := CaseEntries(cases);
    assert forall j :: 0 <= j < |ces| ==> ces[j].name != Some(n);
    InsertAllAbsent(Courts([], map[]), ces, n);
  }

  /** The contact of a court is the one its last directory row with a phone
      or an e-mail gives it; a court that no such row names has none. */
  lemma CourtContact(cases: seq<CaseRecord>, directory: seq<SourceRow>, n: string)
    requires n in CourtsOf(cases, directory).byName
    ensures var c := CourtsOf(cases, directory).byName[n];
      && ((forall j :: 0 <= j < |directory| && FieldAsWritten(directory[j].name) == Some(n) ==>
            SourceEntry(directory[j]).contact == []) ==> c.contact.None?)
      && (forall k :: 0 <= k < |directory| && FieldAsWritten(directory[k].name) == Some(n)
            && SourceEntry(directory[k]).contact != []
            && (forall j :: k < j < |directory| && FieldAsWritten(directory[j].name) == Some(n) ==> SourceEntry(directory[j]).contact == [])
            ==> c.contact == Some(SourceEntry(directory[k]).contact))
  {
    if forall j :: 0 <= j < |directory| && FieldAsWritten(directory[j].name) == Some(n) ==> SourceEntry(directory[j]).contact == [] {
      CourtNoContact(cases, directory, n);
    }
    CourtLastContact(cases, directory, n);
  }

  lemma CourtNoContact(cases: seq<CaseRecord>, directory: seq<SourceRow>, n: string)
    requires n in CourtsOf(cases, directory).byName
    requires forall j :: 0 <= j < |directory| && FieldAsWritten(directory[j].name) == Some(n) ==> SourceEntry(directory[j]).contact == []
    ensures CourtsOf(cases, directory).byName[n].contact.None?
  {
    var ses := SourceEntries(directory);
    CaseCourtsHaveNoContact(cases);
    assert forall j :: 0 <= j < |ses| && ses[j].name == Some(n) ==> ses[j].contact == [];
    InsertAllNoNew(InsertAll(Courts([], map[]), CaseEntries(cases)), ses, n);
  }

  lemma CourtLastContact(cases: seq<CaseRecord>, directory: seq<SourceRow>, n: string)
    requires n in CourtsOf(cases, directory).byName
    ensures forall k ::
      (0 <= k < |directory| && FieldAsWritten(directory[k].name) == Some(n) && SourceEntry(directory[k]).contact != [] &&
       forall j :: k < j < |directory| && FieldAsWritten(directory[j].name) == Some(n) ==> SourceEntry(directory[j]).contact == []) ==>
      CourtsOf(cases, directory).byName[n].contact == Some(SourceEntry(directory[k]).contact)
  {
    var base := InsertAll(Courts([], map[]), CaseEntries(cases));
    var ses := SourceEntries(directory);
    CaseCourtsHaveNoContact(cases);
    forall k | 0 <= k < |directory| && FieldAsWritten(directory[k].name) == Some(n)
            && SourceEntry(directory[k]).contact != []
            && (forall j :: k < j < |directory| && FieldAsWritten(directory[j].name) == Some(n) ==> SourceEntry(directory[j]).contact == [])
      ensures CourtsOf(cases, directory).byName[n].contact == Some(SourceEntry(directory[k]).contact)
    {
      assert forall j :: k < j < |ses| && ses[j].name == Some(n) ==> ses[j].contact == [];
      LastContactWins(base, ses, k, n);
    }
  }

  // ---------------------------------------------------------------------
  // The output table
  // ---------------------------------------------------------------------

  /** `{row["ambito"]: int(row["jurisdiccion_id"]) for row in etl_jurisdicciones.csv}`,
      a later row overwriting an earlier one. */
  function JurisdictionIds(rows: seq<JurisdictionRow>): map<string, nat>
    decreases |rows|
  {
    if rows == [] then map[]
    else JurisdictionIds(rows[..|rows| - 1])[rows[|rows| - 1].scope := rows[|rows| - 1].id]
  }

  /** Over the dimension generar_dim_jurisdicciones writes, the map gives
      each scope its own row's id. */
  lemma {:induction false} JurisdictionIdsOfDim(rows: seq<JurisdictionRow>, i: nat)
    requires i < |rows|
    requires forall a, b :: 0 <= a < b < |rows| ==> rows[a].scope != rows[b].scope
    ensures rows[i].scope in JurisdictionIds(rows) && JurisdictionIds(rows)[rows[i].scope] == rows[i].id
    decreases |rows|
  {
    if i < |rows| - 1 {
      var init := rows[..|rows| - 1];
      assert init[i] == rows[i];
      JurisdictionIdsOfDim(init, i);
    }
  }

  datatype CourtRow = CourtRow(
    id: nat,
    name: string,
    instance: string,
    seat: Option<string>,
    contact: Option<string>,
    jurisdictionId: nat,
    forum: Option<string>)

  /** `juris_map.get(t.get("jurisdiccion") or "Federal", 1)`. */
  function JurisdictionIdOf(c: Court, jurisIds: map<string, nat>): (id: nat)
    ensures Truthy(c.jurisdiction) && c.jurisdiction.value in jurisIds ==> id == jurisIds[c.jurisdiction.value]
    ensures !Truthy(c.jurisdiction) && "Federal" in jurisIds ==> id == jurisIds["Federal"]
    ensures (if Truthy(c.jurisdiction) then c.jurisdiction.value else "Federal") !in jurisIds ==> id == 1
    ensures id == 1 || id in jurisIds.Values
  {
    var scope := if Truthy(c.jurisdiction) then c.jurisdiction.value else "Federal";
    if scope in jurisIds then jurisIds[scope] else 1
  }

  function RowOf(id: nat, c: Court, jurisIds: map<string, nat>): CourtRow {
    CourtRow(id, c.name, c.instance, c.seat, c.contact, JurisdictionIdOf(c, jurisIds), c.forum)
  }

  /** The court names in `sorted` order. */
  function SortedNames(cs: Courts): (names: seq<string>)
    ensures StrictlySorted(names)
    ensures forall n :: n in names <==> n in cs.names
  {
    SortedDistinct(cs.names)
  }

  /** etl_tribunales.csv: one row per court in name order, numbered from 1. */
  function CourtTable(cs: Courts, jurisIds: map<string, nat>): seq<CourtRow>
    requires Valid(cs)
  {
    var names := SortedNames(cs);
    seq(|names|, i requires 0 <= i < |names| => RowOf(i + 1, cs.byName[names[i]], jurisIds))
  }

  /** Each row is the court of its name, numbered with the id the later
      stages look the name up by. */
  lemma CourtTableRows(cs: Courts, jurisIds: map<string, nat>)
    requires Valid(cs)
    ensures var table := CourtTable(cs, jurisIds);
      && |table| == |SortedNames(cs)|
      && forall i :: 0 <= i < |table| ==>
            && table[i].name in cs.byName
            && table[i] == RowOf(i + 1, cs.byName[table[i].name], jurisIds)
            && NumberNames(SortedNames(cs))[table[i].name] == table[i].id
  {
    var names := SortedNames(cs);
    assert forall i :: 0 <= i < |names| ==> names[i] in names;
  }

  /** The rows follow the name order and every court has one. */
  lemma CourtTableOrder(cs: Courts, jurisIds: map<string, nat>)
    requires Valid(cs)
    ensures var table := CourtTable(cs, jurisIds);
      && (forall i, j :: 0 <= i < j < |table| ==> Less(table[i].name, table[j].name))
      && (forall n :: n in cs.byName ==> exists i :: 0 <= i < |table| && table[i].name == n)
  {
    var names := SortedNames(cs);
    var table := CourtTable(cs, jurisIds);
    CourtTableAt(cs, jurisIds);
    assert forall i :: 0 <= i < |names| ==> table[i].name == names[i];
    forall n | n in cs.byName ensures exists i :: 0 <= i < |table| && table[i].name == n {
      assert n in names;
      var i :| 0 <= i < |names| && names[i] == n;
      assert table[i].name == n;
    }
  }

  /** The first loop of generar_dim_tribunales: one update per case. */
  method AddCaseCourts(cs0: Courts, cases: seq<CaseRecord>) returns (cs: Courts)
    ensures cs == InsertAll(cs0, CaseEntries(cases))
  {
    cs := cs0;
    ghost var es := CaseEntries(cases);
    for k := 0 to |cases|
      invariant cs == InsertAll(cs0, es[..k])
    {
      assert es[..k + 1][..k] == es[..k];
      cs := Insert(cs, CaseEntry(cases[k]));
    }
    assert es[..|cases|] == es;
  }

  /** The second loop: one update per row of the directory. */
  method AddDirectoryCourts(cs0: Courts, rows: seq<SourceRow>) returns (cs: Courts)
    ensures cs == InsertAll(cs0, SourceEntries(rows))
  {
    cs := cs0;
    ghost var es := SourceEntries(rows);
    for k := 0 to |rows|
      invariant cs == InsertAll(cs0, es[..k])
    {
      assert es[..k + 1][..k] == es[..k];
      cs := Insert(cs, SourceEntry(rows[k]));
    }
    assert es[..|rows|] == es;
  }

  /** Reading etl_jurisdicciones.csv into `juris_map`. */
  method ReadJurisdictionIds(jurisdictions: seq<JurisdictionRow>) returns (jurisIds: map<string, nat>)
    ensures jurisIds == JurisdictionIds(jurisdictions)
  {
    jurisIds := map[];
    for k := 0 to |jurisdictions|
      invariant jurisIds == JurisdictionIds(jurisdictions[..k])
    {
      assert jurisdictions[..k + 1][..k] == jurisdictions[..k];
      jurisIds := jurisIds[jurisdictions[k].scope := jurisdictions[k].id];
    }
    assert jurisdictions[..|jurisdictions|] == jurisdictions;
  }

  /** The output loop over the sorted names. */
  method WriteCourtTable(cs: Courts, jurisIds: map<string, nat>) returns (table: seq<CourtRow>)
    requires Valid(cs)
    ensures table == CourtTable(cs, jurisIds)
  {
    var names := SortedNames(cs);
    ghost var expected := CourtTable(cs, jurisIds);
    CourtTableAt(cs, jurisIds);
    table := [];
    for i := 0 to |names|
      invariant table == expected[..i]
    {
      assert expected[..i + 1] == expected[..i] + [expected[i]];
      table := table + [RowOf(i + 1, cs.byName[names[i]], jurisIds)];
    }
    assert expected[..|names|] == expected;
  }

  lemma CourtTableAt(cs: Courts, jurisIds: map<string, nat>)
    requires Valid(cs)
    ensures |CourtTable(cs, jurisIds)| == |SortedNames(cs)|
    ensures forall k :: 0 <= k < |SortedNames(cs)| ==> SortedNames(cs)[k] in cs.byName
    ensures forall k :: 0 <= k < |SortedNames(cs)| ==>
      CourtTable(cs, jurisIds)[k] == RowOf(k + 1, cs.byName[SortedNames(cs)[k]], jurisIds)
  {
    var names := SortedNames(cs);
    forall k | 0 <= k < |names| ensures names[k] in cs.byName {
      assert names[k] in names;
    }
  }

  /** generar_dim_tribunales: the two loops that fill the dictionary, then the
      table in name order and the name-to-id map. */
  method GenerarDimTribunales(cases: seq<CaseRecord>, directory: Option<seq<SourceRow>>, jurisdictions: seq<JurisdictionRow>)
    returns (table: seq<CourtRow>, ids: map<string, nat>)
    ensures Valid(CourtsOf(cases, RowsOrNone(directory)))
    ensures table == CourtTable(CourtsOf(cases, RowsOrNone(directory)), JurisdictionIds(jurisdictions))
    ensures ids == NumberNames(SortedNames(CourtsOf(cases, RowsOrNone(directory))))
  {
    var empty := Courts([], map[]);
    var cs := AddCaseCourts(empty, cases);
    InsertAllValid(empty, CaseEntries(cases));
    ghost var base := cs;
    cs := AddDirectoryCourts(cs, RowsOrNone(directory));
    InsertAllValid(base, SourceEntries(RowsOrNone(directory)));
    var jurisIds := ReadJurisdictionIds(jurisdictions);
    ids := NumberNames(SortedNames(cs));
    table := WriteCourtTable(cs, jurisIds);
  }

  /** The rows of the directory file; a missing file gives none. */
  function RowsOrNone(directory: Option<seq<SourceRow>>): seq<SourceRow> {
    if directory.Some? then directory.value else []
  }
}
