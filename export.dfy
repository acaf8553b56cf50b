/** The CSV exports of `exportar_resultados` (scraper_completas.py) and of
    5_scraper_completo.py, as rows: one per case, one per party and counsel,
    one per resolution and one per filing entry. Nothing is written when
    there are no results. */
module CaseExport {
  import opened Optional
  import opened Strings
  import opened BlockParser
  import opened CaseRuns
  import EtlText

  // ---------------------------------------------------------------------
  // Concatenated row lists
  // ---------------------------------------------------------------------

  function TotalLength<T>(xss: seq<seq<T>>): nat
    decreases |xss|
  {
    if xss == [] then 0 else TotalLength(xss[..|xss| - 1]) + |xss[|xss| - 1]|
  }

  /** The concatenation holds every piece's items and nothing else, and its
      length is the sum of the pieces' lengths. */
  lemma {:induction false} ConcatFacts<T>(xss: seq<seq<T>>)
    ensures |Concat(xss)| == TotalLength(xss)
    ensures forall x :: x in Concat(xss) <==> exists i :: 0 <= i < |xss| && x in xss[i]
    decreases |xss|
  {
    if xss != [] {
      var init := xss[..|xss| - 1];
      ConcatFacts(init);
      forall x
        ensures x in Concat(xss) <==> exists i :: 0 <= i < |xss| && x in xss[i]
      {
        if x in Concat(init) {
          var i :| 0 <= i < |init| && x in init[i];
          assert xss[i] == init[i];
        }
        if exists i :: 0 <= i < |xss| && x in xss[i] {
          var i :| 0 <= i < |xss| && x in xss[i];
          if i < |xss| - 1 {
            assert init[i] == xss[i];
          }
        }
      }
    }
  }

  lemma ConcatSnoc<T>(xss: seq<seq<T>>, j: nat)
    requires j < |xss|
    ensures Concat(xss[..j + 1]) == Concat(xss[..j]) + xss[j]
  {
    assert xss[..j + 1][..j] == xss[..j];
  }

  /** Pieces of the same lengths give the same total. */
  lemma {:induction false} TotalLengthSame<S, T>(xss: seq<seq<S>>, yss: seq<seq<T>>)
    requires |xss| == |yss| && forall i :: 0 <= i < |xss| ==> |xss[i]| == |yss[i]|
    ensures TotalLength(xss) == TotalLength(yss)
    decreases |xss|
  {
    if xss != [] {
      TotalLengthSame(xss[..|xss| - 1], yss[..|yss| - 1]);
    }
  }

  // ---------------------------------------------------------------------
  // Case rows
  // ---------------------------------------------------------------------

  /** The columns of `scraper_completas_<tipo>_expedientes.csv`. */
  const CompletasColumns: seq<string> :=
    ["Expediente", "Carátula", "Delitos", "Radicación del expediente", "Estado", "Estado_General", "Última actualización"]

  /** The columns of `5_expedientes.csv`. */
  const CompletoColumns: seq<string> :=
    ["Expediente", "Carátula", "Delitos", "Radicación del expediente", "Estado", "Última actualización"]

  /** `{k: r.get(k, "") for k in fieldnames}`, in column order. */
  function CaseRow(fields: map<string, string>, columns: seq<string>): seq<string> {
    seq(|columns|, c requires 0 <= c < |columns| => if columns[c] in fields then fields[columns[c]] else [])
  }

  function CaseRows(rs: seq<Parsed>, columns: seq<string>): (rows: seq<seq<string>>)
    ensures |rows| == |rs|
  {
    seq(|rs|, i requires 0 <= i < |rs| => CaseRow(rs[i].fields, columns))
  }

  /** The case file of a run: one row per kept record, whose first cell is
      its case number, non-empty and different from every other row's. */
  lemma RunCaseRows(pages: seq<Pages.Page>, parse: Html.Node --> Parsed, columns: seq<string>)
    requires Pages.Parsable(Pages.AllBlocks(Pages.Visited(pages)), parse)
    requires columns != [] && columns[0] == CaseField
    ensures var out := Pages.Run(Pages.Admitted({}, []), pages, parse, CaseKey).out;
      var rows := CaseRows(out, columns);
      |rows| == |out| &&
      (forall i :: 0 <= i < |rows| ==>
        CaseField in out[i].fields && |rows[i]| == |columns| && rows[i][0] == out[i].fields[CaseField] && rows[i][0] != []) &&
      (forall i, j :: 0 <= i < j < |rows| ==> rows[i][0] != rows[j][0])
  {
    RunKeysDistinct(pages, parse);
  }

  method WriteCases(rs: seq<Parsed>, columns: seq<string>) returns (rows: seq<seq<string>>)
    ensures rows == CaseRows(rs, columns)
  {
    rows := [];
    for i := 0 to |rs|
      invariant rows == CaseRows(rs[..i], columns)
    {
      var fila := [];
      for c := 0 to |columns|
        invariant fila == CaseRow(rs[i].fields, columns[..c])
      {
        fila := fila + [if columns[c] in rs[i].fields then rs[i].fields[columns[c]] else []];
      }
      assert columns[..|columns|] == columns;
      rows := rows + [fila];
    }
    assert rs[..|rs|] == rs;
  }

  // ---------------------------------------------------------------------
  // Party rows
  // ---------------------------------------------------------------------

  datatype PartyRow = PartyRow(expediente: string, role: string, name: string, counsel: string)

  /** `rol[:-1].capitalize()`. */
  function RoleLabel(role: string): string {
    if role == [] then [] else Capitalize(role[..|role| - 1])
  }

  /** The labels written for the four role lists. */
  lemma RoleLabels()
    ensures RoleLabel(RoleKeys[0]) == "Imputado" && RoleLabel(RoleKeys[1]) == "Denunciado"
    ensures RoleLabel(RoleKeys[2]) == "Denunciante" && RoleLabel(RoleKeys[3]) == "Querellante"
  {
    ImputadoLabel();
    DenunciadoLabel();
    DenuncianteLabel();
    QuerellanteLabel();
  }

  /** Lower-casing a word of ASCII lower-case letters leaves it as it is. */
  lemma LowerOfLowercase(s: string)
    requires forall i :: 0 <= i < |s| ==> 'a' <= s[i] <= 'z'
    ensures Lower(s) == s
  {
  }

  lemma ImputadoLabel()
    ensures RoleLabel("imputados") == "Imputado"
  {
    assert "imputados"[..8] == "imputado";
    assert "imputado"[1..] == "mputado";
    LowerOfLowercase("mputado");
    assert "Imputado" == [UpperChar('i')] + "mputado";
  }

  lemma DenunciadoLabel()
    ensures RoleLabel("denunciados") == "Denunciado"
  {
    assert "denunciados"[..10] == "denunciado";
    assert "denunciado"[1..] == "enunciado";
    LowerOfLowercase("enunciado");
    assert "Denunciado" == [UpperChar('d')] + "enunciado";
  }

  lemma DenuncianteLabel()
    ensures RoleLabel("denunciantes") == "Denunciante"
  {
    assert "denunciantes"[..11] == "denunciante";
    assert "denunciante"[1..] == "enunciante";
    LowerOfLowercase("enunciante");
    assert "Denunciante" == [UpperChar('d')] + "enunciante";
  }

  lemma QuerellanteLabel()
    ensures RoleLabel("querellantes") == "Querellante"
  {
    assert "querellantes"[..11] == "querellante";
    assert "querellante"[1..] == "uerellante";
    LowerOfLowercase("uerellante");
    assert "Querellante" == [UpperChar('q')] + "uerellante";
  }

  /** The rows of one party: one per counsel, or a single row with an empty
      counsel when there is none. */
  function PartyRows(expediente: string, role: string, p: Party): seq<PartyRow> {
    if p.counsel == [] then [PartyRow(expediente, role, p.name, [])]
    else seq(|p.counsel|, l requires 0 <= l < |p.counsel| => PartyRow(expediente, role, p.name, p.counsel[l]))
  }

  /** A party with k > 0 counsel gives k rows, one per counsel; a party with
      none gives exactly one row, with an empty counsel. */
  lemma PartyRowsFacts(expediente: string, role: string, p: Party)
    ensures |PartyRows(expediente, role, p)| == if p.counsel == [] then 1 else |p.counsel|
    ensures forall l :: 0 <= l < |p.counsel| ==> PartyRows(expediente, role, p)[l] == PartyRow(expediente, role, p.name, p.counsel[l])
    ensures forall row :: row in PartyRows(expediente, role, p) <==>
      row.expediente == expediente && row.role == role && row.name == p.name &&
      (if p.counsel == [] then row.counsel == [] else row.counsel in p.counsel)
  {
    var rows := PartyRows(expediente, role, p);
    forall row
      ensures row in rows <==>
        row.expediente == expediente && row.role == role && row.name == p.name &&
        (if p.counsel == [] then row.counsel == [] else row.counsel in p.counsel)
    {
      if p.counsel != [] && row.expediente == expediente && row.role == role && row.name == p.name && row.counsel in p.counsel {
        var l :| 0 <= l < |p.counsel| && p.counsel[l] == row.counsel;
        assert rows[l] == row;
      }
    }
  }

  /** The loop over a party's counsel. */
  method WritePartyRows(expediente: string, role: string, p: Party) returns (rows: seq<PartyRow>)
    ensures rows == PartyRows(expediente, role, p)
  {
    if p.counsel == [] {
      return [PartyRow(expediente, role, p.name, [])];
    }
    rows := [];
    for l := 0 to |p.counsel|
      invariant |rows| == l && forall m :: 0 <= m < l ==> rows[m] == PartyRow(expediente, role, p.name, p.counsel[m])
    {
      rows := rows + [PartyRow(expediente, role, p.name, p.counsel[l])];
    }
  }

  /** `r.get(f"__{rol}__", [])` for the role at position `k`. */
  function RoleList(parties: seq<seq<Party>>, k: nat): seq<Party> {
    if k < |parties| then parties[k] else []
  }

  function RolePieces(expediente: string, k: nat, ps: seq<Party>): seq<seq<PartyRow>>
    requires k < |RoleKeys|
  {
    seq(|ps|, j requires 0 <= j < |ps| => PartyRows(expediente, RoleLabel(RoleKeys[k]), ps[j]))
  }

  /** The rows of one role list, party by party. */
  function RoleRows(expediente: string, k: nat, ps: seq<Party>): seq<PartyRow>
    requires k < |RoleKeys|
  {
    Concat(RolePieces(expediente, k, ps))
  }

  /** A role list's rows are exactly the rows of its parties, under the
      role's label. */
  lemma RoleRowsFacts(expediente: string, k: nat, ps: seq<Party>)
    requires k < |RoleKeys|
    ensures forall row :: row in RoleRows(expediente, k, ps) <==>
      exists j :: 0 <= j < |ps| && row in PartyRows(expediente, RoleLabel(RoleKeys[k]), ps[j])
  {
    var pieces := RolePieces(expediente, k, ps);
    ConcatFacts(pieces);
    forall row
      ensures row in RoleRows(expediente, k, ps) <==>
        exists j :: 0 <= j < |ps| && row in PartyRows(expediente, RoleLabel(RoleKeys[k]), ps[j])
    {
      if row in RoleRows(expediente, k, ps) {
        var j :| 0 <= j < |pieces| && row in pieces[j];
        assert pieces[j] == PartyRows(expediente, RoleLabel(RoleKeys[k]), ps[j]);
      }
      if exists j :: 0 <= j < |ps| && row in PartyRows(expediente, RoleLabel(RoleKeys[k]), ps[j]) {
        var j :| 0 <= j < |ps| && row in PartyRows(expediente, RoleLabel(RoleKeys[k]), ps[j]);
        assert pieces[j] == PartyRows(expediente, RoleLabel(RoleKeys[k]), ps[j]);
      }
    }
  }

  function RecordPieces(expediente: string, parties: seq<seq<Party>>): seq<seq<PartyRow>> {
    seq(|RoleKeys|, k requires 0 <= k < |RoleKeys| => RoleRows(expediente, k, RoleList(parties, k)))
  }

  /** The party rows of one record: role by role, in the order of `RoleKeys`. */
  function RecordPartyRows(expediente: string, parties: seq<seq<Party>>): seq<PartyRow> {
    Concat(RecordPieces(expediente, parties))
  }

  /** A record's party rows are exactly the rows of its four role lists. */
  lemma RecordPartyRowsFacts(expediente: string, parties: seq<seq<Party>>)
    ensures forall row :: row in RecordPartyRows(expediente, parties) <==>
      exists k :: 0 <= k < |RoleKeys| && row in RoleRows(expediente, k, RoleList(parties, k))
  {
    var pieces := RecordPieces(expediente, parties);
    ConcatFacts(pieces);
    forall row
      ensures row in RecordPartyRows(expediente, parties) <==>
        exists k :: 0 <= k < |RoleKeys| && row in RoleRows(expediente, k, RoleList(parties, k))
    {
      if row in RecordPartyRows(expediente, parties) {
        var k :| 0 <= k < |pieces| && row in pieces[k];
        assert pieces[k] == RoleRows(expediente, k, RoleList(parties, k));
      }
      if exists k :: 0 <= k < |RoleKeys| && row in RoleRows(expediente, k, RoleList(parties, k)) {
        var k :| 0 <= k < |RoleKeys| && row in RoleRows(expediente, k, RoleList(parties, k));
        assert pieces[k] == RoleRows(expediente, k, RoleList(parties, k));
      }
    }
  }

  /** The loop over one role's parties. */
  method WriteRole(expediente: string, k: nat, ps: seq<Party>) returns (rows: seq<PartyRow>)
    requires k < |RoleKeys|
    ensures rows == RoleRows(expediente, k, ps)
  {
    var pieces := RolePieces(expediente, k, ps);
    rows := [];
    for j := 0 to |ps|
      invariant rows == Concat(pieces[..j])
    {
      ConcatSnoc(pieces, j);
      var more := WritePartyRows(expediente, RoleLabel(RoleKeys[k]), ps[j]);
      rows := rows + more;
    }
    assert pieces[..|ps|] == pieces;
  }

  /** The loop over the four roles of one record. */
  method WriteRecordParties(expediente: string, parties: seq<seq<Party>>) returns (rows: seq<PartyRow>)
    ensures rows == RecordPartyRows(expediente, parties)
  {
    var pieces := RecordPieces(expediente, parties);
    rows := [];
    for k := 0 to |RoleKeys|
      invariant rows == Concat(pieces[..k])
    {
      ConcatSnoc(pieces, k);
      var ps := if k < |parties| then parties[k] else [];
      var more := WriteRole(expediente, k, ps);
      rows := rows + more;
    }
    assert pieces[..|RoleKeys|] == pieces;
  }

  /** Every kept record has a case number: `r["Expediente"]` is defined. */
  ghost predicate Exportable(rs: seq<Parsed>) {
    forall i :: 0 <= i < |rs| ==> CaseField in rs[i].fields
  }

  function CaseNumber(r: Parsed): string
    requires CaseField in r.fields
  {
    r.fields[CaseField]
  }

  function PartyPieces(rs: seq<Parsed>): seq<seq<PartyRow>>
    requires Exportable(rs)
  {
    seq(|rs|, i requires 0 <= i < |rs| => RecordPartyRows(CaseNumber(rs[i]), rs[i].parties))
  }

  /** The interveners file. */
  function PartyExport(rs: seq<Parsed>): seq<PartyRow>
    requires Exportable(rs)
  {
    Concat(PartyPieces(rs))
  }

  /** A row is in the interveners file exactly when it is one of the party
      rows of some record. */
  lemma PartyExportFacts(rs: seq<Parsed>)
    requires Exportable(rs)
    ensures forall row :: row in PartyExport(rs) <==>
      exists i :: 0 <= i < |rs| && row in RecordPartyRows(CaseNumber(rs[i]), rs[i].parties)
  {
    var pieces := PartyPieces(rs);
    ConcatFacts(pieces);
    forall row
      ensures row in PartyExport(rs) <==>
        exists i :: 0 <= i < |rs| && row in RecordPartyRows(CaseNumber(rs[i]), rs[i].parties)
    {
      if row in PartyExport(rs) {
        var i :| 0 <= i < |pieces| && row in pieces[i];
        assert pieces[i] == RecordPartyRows(CaseNumber(rs[i]), rs[i].parties);
      }
      if exists i :: 0 <= i < |rs| && row in RecordPartyRows(CaseNumber(rs[i]), rs[i].parties) {
        var i :| 0 <= i < |rs| && row in RecordPartyRows(CaseNumber(rs[i]), rs[i].parties);
        assert pieces[i] == RecordPartyRows(CaseNumber(rs[i]), rs[i].parties);
      }
    }
  }

  method WriteParties(rs: seq<Parsed>) returns (rows: seq<PartyRow>)
    requires Exportable(rs)
    ensures rows == PartyExport(rs)
  {
    var pieces := PartyPieces(rs);
    rows := [];
    for i := 0 to |rs|
      invariant rows == Concat(pieces[..i])
    {
      ConcatSnoc(pieces, i);
      var more := WriteRecordParties(rs[i].fields[CaseField], rs[i].parties);
      rows := rows + more;
    }
    assert pieces[..|rs|] == pieces;
  }

  // ---------------------------------------------------------------------
  // Resolution and filing rows
  // ---------------------------------------------------------------------

  datatype ResolutionRow = ResolutionRow(expediente: string, date: string, name: string, link: string)

  datatype FilingRow = FilingRow(expediente: string, orden: nat, date: string, court: string, prosecutor: string, office: string)

  function ResolutionRowOf(expediente: string, res: Resolution): ResolutionRow {
    ResolutionRow(expediente, res.date, res.name, res.link)
  }

  function FilingRowOf(expediente: string, rad: Radicacion): FilingRow {
    FilingRow(expediente, rad.orden, rad.filing.date, rad.filing.court, rad.filing.prosecutor, rad.filing.office)
  }

  function ResolutionPieces(rs: seq<Parsed>): seq<seq<ResolutionRow>>
    requires Exportable(rs)
  {
    seq(|rs|, i requires 0 <= i < |rs| =>
      seq(|rs[i].resolutions|, j requires 0 <= j < |rs[i].resolutions| => ResolutionRowOf(CaseNumber(rs[i]), rs[i].resolutions[j])))
  }

  function FilingPieces(rs: seq<Parsed>): seq<seq<FilingRow>>
    requires Exportable(rs)
  {
    seq(|rs|, i requires 0 <= i < |rs| =>
      seq(|rs[i].filings|, j requires 0 <= j < |rs[i].filings| => FilingRowOf(CaseNumber(rs[i]), rs[i].filings[j])))
  }

  lemma ResolutionPiecesAt(rs: seq<Parsed>, i: int, j: int)
    requires Exportable(rs) && 0 <= i < |rs|
    ensures |ResolutionPieces(rs)| == |rs| && |ResolutionPieces(rs)[i]| == |rs[i].resolutions|
    ensures 0 <= j < |rs[i].resolutions| ==> ResolutionPieces(rs)[i][j] == ResolutionRowOf(CaseNumber(rs[i]), rs[i].resolutions[j])
  {
  }

  /** The resolutions file. */
  function ResolutionExport(rs: seq<Parsed>): seq<ResolutionRow>
    requires Exportable(rs)
  {
    Concat(ResolutionPieces(rs))
  }

  lemma FilingPiecesAt(rs: seq<Parsed>, i: int, j: int)
    requires Exportable(rs) && 0 <= i < |rs|
    ensures |FilingPieces(rs)| == |rs| && |FilingPieces(rs)[i]| == |rs[i].filings|
    ensures 0 <= j < |rs[i].filings| ==> FilingPieces(rs)[i][j] == FilingRowOf(CaseNumber(rs[i]), rs[i].filings[j])
  {
  }

  /** The filing-history file. */
  function FilingExport(rs: seq<Parsed>): seq<FilingRow>
    requires Exportable(rs)
  {
    Concat(FilingPieces(rs))
  }

  /** One resolution row per stored resolution: the file is as long as all
      records' resolution lists together, and a row is in it exactly when it
      is a record's resolution under that record's case number. */
  lemma ResolutionExportFacts(rs: seq<Parsed>)
    requires Exportable(rs)
    ensures |ResolutionExport(rs)| == TotalLength(seq(|rs|, i requires 0 <= i < |rs| => rs[i].resolutions))
    ensures forall row :: row in ResolutionExport(rs) <==>
      exists i, j :: 0 <= i < |rs| && 0 <= j < |rs[i].resolutions| && row == ResolutionRowOf(CaseNumber(rs[i]), rs[i].resolutions[j])
  {
    var pieces := ResolutionPieces(rs);
    ConcatFacts(pieces);
    TotalLengthSame(pieces, seq(|rs|, i requires 0 <= i < |rs| => rs[i].resolutions));
    forall row
      ensures row in ResolutionExport(rs) <==>
        exists i, j :: 0 <= i < |rs| && 0 <= j < |rs[i].resolutions| && row == ResolutionRowOf(CaseNumber(rs[i]), rs[i].resolutions[j])
    {
      if row in ResolutionExport(rs) {
        var i :| 0 <= i < |pieces| && row in pieces[i];
        var j :| 0 <= j < |pieces[i]| && pieces[i][j] == row;
        ResolutionPiecesAt(rs, i, j);
      }
      if exists i, j :: 0 <= i < |rs| && 0 <= j < |rs[i].resolutions| && row == ResolutionRowOf(CaseNumber(rs[i]), rs[i].resolutions[j]) {
        var i, j :| 0 <= i < |rs| && 0 <= j < |rs[i].resolutions| && row == ResolutionRowOf(CaseNumber(rs[i]), rs[i].resolutions[j]);
        ResolutionPiecesAt(rs, i, j);
      }
    }
  }

  /** One filing row per filing entry of each record, carrying its orden. */
  lemma FilingExportFacts(rs: seq<Parsed>)
    requires Exportable(rs)
    ensures |FilingExport(rs)| == TotalLength(seq(|rs|, i requires 0 <= i < |rs| => rs[i].filings))
    ensures forall row :: row in FilingExport(rs) <==>
      exists i, j :: 0 <= i < |rs| && 0 <= j < |rs[i].filings| && row == FilingRowOf(CaseNumber(rs[i]), rs[i].filings[j])
  {
    var pieces := FilingPieces(rs);
    ConcatFacts(pieces);
    TotalLengthSame(pieces, seq(|rs|, i requires 0 <= i < |rs| => rs[i].filings));
    forall row
      ensures row in FilingExport(rs) <==>
        exists i, j :: 0 <= i < |rs| && 0 <= j < |rs[i].filings| && row == FilingRowOf(CaseNumber(rs[i]), rs[i].filings[j])
    {
      if row in FilingExport(rs) {
        var i :| 0 <= i < |pieces| && row in pieces[i];
        var j :| 0 <= j < |pieces[i]| && pieces[i][j] == row;
        FilingPiecesAt(rs, i, j);
      }
      if exists i, j :: 0 <= i < |rs| && 0 <= j < |rs[i].filings| && row == FilingRowOf(CaseNumber(rs[i]), rs[i].filings[j]) {
        var i, j :| 0 <= i < |rs| && 0 <= j < |rs[i].filings| && row == FilingRowOf(CaseNumber(rs[i]), rs[i].filings[j]);
        FilingPiecesAt(rs, i, j);
      }
    }
  }

  method WriteResolutions(rs: seq<Parsed>) returns (rows: seq<ResolutionRow>)
    requires Exportable(rs)
    ensures rows == ResolutionExport(rs)
  {
    var pieces := ResolutionPieces(rs);
    rows := [];
    for i := 0 to |rs|
      invariant rows == Concat(pieces[..i])
    {
      ConcatSnoc(pieces, i);
      var exp := rs[i].fields[CaseField];
      var more := [];
      for j := 0 to |rs[i].resolutions|
        invariant more == pieces[i][..j]
      {
        more := more + [ResolutionRowOf(exp, rs[i].resolutions[j])];
      }
      rows := rows + more;
    }
    assert pieces[..|rs|] == pieces;
  }

  method WriteFilings(rs: seq<Parsed>) returns (rows: seq<FilingRow>)
    requires Exportable(rs)
    ensures rows == FilingExport(rs)
  {
    var pieces := FilingPieces(rs);
    rows := [];
    for i := 0 to |rs|
      invariant rows == Concat(pieces[..i])
    {
      ConcatSnoc(pieces, i);
      var exp := rs[i].fields[CaseField];
      var more := [];
      for j := 0 to |rs[i].filings|
        invariant more == pieces[i][..j]
      {
        more := more + [FilingRowOf(exp, rs[i].filings[j])];
      }
      rows := rows + more;
    }
    assert pieces[..|rs|] == pieces;
  }

  // ---------------------------------------------------------------------
  // The four files
  // ---------------------------------------------------------------------

  datatype Export = Export(
    cases: seq<seq<string>>,
    parties: seq<PartyRow>,
    resolutions: seq<ResolutionRow>,
    filings: seq<FilingRow>)

  /** The four files, or None when there is nothing to write. */
  function Exported(rs: seq<Parsed>, columns: seq<string>): Option<Export>
    requires Exportable(rs)
  {
    if rs == [] then None
    else Some(Export(CaseRows(rs, columns), PartyExport(rs), ResolutionExport(rs), FilingExport(rs)))
  }

  /** Records kept by a run can be exported. */
  lemma RunExportable(pages: seq<Pages.Page>, parse: Html.Node --> Parsed)
    requires Pages.Parsable(Pages.AllBlocks(Pages.Visited(pages)), parse)
    ensures Exportable(Pages.Run(Pages.Admitted({}, []), pages, parse, CaseKey).out)
  {
    RunKeysDistinct(pages, parse);
  }

  /** `exportar_resultados` (and the export block of 5_scraper_completo.py). */
  method ExportarResultados(rs: seq<Parsed>, columns: seq<string>) returns (e: Option<Export>)
    requires Exportable(rs)
    ensures e == Exported(rs, columns)
  {
    if rs == [] {
      return None;
    }
    var cases := WriteCases(rs, columns);
    var parties := WriteParties(rs);
    var resolutions := WriteResolutions(rs);
    var filings := WriteFilings(rs);
    e := Some(Export(cases, parties, resolutions, filings));
  }
}
