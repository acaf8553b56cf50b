/** `guardar_csv` and `run` of 6_scrapper_con_db.py: the four CSV files of
    the two-tab scraper as rows (cases, accused persons, their counsel and
    resolutions, each tagged with the case number and the tab's label), and
    the whole run: both tabs scanned, every record saved to the database,
    then the files written. */
module TabExport {
  import opened Optional
  import opened Strings
  import opened Html
  import opened Pages
  import opened BlockParser
  import opened TabScraper
  import CaseRuns
  import CaseExport
  import CaseStore

  /** The columns of `5_expedientes.csv` in this scraper. */
  const TabColumns: seq<string> :=
    ["Expediente", "Carátula", "Delitos", "Radicación del expediente", "Estado", "Última actualización", "EstadoSolapa"]

  /** `r["Expediente"]` and `r["EstadoSolapa"]` are read for every accused
      person and every resolution, so a record with either has both fields. */
  predicate Exportable(rs: seq<TabRecord>) {
    forall i :: 0 <= i < |rs| && (rs[i].accused != [] || rs[i].resolutions != []) ==>
      CaseRuns.CaseField in rs[i].fields && TabField in rs[i].fields
  }

  // ---------------------------------------------------------------------
  // 5_expedientes.csv
  // ---------------------------------------------------------------------

  /** One row per record: `r.get(k, "")` for every column. */
  function TabCaseRows(rs: seq<TabRecord>): (rows: seq<seq<string>>)
    ensures |rows| == |rs|
  {
    seq(|rs|, i requires 0 <= i < |rs| => CaseExport.CaseRow(rs[i].fields, TabColumns))
  }

  method WriteTabCases(rs: seq<TabRecord>) returns (rows: seq<seq<string>>)
    ensures rows == TabCaseRows(rs)
  {
    rows := [];
    for i := 0 to |rs|
      invariant rows == TabCaseRows(rs[..i])
    {
      var fila := [];
      for c := 0 to |TabColumns|
        invariant fila == CaseExport.CaseRow(rs[i].fields, TabColumns[..c])
      {
        fila := fila + [if TabColumns[c] in rs[i].fields then rs[i].fields[TabColumns[c]] else []];
      }
      assert TabColumns[..|TabColumns|] == TabColumns;
      rows := rows + [fila];
    }
    assert rs[..|rs|] == rs;
  }

  // ---------------------------------------------------------------------
  // 5_imputados.csv and 5_resoluciones.csv
  // ---------------------------------------------------------------------

  /** A row of `5_imputados.csv`. */
  datatype AccusedRow = AccusedRow(expediente: string, tab: string, name: string)

  /** A row of `5_letrados.csv`. */
  datatype CounselRow = CounselRow(expediente: string, tab: string, name: string, counsel: string)

  /** A row of `5_resoluciones.csv`. */
  datatype TabTextRow = TabTextRow(expediente: string, tab: string, text: string)

  function AccusedPieces(rs: seq<TabRecord>): seq<seq<AccusedRow>>
    requires Exportable(rs)
  {
    seq(|rs|, i requires 0 <= i < |rs| =>
      seq(|rs[i].accused|, a requires 0 <= a < |rs[i].accused| =>
        AccusedRow(rs[i].fields[CaseRuns.CaseField], rs[i].fields[TabField], rs[i].accused[a].name)))
  }

  /** `5_imputados.csv`. */
  function AccusedExport(rs: seq<TabRecord>): seq<AccusedRow>
    requires Exportable(rs)
  {
    Concat(AccusedPieces(rs))
  }

  function AccusedCount(rs: seq<TabRecord>): seq<seq<Party>> {
    seq(|rs|, i requires 0 <= i < |rs| => rs[i].accused)
  }

  /** One row per accused person: the file is as long as all accused lists
      together, and a row is in it exactly when it names a record's accused
      person under that record's case number and tab. */
  lemma AccusedExportFacts(rs: seq<TabRecord>)
    requires Exportable(rs)
    ensures |AccusedExport(rs)| == CaseExport.TotalLength(AccusedCount(rs))
    ensures forall row :: row in AccusedExport(rs) <==>
      exists i, a :: 0 <= i < |rs| && 0 <= a < |rs[i].accused| &&
        row == AccusedRow(rs[i].fields[CaseRuns.CaseField], rs[i].fields[TabField], rs[i].accused[a].name)
  {
    var pieces := AccusedPieces(rs);
    CaseExport.ConcatFacts(pieces);
    CaseExport.TotalLengthSame(pieces, AccusedCount(rs));
    forall row
      ensures row in AccusedExport(rs) <==>
        exists i, a :: 0 <= i < |rs| && 0 <= a < |rs[i].accused| &&
          row == AccusedRow(rs[i].fields[CaseRuns.CaseField], rs[i].fields[TabField], rs[i].accused[a].name)
    {
      if row in AccusedExport(rs) {
        var i :| 0 <= i < |pieces| && row in pieces[i];
        var a :| 0 <= a < |pieces[i]| && pieces[i][a] == row;
      }
      if exists i, a :: 0 <= i < |rs| && 0 <= a < |rs[i].accused| &&
          row == AccusedRow(rs[i].fields[CaseRuns.CaseField], rs[i].fields[TabField], rs[i].accused[a].name) {
        var i, a :| 0 <= i < |rs| && 0 <= a < |rs[i].accused| &&
          row == AccusedRow(rs[i].fields[CaseRuns.CaseField], rs[i].fields[TabField], rs[i].accused[a].name);
        assert pieces[i][a] == row;
      }
    }
  }

  method WriteAccused(rs: seq<TabRecord>) returns (rows: seq<AccusedRow>)
    requires Exportable(rs)
    ensures rows == AccusedExport(rs)
  {
    var pieces := AccusedPieces(rs);
    rows := [];
    for i := 0 to |rs|
      invariant rows == Concat(pieces[..i])
    {
      CaseExport.ConcatSnoc(pieces, i);
      var more := [];
      for a := 0 to |rs[i].accused|
        invariant more == pieces[i][..a]
      {
        more := more + [AccusedRow(rs[i].fields[CaseRuns.CaseField], rs[i].fields[TabField], rs[i].accused[a].name)];
      }
      rows := rows + more;
    }
    assert pieces[..|rs|] == pieces;
  }

  function TextPieces(rs: seq<TabRecord>): seq<seq<TabTextRow>>
    requires Exportable(rs)
  {
    seq(|rs|, i requires 0 <= i < |rs| =>
      seq(|rs[i].resolutions|, j requires 0 <= j < |rs[i].resolutions| =>
        TabTextRow(rs[i].fields[CaseRuns.CaseField], rs[i].fields[TabField], rs[i].resolutions[j])))
  }

  /** `5_resoluciones.csv`. */
  function TextExport(rs: seq<TabRecord>): seq<TabTextRow>
    requires Exportable(rs)
  {
    Concat(TextPieces(rs))
  }

  function TextCount(rs: seq<TabRecord>): seq<seq<string>> {
    seq(|rs|, i requires 0 <= i < |rs| => rs[i].resolutions)
  }

  /** One row per stored resolution, under its record's case number and
      tab, and nothing else. */
  lemma TextExportFacts(rs: seq<TabRecord>)
    requires Exportable(rs)
    ensures |TextExport(rs)| == CaseExport.TotalLength(TextCount(rs))
    ensures forall row :: row in TextExport(rs) <==>
      exists i, j :: 0 <= i < |rs| && 0 <= j < |rs[i].resolutions| &&
        row == TabTextRow(rs[i].fields[CaseRuns.CaseField], rs[i].fields[TabField], rs[i].resolutions[j])
  {
    var pieces := TextPieces(rs);
    CaseExport.ConcatFacts(pieces);
    CaseExport.TotalLengthSame(pieces, TextCount(rs));
    forall row
      ensures row in TextExport(rs) <==>
        exists i, j :: 0 <= i < |rs| && 0 <= j < |rs[i].resolutions| &&
          row == TabTextRow(rs[i].fields[CaseRuns.CaseField], rs[i].fields[TabField], rs[i].resolutions[j])
    {
      if row in TextExport(rs) {
        var i :| 0 <= i < |pieces| && row in pieces[i];
        var j :| 0 <= j < |pieces[i]| && pieces[i][j] == row;
      }
      if exists i, j :: 0 <= i < |rs| && 0 <= j < |rs[i].resolutions| &&
          row == TabTextRow(rs[i].fields[CaseRuns.CaseField], rs[i].fields[TabField], rs[i].resolutions[j]) {
        var i, j :| 0 <= i < |rs| && 0 <= j < |rs[i].resolutions| &&
          row == TabTextRow(rs[i].fields[CaseRuns.CaseField], rs[i].fields[TabField], rs[i].resolutions[j]);
        assert pieces[i][j] == row;
      }
    }
  }

  method WriteTexts(rs: seq<TabRecord>) returns (rows: seq<TabTextRow>)
    requires Exportable(rs)
    ensures rows == TextExport(rs)
  {
    var pieces := TextPieces(rs);
    rows := [];
    for i := 0 to |rs|
      invariant rows == Concat(pieces[..i])
    {
      CaseExport.ConcatSnoc(pieces, i);
      var more := [];
      for j := 0 to |rs[i].resolutions|
        invariant more == pieces[i][..j]
      {
        more := more + [TabTextRow(rs[i].fields[CaseRuns.CaseField], rs[i].fields[TabField], rs[i].resolutions[j])];
      }
      rows := rows + more;
    }
    assert pieces[..|rs|] == pieces;
  }

  // ---------------------------------------------------------------------
  // 5_letrados.csv
  // ---------------------------------------------------------------------

  /** The counsel rows of one accused person. */
  function PersonCounsel(exp: string, tab: string, p: Party): seq<CounselRow> {
    seq(|p.counsel|, l requires 0 <= l < |p.counsel| => CounselRow(exp, tab, p.name, p.counsel[l]))
  }

  /** The counsel rows of one record, person by person. */
  function RecordCounsel(exp: string, tab: string, ps: seq<Party>): seq<CounselRow> {
    Concat(seq(|ps|, a requires 0 <= a < |ps| => PersonCounsel(exp, tab, ps[a])))
  }

  function CounselPieces(rs: seq<TabRecord>): seq<seq<CounselRow>>
    requires Exportable(rs)
  {
    seq(|rs|, i requires 0 <= i < |rs| =>
      if rs[i].accused == [] then [] else RecordCounsel(rs[i].fields[CaseRuns.CaseField], rs[i].fields[TabField], rs[i].accused))
  }

  /** `5_letrados.csv`. */
  function CounselExport(rs: seq<TabRecord>): seq<CounselRow>
    requires Exportable(rs)
  {
    Concat(CounselPieces(rs))
  }

  /** A record's counsel rows are its accused persons' counsel, one row
      each, under the person's name. */
  lemma RecordCounselFacts(exp: string, tab: string, ps: seq<Party>)
    ensures forall row :: row in RecordCounsel(exp, tab, ps) <==>
      exists a, l :: 0 <= a < |ps| && 0 <= l < |ps[a].counsel| && row == CounselRow(exp, tab, ps[a].name, ps[a].counsel[l])
  {
    var pieces := seq(|ps|, a requires 0 <= a < |ps| => PersonCounsel(exp, tab, ps[a]));
    CaseExport.ConcatFacts(pieces);
    forall row
      ensures row in RecordCounsel(exp, tab, ps) <==>
        exists a, l :: 0 <= a < |ps| && 0 <= l < |ps[a].counsel| && row == CounselRow(exp, tab, ps[a].name, ps[a].counsel[l])
    {
      if row in RecordCounsel(exp, tab, ps) {
        var a :| 0 <= a < |pieces| && row in pieces[a];
        var l :| 0 <= l < |pieces[a]| && pieces[a][l] == row;
      }
      if exists a, l :: 0 <= a < |ps| && 0 <= l < |ps[a].counsel| && row == CounselRow(exp, tab, ps[a].name, ps[a].counsel[l]) {
        var a, l :| 0 <= a < |ps| && 0 <= l < |ps[a].counsel| && row == CounselRow(exp, tab, ps[a].name, ps[a].counsel[l]);
        assert pieces[a][l] == row;
      }
    }
  }

  /** One row per counsel of each accused person, and nothing else: an
      accused person without counsel has no row. */
  lemma CounselExportFacts(rs: seq<TabRecord>)
    requires Exportable(rs)
    ensures forall row :: row in CounselExport(rs) <==>
      exists i, a, l :: 0 <= i < |rs| && 0 <= a < |rs[i].accused| && 0 <= l < |rs[i].accused[a].counsel| &&
        row == CounselRow(rs[i].fields[CaseRuns.CaseField], rs[i].fields[TabField], rs[i].accused[a].name, rs[i].accused[a].counsel[l])
  {
    var pieces := CounselPieces(rs);
    CaseExport.ConcatFacts(pieces);
    forall row
      ensures row in CounselExport(rs) <==>
        exists i, a, l :: 0 <= i < |rs| && 0 <= a < |rs[i].accused| && 0 <= l < |rs[i].accused[a].counsel| &&
          row == CounselRow(rs[i].fields[CaseRuns.CaseField], rs[i].fields[TabField], rs[i].accused[a].name, rs[i].accused[a].counsel[l])
    {
      if row in CounselExport(rs) {
        var i :| 0 <= i < |pieces| && row in pieces[i];
        RecordCounselFacts(rs[i].fields[CaseRuns.CaseField], rs[i].fields[TabField], rs[i].accused);
      }
      if exists i, a, l :: 0 <= i < |rs| && 0 <= a < |rs[i].accused| && 0 <= l < |rs[i].accused[a].counsel| &&
          row == CounselRow(rs[i].fields[CaseRuns.CaseField], rs[i].fields[TabField], rs[i].accused[a].name, rs[i].accused[a].counsel[l]) {
        var i, a, l :| 0 <= i < |rs| && 0 <= a < |rs[i].accused| && 0 <= l < |rs[i].accused[a].counsel| &&
          row == CounselRow(rs[i].fields[CaseRuns.CaseField], rs[i].fields[TabField], rs[i].accused[a].name, rs[i].accused[a].counsel[l]);
        RecordCounselFacts(rs[i].fields[CaseRuns.CaseField], rs[i].fields[TabField], rs[i].accused);
        assert row in pieces[i];
      }
    }
  }

  /** The counsel loop of one record. */
  method WriteRecordCounsel(exp: string, tab: string, ps: seq<Party>) returns (rows: seq<CounselRow>)
    ensures rows == RecordCounsel(exp, tab, ps)
  {
    var pieces := seq(|ps|, a requires 0 <= a < |ps| => PersonCounsel(exp, tab, ps[a]));
    rows := [];
    for a := 0 to |ps|
      invariant rows == Concat(pieces[..a])
    {
      CaseExport.ConcatSnoc(pieces, a);
      var more := [];
      for l := 0 to |ps[a].counsel|
        invariant more == pieces[a][..l]
      {
        more := more + [CounselRow(exp, tab, ps[a].name, ps[a].counsel[l])];
      }
      rows := rows + more;
    }
    assert pieces[..|ps|] == pieces;
  }

  method WriteCounsel(rs: seq<TabRecord>) returns (rows: seq<CounselRow>)
    requires Exportable(rs)
    ensures rows == CounselExport(rs)
  {
    var pieces := CounselPieces(rs);
    rows := [];
    for i := 0 to |rs|
      invariant rows == Concat(pieces[..i])
    {
      CaseExport.ConcatSnoc(pieces, i);
      if rs[i].accused != [] {
        var more := WriteRecordCounsel(rs[i].fields[CaseRuns.CaseField], rs[i].fields[TabField], rs[i].accused);
        rows := rows + more;
      } else {
        assert rows + pieces[i] == rows;
      }
    }
    assert pieces[..|rs|] == pieces;
  }

  // ---------------------------------------------------------------------
  // The whole run
  // ---------------------------------------------------------------------

  /** The four files. */
  datatype TabFiles = TabFiles(cases: seq<seq<string>>, accused: seq<AccusedRow>, counsel: seq<CounselRow>, resolutions: seq<TabTextRow>)

  /** `guardar_csv`: all four files, written even when there are no records. */
  function TabCsv(rs: seq<TabRecord>): TabFiles
    requires Exportable(rs)
  {
    TabFiles(TabCaseRows(rs), AccusedExport(rs), CounselExport(rs), TextExport(rs))
  }

  method GuardarCsv(rs: seq<TabRecord>) returns (files: TabFiles)
    requires Exportable(rs)
    ensures files == TabCsv(rs)
  {
    var cases := WriteTabCases(rs);
    var accused := WriteAccused(rs);
    var counsel := WriteCounsel(rs);
    var resolutions := WriteTexts(rs);
    files := TabFiles(cases, accused, counsel, resolutions);
  }

  /** The fields a record needs to be saved and exported. */
  predicate SaveReady(r: TabRecord) {
    CaseStore.Storable(r) && TabField in r.fields
  }

  /** Every record `parse` makes of the blocks is ready to be saved. */
  ghost predicate AllReady(bs: seq<Node>, parse: Node --> TabRecord)
    requires Parsable(bs, parse)
  {
    var rs := Records(bs, parse);
    forall i :: 0 <= i < |rs| ==> SaveReady(rs[i])
  }

  /** A tab's parser fills in the case number, caption and last update
      (their defaults included) and the tab's label. */
  lemma ParseTabReady(b: Node, tab: string)
    requires InfoList(b).Some?
    ensures SaveReady(ParseTab(b, tab))
  {
    ParseTabFacts(b, tab);
    StorableKeys();
  }

  /** The fields a record needs to be saved are among the keys of interest. */
  lemma StorableKeys()
    ensures CaseRuns.CaseField in InterestKeys && CaseStore.CaptionKey in InterestKeys && CaseStore.UpdatedKey in InterestKeys
  {
    assert InterestKeys[0] == CaseRuns.CaseField && InterestKeys[1] == CaseStore.CaptionKey;
    assert InterestKeys[5] == CaseStore.UpdatedKey;
  }

  /** Every record the tab's parser makes of blocks with an information
      list is ready to be saved. */
  lemma ParserReady(bs: seq<Node>, tab: string)
    requires HasInfoLists(bs)
    ensures Parsable(bs, TabParser(tab)) && AllReady(bs, TabParser(tab))
  {
    var rs := Records(bs, TabParser(tab));
    forall i | 0 <= i < |rs|
      ensures SaveReady(rs[i])
    {
      RecordsAt(bs, TabParser(tab), i);
      assert TabParser(tab)(bs[i]) == ParseTab(bs[i], tab);
      ParseTabReady(bs[i], tab);
    }
  }

  /** When both parsers make only ready records, so does the two-tab run. */
  lemma TwoTabsReady(pages1: seq<Page>, parse1: Node --> TabRecord, tab1: string,
                     pages2: seq<Page>, parse2: Node --> TabRecord, tab2: string)
    requires Parsable(AllBlocks(Visited(pages1)), parse1) && Parsable(AllBlocks(Visited(pages2)), parse2)
    requires AllReady(AllBlocks(Visited(pages1)), parse1) && AllReady(AllBlocks(Visited(pages2)), parse2)
    ensures var out := TwoTabs(pages1, parse1, tab1, pages2, parse2, tab2).out;
      forall i :: 0 <= i < |out| ==> SaveReady(out[i])
  {
    var st0: Admitted<(string, string), TabRecord> := Admitted({}, []);
    var st1 := Run(st0, pages1, parse1, TabKey(tab1));
    var out := TwoTabs(pages1, parse1, tab1, pages2, parse2, tab2).out;
    RunFacts(st0, pages1, parse1, TabKey(tab1));
    RunFacts(st1, pages2, parse2, TabKey(tab2));
    assert forall i :: 0 <= i < |st1.out| ==> out[i] == st1.out[i];
  }

  /** Every record of the two-tab run can be saved and exported. */
  lemma TabsRunStorable(terminadas: seq<Page>, enTramite: seq<Page>)
    requires HasInfoLists(AllBlocks(Visited(terminadas))) && HasInfoLists(AllBlocks(Visited(enTramite)))
    ensures var out := TabsRun(terminadas, enTramite).out;
      (forall r :: r in out ==> CaseStore.Storable(r)) && Exportable(out)
  {
    ParserReady(AllBlocks(Visited(terminadas)), Terminadas);
    ParserReady(AllBlocks(Visited(enTramite)), EnTramite);
    TwoTabsReady(terminadas, TabParser(Terminadas), Terminadas, enTramite, TabParser(EnTramite), EnTramite);
  }

  /** `run`: both tabs, then every record saved, then the four files. */
  method RunConDb(db: CaseStore.Database, terminadas: seq<Page>, enTramite: seq<Page>) returns (files: TabFiles)
    requires db.Valid()
    requires HasInfoLists(AllBlocks(Visited(terminadas))) && HasInfoLists(AllBlocks(Visited(enTramite)))
    modifies db, db.fueros, db.jurisdicciones, db.tribunales, db.secretarias, db.estados
    ensures TabsRun.requires(terminadas, enTramite)
    ensures var out := TabsRun(terminadas, enTramite).out;
      (forall r :: r in out ==> CaseStore.Storable(r)) && Exportable(out) &&
      db.Valid() && db.State() == CaseStore.SaveAll(old(db.State()), out) && files == TabCsv(out)
  {
    var resultados := RunTabs(terminadas, enTramite);
    TabsRunStorable(terminadas, enTramite);
    db.GuardarEnDb(resultados);
    files := GuardarCsv(resultados);
  }
}
