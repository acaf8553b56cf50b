/** 4_1_scraper_roles.py: the same page loop and seen-set over a variant of
    the block parser. The filing summary joins only the positions that are
    present, resolutions are kept as raw texts, and there is no filing
    history. Its export writes the case rows, the party rows and one row per
    raw resolution. */
module RolesScraper {
  import opened Optional
  import opened Strings
  import opened Html
  import opened Pages
  import opened BlockParser
  import CaseRuns
  import CaseExport

  /** `datos` of this scraper: the field map, the four role lists in the
      order of `RoleKeys`, and `__resoluciones__` as raw texts. */
  datatype RolesRecord = RolesRecord(fields: map<string, string>, parties: seq<seq<Party>>, resolutions: seq<string>)

  // ---------------------------------------------------------------------
  // The filing summary of the present positions
  // ---------------------------------------------------------------------

  /** `radicacion_div.select_one("div.<cls>")`, read as its stripped text. */
  function PartAt(box: Visit, cls: string): Option<string> {
    match SelectOne(box, Q("div", {cls}))
    case None => None
    case Some(t) => Some(GetText(t.node))
  }

  /** `partes`: the four positions t1a ... t4a, each found or not. */
  function Parts(box: Visit): (ps: seq<Option<string>>)
    ensures |ps| == 4
  {
    [PartAt(box, "t1a"), PartAt(box, "t2a"), PartAt(box, "t3a"), PartAt(box, "t4a")]
  }

  /** `[p.get_text(strip=True) for p in partes if p]`. */
  function Present(os: seq<Option<string>>): seq<string>
    decreases |os|
  {
    if os == [] then []
    else Present(os[..|os| - 1]) + (if os[|os| - 1].Some? then [os[|os| - 1].value] else [])
  }

  /** The texts kept are exactly those of the positions found: a missing
      position is dropped, never turned into an empty text. With every
      position found they are all kept, in order; with none, nothing is. */
  lemma PresentFacts(os: seq<Option<string>>)
    ensures forall x :: x in Present(os) <==> Some(x) in os
    ensures |Present(os)| <= |os|
    ensures Present(os) == [] <==> forall i :: 0 <= i < |os| ==> os[i].None?
    ensures (forall i :: 0 <= i < |os| ==> os[i].Some?) ==>
      |Present(os)| == |os| && forall i :: 0 <= i < |os| ==> Present(os)[i] == os[i].value
  {
    PresentMembers(os);
    PresentLength(os);
    if (forall i :: 0 <= i < |os| ==> os[i].Some?) {
      PresentAll(os);
    }
    if Present(os) != [] {
      assert Present(os)[0] in Present(os);
    }
    if exists i :: 0 <= i < |os| && os[i].Some? {
      var i :| 0 <= i < |os| && os[i].Some?;
      assert Some(os[i].value) in os;
    }
  }

  lemma {:induction false} PresentMembers(os: seq<Option<string>>)
    ensures forall x :: x in Present(os) <==> Some(x) in os
    decreases |os|
  {
    if os != [] {
      var init := os[..|os| - 1];
      PresentMembers(init);
      assert os == init + [os[|os| - 1]];
      forall x
        ensures x in Present(os) <==> Some(x) in os
      {
        if Some(x) in os {
          var i :| 0 <= i < |os| && os[i] == Some(x);
          if i < |init| {
            assert init[i] == Some(x);
          }
        }
      }
    }
  }

  lemma {:induction false} PresentLength(os: seq<Option<string>>)
    ensures |Present(os)| <= |os|
    decreases |os|
  {
    if os != [] {
      PresentLength(os[..|os| - 1]);
    }
  }

  lemma {:induction false} PresentAll(os: seq<Option<string>>)
    requires forall i :: 0 <= i < |os| ==> os[i].Some?
    ensures |Present(os)| == |os| && forall i :: 0 <= i < |os| ==> Present(os)[i] == os[i].value
    decreases |os|
  {
    if os != [] {
      var init := os[..|os| - 1];
      assert forall i :: 0 <= i < |init| ==> init[i] == os[i];
      PresentAll(init);
    }
  }

  /** `" | ".join(...)` of the present positions. */
  function PresentSummary(box: Visit): string {
    Join(" | ", Present(Parts(box)))
  }

  lemma Join4(sep: string, a: string, b: string, c: string, d: string)
    ensures Join(sep, [a, b, c, d]) == a + sep + b + sep + c + sep + d
  {
    var ps := [a, b, c, d];
    Join3(sep, ps[1..]);
    assert ps[1..] == [b, c, d];
  }

  lemma AllPresent(a: string, b: string, c: string, d: string)
    ensures Present([Some(a), Some(b), Some(c), Some(d)]) == [a, b, c, d]
  {
    assert Present([Some(a)]) == [a] by {
      assert [Some(a)][..0] == [];
    }
    assert Present([Some(a), Some(b)]) == [a, b] by {
      assert [Some(a), Some(b)][..1] == [Some(a)];
    }
    assert Present([Some(a), Some(b), Some(c)]) == [a, b, c] by {
      assert [Some(a), Some(b), Some(c)][..2] == [Some(a), Some(b)];
    }
    assert [Some(a), Some(b), Some(c), Some(d)][..3] == [Some(a), Some(b), Some(c)];
  }

  /** With all four positions found, the summary is the one the full parser
      writes. */
  lemma CompleteSummary(box: Visit)
    requires forall i :: 0 <= i < 4 ==> Parts(box)[i].Some?
    ensures PresentSummary(box) == Summary(FilingAt(box))
  {
    var os := Parts(box);
    var f := FilingAt(box);
    assert os == [Some(f.date), Some(f.court), Some(f.prosecutor), Some(f.office)];
    AllPresent(f.date, f.court, f.prosecutor, f.office);
    Join4(" | ", f.date, f.court, f.prosecutor, f.office);
  }

  /** Splitting the bar-joined texts at "|" gives one part per text. */
  lemma {:induction false} SplitBars(a: string, ps: seq<string>)
    requires ps != [] && '|' !in a && forall i :: 0 <= i < |ps| ==> '|' !in ps[i]
    ensures |Split(a + Join(" | ", ps), '|')| == |ps|
    decreases |ps|
  {
    if |ps| == 1 {
      SplitNone(a + ps[0], '|');
    } else {
      var rest := Join(" | ", ps[1..]);
      assert Join(" | ", ps) == ps[0] + " | " + rest;
      assert a + Join(" | ", ps) == (a + ps[0] + " ") + ['|'] + (" " + rest);
      SplitJoin(a + ps[0] + " ", '|', " " + rest);
      SplitBars(" ", ps[1..]);
    }
  }

  /** When no position holds a "|", the summary splits into exactly one part
      per position found, and it is empty when none is found. */
  lemma PresentSummaryParts(box: Visit)
    requires forall i :: 0 <= i < 4 && Parts(box)[i].Some? ==> '|' !in Parts(box)[i].value
    ensures Present(Parts(box)) == [] ==> PresentSummary(box) == []
    ensures Present(Parts(box)) != [] ==> |Split(PresentSummary(box), '|')| == |Present(Parts(box))|
  {
    var os := Parts(box);
    var ps := Present(os);
    PresentFacts(os);
    if ps != [] {
      forall i | 0 <= i < |ps|
        ensures '|' !in ps[i]
      {
        assert Some(ps[i]) in os;
      }
      SplitBars([], ps);
      assert [] + Join(" | ", ps) == Join(" | ", ps);
    }
  }

  // ---------------------------------------------------------------------
  // Raw resolutions
  // ---------------------------------------------------------------------

  /** `panel_res.select("div.item")`. */
  function ResolutionItems(root: Visit): seq<Visit> {
    match SelectOne(root, ResolutionPanel)
    case None => []
    case Some(panel) => Select(panel, Q("div", {"item"}))
  }

  /** The stripped text of each item. */
  function ItemTexts(items: seq<Visit>): (ts: seq<string>)
    ensures |ts| == |items| && forall i :: 0 <= i < |items| ==> ts[i] == GetText(items[i].node)
  {
    seq(|items|, i requires 0 <= i < |items| => GetText(items[i].node))
  }

  /** `[t for t in ts if t]`. */
  function NonEmpty(ts: seq<string>): seq<string>
    decreases |ts|
  {
    if ts == [] then []
    else NonEmpty(ts[..|ts| - 1]) + (if ts[|ts| - 1] == [] then [] else [ts[|ts| - 1]])
  }

  /** A text is kept exactly when it is one of the texts and is not empty. */
  lemma {:induction false} NonEmptyFacts(ts: seq<string>)
    ensures |NonEmpty(ts)| <= |ts|
    ensures forall t :: t in NonEmpty(ts) <==> t != [] && t in ts
    decreases |ts|
  {
    if ts != [] {
      NonEmptyFacts(ts[..|ts| - 1]);
      assert ts == ts[..|ts| - 1] + [ts[|ts| - 1]];
    }
  }

  /** `[r.get_text(strip=True) for r in resol_items if ...]`: the non-empty
      stripped texts of the items, in order. */
  function RawTexts(items: seq<Visit>): seq<string> {
    NonEmpty(ItemTexts(items))
  }

  /** A text is kept exactly when it is some item's whole stripped text and
      is not empty (nothing is split at a colon), and every kept text is
      stripped. */
  lemma RawTextsFacts(items: seq<Visit>)
    ensures |RawTexts(items)| <= |items|
    ensures forall t :: t in RawTexts(items) <==> t != [] && exists i :: 0 <= i < |items| && GetText(items[i].node) == t
    ensures forall t :: t in RawTexts(items) ==> Trimmed(t)
  {
    var ts := ItemTexts(items);
    NonEmptyFacts(ts);
    forall t | t in ts
      ensures Trimmed(t) && exists i :: 0 <= i < |items| && GetText(items[i].node) == t
    {
      var i :| 0 <= i < |ts| && ts[i] == t;
      GetTextTrimmed(items[i].node);
    }
  }

  /** The loop over a resolution panel's items. */
  method ReadRawResolutions(items: seq<Visit>) returns (resoluciones: seq<string>)
    ensures resoluciones == RawTexts(items)
  {
    resoluciones := [];
    for k := 0 to |items|
      invariant resoluciones == NonEmpty(ItemTexts(items)[..k])
    {
      assert ItemTexts(items)[..k + 1][..k] == ItemTexts(items)[..k];
      var texto := GetText(items[k].node);
      if texto != [] {
        resoluciones := resoluciones + [texto];
      }
    }
    assert ItemTexts(items)[..|items|] == ItemTexts(items);
  }

  // ---------------------------------------------------------------------
  // The whole block
  // ---------------------------------------------------------------------

  /** The caption fields, with the present-positions summary over the filing
      field when the block has a first filing box. */
  function RolesFields(b: Node): map<string, string>
    requires InfoList(b).Some?
  {
    var fields := FieldsOf(Entries(InfoItems(b)));
    match SelectOne(Root(PruneBlock(b)), FirstFilingBox)
    case None => fields
    case Some(box) => fields[FilingKey := PresentSummary(box)]
  }

  /** One block of this scraper as a value. The block must hold an info list. */
  function ParseRoles(b: Node): RolesRecord
    requires InfoList(b).Some?
  {
    var root := Root(PruneBlock(b));
    RolesRecord(
      WithDefaults(RolesFields(b), InterestKeys),
      RolesOf(SectionsOf(root)),
      RawTexts(ResolutionItems(root)))
  }

  /** The record holds every key of interest; its filing field is the
      present-positions summary when there is a first filing box; it reads
      the same role lists as the full parser, and every other field agrees
      with the full parser's. */
  lemma ParseRolesFacts(b: Node)
    requires InfoList(b).Some?
    ensures var p := ParseRoles(b);
      (forall k :: k in InterestKeys ==> k in p.fields) &&
      (SelectOne(Root(PruneBlock(b)), FirstFilingBox).Some? ==>
        p.fields[FilingKey] == PresentSummary(SelectOne(Root(PruneBlock(b)), FirstFilingBox).value)) &&
      p.parties == ParseBlock(b).parties
    ensures var p := ParseRoles(b); var q := ParseBlock(b);
      forall k :: k != FilingKey ==> (k in p.fields <==> k in q.fields) && (k in p.fields ==> p.fields[k] == q.fields[k])
  {
    WithDefaultsFacts(RolesFields(b), InterestKeys);
    WithDefaultsFacts(FieldsWithSummary(b), InterestKeys);
    assert FilingKey in InterestKeys;
  }

  /** The steps of this scraper's block loop, toggles removed first. */
  method ProcesarBloqueRoles(b: Node) returns (p: RolesRecord)
    requires InfoList(b).Some?
    ensures p == ParseRoles(b)
  {
    var datos := ReadFields(InfoItems(b));
    var root := Root(PruneBlock(b));
    var box := SelectOne(root, FirstFilingBox);
    if box.Some? {
      datos := datos[FilingKey := PresentSummary(box.value)];
    }
    var roles := ReadRoles(root);
    var resoluciones := ReadRawResolutions(ResolutionItems(root));
    datos := SetDefaults(datos);
    p := RolesRecord(datos, roles, resoluciones);
  }

  // ---------------------------------------------------------------------
  // The run
  // ---------------------------------------------------------------------

  /** `datos.get("Expediente")` when it is truthy. */
  function RolesKey(r: RolesRecord): Option<string> {
    if CaseRuns.CaseField in r.fields && r.fields[CaseRuns.CaseField] != [] then Some(r.fields[CaseRuns.CaseField]) else None
  }

  /** The page loop of this scraper, from an empty `vistos`; `None` when it
      comes to a page without blocks, where its wait raises before the
      export. */
  method RunRoles(pages: seq<Page>) returns (resultados: Option<seq<RolesRecord>>)
    requires Parsable(AllBlocks(Visited(pages)), ParseRoles)
    ensures resultados.None? <==> BlankPageReached(pages)
    ensures resultados.Some? ==> resultados.value == Run(Admitted({}, []), pages, ParseRoles, RolesKey).out
  {
    resultados := RunPagesWaiting(pages, ParseRoles, RolesKey);
  }

  /** A record is kept only with a non-empty case number no earlier record
      has, and it is the parse of the first processed block with that
      number; every processed block with a non-empty number has its number
      kept. */
  lemma RolesRunKeeps(pages: seq<Page>, parse: Node --> RolesRecord)
    requires Parsable(AllBlocks(Visited(pages)), parse)
    ensures var out := Run(Admitted({}, []), pages, parse, RolesKey).out;
      (forall i :: 0 <= i < |out| ==> CaseRuns.CaseField in out[i].fields && out[i].fields[CaseRuns.CaseField] != []) &&
      (forall i, j :: 0 <= i < j < |out| ==> out[i].fields[CaseRuns.CaseField] != out[j].fields[CaseRuns.CaseField])
    ensures KeptFirsts(Run(Admitted({}, []), pages, parse, RolesKey).out, Records(AllBlocks(Visited(pages)), parse))
    ensures var out := Run(Admitted({}, []), pages, parse, RolesKey).out; var rs := Records(AllBlocks(Visited(pages)), parse);
      forall j :: 0 <= j < |rs| && RolesKey(rs[j]).Some? ==> exists i :: 0 <= i < |out| && RolesKey(out[i]) == RolesKey(rs[j])
  {
    RolesRunKeys(pages, parse);
    RolesRunFirsts(pages, parse);
    RolesRunEvery(pages, parse);
  }

  lemma RolesRunKeys(pages: seq<Page>, parse: Node --> RolesRecord)
    requires Parsable(AllBlocks(Visited(pages)), parse)
    ensures var out := Run(Admitted({}, []), pages, parse, RolesKey).out;
      (forall i :: 0 <= i < |out| ==> CaseRuns.CaseField in out[i].fields && out[i].fields[CaseRuns.CaseField] != []) &&
      (forall i, j :: 0 <= i < j < |out| ==> out[i].fields[CaseRuns.CaseField] != out[j].fields[CaseRuns.CaseField])
  {
    RunFacts(Admitted({}, []), pages, parse, RolesKey);
    RolesKeysDistinct(Run(Admitted({}, []), pages, parse, RolesKey).out);
  }

  /** Each kept record is a parse that no earlier parse shares a key with. */
  ghost predicate KeptFirsts(out: seq<RolesRecord>, rs: seq<RolesRecord>) {
    forall i :: 0 <= i < |out| ==>
      exists j :: (0 <= j < |rs| && out[i] == rs[j] && forall l :: 0 <= l < j ==> RolesKey(rs[l]) != RolesKey(rs[j]))
  }

  lemma RolesRunFirsts(pages: seq<Page>, parse: Node --> RolesRecord)
    requires Parsable(AllBlocks(Visited(pages)), parse)
    ensures KeptFirsts(Run(Admitted({}, []), pages, parse, RolesKey).out, Records(AllBlocks(Visited(pages)), parse))
  {
    RunFacts(Admitted({}, []), pages, parse, RolesKey);
  }

  /** Records whose keys are present and distinct have distinct, non-empty
      case numbers. */
  lemma RolesKeysDistinct(out: seq<RolesRecord>)
    requires forall i :: 0 <= i < |out| ==> RolesKey(out[i]).Some?
    requires forall i, j :: 0 <= i < j < |out| ==> RolesKey(out[i]) != RolesKey(out[j])
    ensures forall i :: 0 <= i < |out| ==> CaseRuns.CaseField in out[i].fields && out[i].fields[CaseRuns.CaseField] != []
    ensures forall i, j :: 0 <= i < j < |out| ==> out[i].fields[CaseRuns.CaseField] != out[j].fields[CaseRuns.CaseField]
  {
  }

  lemma RolesRunEvery(pages: seq<Page>, parse: Node --> RolesRecord)
    requires Parsable(AllBlocks(Visited(pages)), parse)
    ensures var out := Run(Admitted({}, []), pages, parse, RolesKey).out; var rs := Records(AllBlocks(Visited(pages)), parse);
      forall j :: 0 <= j < |rs| && RolesKey(rs[j]).Some? ==> exists i :: 0 <= i < |out| && RolesKey(out[i]) == RolesKey(rs[j])
  {
    var bs := AllBlocks(Visited(pages));
    var rs := Records(bs, parse);
    RunFacts(Admitted({}, []), pages, parse, RolesKey);
    forall j | 0 <= j < |rs| && RolesKey(rs[j]).Some?
      ensures exists i :: 0 <= i < |Run(Admitted({}, []), pages, parse, RolesKey).out| && RolesKey(Run(Admitted({}, []), pages, parse, RolesKey).out[i]) == RolesKey(rs[j])
    {
      RecordsAt(bs, parse, j);
    }
  }

  // ---------------------------------------------------------------------
  // The export
  // ---------------------------------------------------------------------

  /** Every record has a case number: `r["Expediente"]` is defined. */
  ghost predicate Exportable(rs: seq<RolesRecord>) {
    forall i :: 0 <= i < |rs| ==> CaseRuns.CaseField in rs[i].fields
  }

  /** The record with no resolutions and no filings, as the shared case and
      party exports read it. */
  function AsParsed(r: RolesRecord): Parsed {
    Parsed(r.fields, r.parties, [], [])
  }

  function AllAsParsed(rs: seq<RolesRecord>): (ps: seq<Parsed>)
    ensures |ps| == |rs|
  {
    seq(|rs|, i requires 0 <= i < |rs| => AsParsed(rs[i]))
  }

  /** A row of `4_1_resoluciones.csv`. */
  datatype TextRow = TextRow(expediente: string, text: string)

  function TextPieces(rs: seq<RolesRecord>): seq<seq<TextRow>>
    requires Exportable(rs)
  {
    seq(|rs|, i requires 0 <= i < |rs| =>
      seq(|rs[i].resolutions|, j requires 0 <= j < |rs[i].resolutions| =>
        TextRow(rs[i].fields[CaseRuns.CaseField], rs[i].resolutions[j])))
  }

  /** `4_1_resoluciones.csv`. */
  function TextExport(rs: seq<RolesRecord>): seq<TextRow>
    requires Exportable(rs)
  {
    Concat(TextPieces(rs))
  }

  /** One (Expediente, text) row per stored resolution: the file is as long
      as all resolution lists together, and a row is in it exactly when it
      is a record's resolution under that record's case number. */
  lemma TextExportFacts(rs: seq<RolesRecord>)
    requires Exportable(rs)
    ensures |TextExport(rs)| == CaseExport.TotalLength(seq(|rs|, i requires 0 <= i < |rs| => rs[i].resolutions))
    ensures forall row :: row in TextExport(rs) <==>
      exists i, j :: 0 <= i < |rs| && 0 <= j < |rs[i].resolutions| &&
        row == TextRow(rs[i].fields[CaseRuns.CaseField], rs[i].resolutions[j])
  {
    var pieces := TextPieces(rs);
    CaseExport.ConcatFacts(pieces);
    CaseExport.TotalLengthSame(pieces, seq(|rs|, i requires 0 <= i < |rs| => rs[i].resolutions));
    forall row
      ensures row in TextExport(rs) <==>
        exists i, j :: 0 <= i < |rs| && 0 <= j < |rs[i].resolutions| &&
          row == TextRow(rs[i].fields[CaseRuns.CaseField], rs[i].resolutions[j])
    {
      if row in TextExport(rs) {
        var i :| 0 <= i < |pieces| && row in pieces[i];
        var j :| 0 <= j < |pieces[i]| && pieces[i][j] == row;
      }
      if exists i, j :: 0 <= i < |rs| && 0 <= j < |rs[i].resolutions| &&
          row == TextRow(rs[i].fields[CaseRuns.CaseField], rs[i].resolutions[j]) {
        var i, j :| 0 <= i < |rs| && 0 <= j < |rs[i].resolutions| &&
          row == TextRow(rs[i].fields[CaseRuns.CaseField], rs[i].resolutions[j]);
        assert pieces[i][j] == row;
      }
    }
  }

  method WriteTexts(rs: seq<RolesRecord>) returns (rows: seq<TextRow>)
    requires Exportable(rs)
    ensures rows == TextExport(rs)
  {
    var pieces := TextPieces(rs);
    rows := [];
    for i := 0 to |rs|
      invariant rows == Concat(pieces[..i])
    {
      CaseExport.ConcatSnoc(pieces, i);
      var exp := rs[i].fields[CaseRuns.CaseField];
      var more := [];
      for j := 0 to |rs[i].resolutions|
        invariant more == pieces[i][..j]
      {
        more := more + [TextRow(exp, rs[i].resolutions[j])];
      }
      rows := rows + more;
    }
    assert pieces[..|rs|] == pieces;
  }

  /** The three files of this scraper. */
  datatype RolesExport = RolesExport(cases: seq<seq<string>>, parties: seq<CaseExport.PartyRow>, resolutions: seq<TextRow>)

  /** The three files, or None when there is nothing to write. */
  function RolesExported(rs: seq<RolesRecord>): Option<RolesExport>
    requires Exportable(rs)
  {
    if rs == [] then None
    else
      var ps := AllAsParsed(rs);
      assert CaseExport.Exportable(ps);
      Some(RolesExport(CaseExport.CaseRows(ps, CaseExport.CompletoColumns), CaseExport.PartyExport(ps), TextExport(rs)))
  }

  /** The party file holds exactly the party rows of each record, under its
      case number, with the role labels of the full export. */
  lemma RolesPartyRows(rs: seq<RolesRecord>)
    requires Exportable(rs) && rs != []
    ensures forall row :: row in RolesExported(rs).value.parties <==>
      exists i :: 0 <= i < |rs| && row in CaseExport.RecordPartyRows(rs[i].fields[CaseRuns.CaseField], rs[i].parties)
  {
    var ps := AllAsParsed(rs);
    assert CaseExport.Exportable(ps);
    CaseExport.PartyExportFacts(ps);
    assert forall i :: 0 <= i < |rs| ==> CaseExport.CaseNumber(ps[i]) == rs[i].fields[CaseRuns.CaseField] && ps[i].parties == rs[i].parties;
  }

  /** The export block of this scraper. */
  method ExportRoles(rs: seq<RolesRecord>) returns (e: Option<RolesExport>)
    requires Exportable(rs)
    ensures e == RolesExported(rs)
  {
    if rs == [] {
      return None;
    }
    var ps := AllAsParsed(rs);
    var cases := CaseExport.WriteCases(ps, CaseExport.CompletoColumns);
    var parties := CaseExport.WriteParties(ps);
    var texts := WriteTexts(rs);
    e := Some(RolesExport(cases, parties, texts));
  }
}
