/** `scrape_tab` and `run` of 6_scrapper_con_db.py: the finished-cases tab,
    then the in-progress tab, share one seen-set keyed by the case number
    and the tab's label, and every record kept is tagged with that tab.
    Every party item of the intervener panel counts as an accused person. */
module TabScraper {
  import opened Optional
  import opened Strings
  import opened Html
  import opened Pages
  import opened BlockParser
  import CaseRuns
  import RolesScraper

  /** The field the tab's label is written to. */
  const TabField: string := "EstadoSolapa"

  /** The labels of the two tabs, in the order they are scanned. */
  const Terminadas: string := "Terminadas"
  const EnTramite: string := "En trámite"

  /** `datos` of this scraper: the field map (with the tab's label), the
      accused persons with their counsel, and the raw resolution texts. */
  datatype TabRecord = TabRecord(fields: map<string, string>, accused: seq<Party>, resolutions: seq<string>)

  // ---------------------------------------------------------------------
  // The accused persons
  // ---------------------------------------------------------------------

  /** `div.item-especial-largo-2 ul li`. */
  const AccusedItem: Query :=
    Descendant([Compound(Selector("div", {"item-especial-largo-2"}), Plain), Compound(Selector("ul", {}), Plain)],
               Compound(Selector("li", {}), Plain))

  /** The party items of the block's first `div.ver-todos-panel`, whatever
      their section's title. */
  function AccusedItems(root: Visit): seq<Visit> {
    match SelectOne(root, Q("div", {"ver-todos-panel"}))
    case None => []
    case Some(panel) => Select(panel, AccusedItem)
  }

  /** The item's own text nodes run together, then stripped. */
  function AccusedName(li: Node): string {
    Strip(Concat(DirectTexts(li)))
  }

  /** A person: the name, and the text of every `div.item` inside the item. */
  function AccusedOf(li: Visit): Party {
    Party(AccusedName(li.node), RolesScraper.ItemTexts(Select(li, Q("div", {"item"}))))
  }

  function AccusedList(lis: seq<Visit>): (ps: seq<Party>) {
    Mapped(AccusedOf, lis)
  }

  lemma AccusedAt(lis: seq<Visit>, i: nat)
    requires i < |lis|
    ensures AccusedList(lis)[i] == AccusedOf(lis[i])
  {
    MappedAt(AccusedOf, lis, i);
  }

  /** One person per party item, in order; every name and every counsel is a
      stripped text; and each counsel is the text of a `div.item` inside
      the person's item. */
  lemma AccusedFacts(lis: seq<Visit>)
    ensures |AccusedList(lis)| == |lis|
    ensures forall i :: 0 <= i < |lis| ==> Trimmed(AccusedList(lis)[i].name)
    ensures forall i, j :: 0 <= i < |lis| && 0 <= j < |AccusedList(lis)[i].counsel| ==>
      Trimmed(AccusedList(lis)[i].counsel[j]) &&
      exists d :: d in Select(lis[i], Q("div", {"item"})) && GetText(d.node) == AccusedList(lis)[i].counsel[j]
  {
    var ps := AccusedList(lis);
    forall i | 0 <= i < |lis|
      ensures ps[i] == AccusedOf(lis[i])
    {
      AccusedAt(lis, i);
    }
    forall i, j | 0 <= i < |lis| && 0 <= j < |ps[i].counsel|
      ensures Trimmed(ps[i].counsel[j]) &&
        exists d :: d in Select(lis[i], Q("div", {"item"})) && GetText(d.node) == ps[i].counsel[j]
    {
      var items := Select(lis[i], Q("div", {"item"}));
      GetTextTrimmed(items[j].node);
      assert items[j] in items;
    }
  }

  /** With a single own text node the name is the one the role parsers read;
      with several, they are run together with no space between them. */
  lemma AccusedNameSingle(li: Node)
    requires |DirectTexts(li)| == 1
    ensures AccusedName(li) == PartyName(li)
  {
    var t := DirectTexts(li)[0];
    assert DirectTexts(li) == [t];
    assert Concat([t]) == t by {
      assert [t][..0] == [];
    }
    assert [t][..0] == [];
    if Strip(t) == [] {
      assert NonBlank([t]) == [];
    } else {
      assert NonBlank([t]) == [Strip(t)];
    }
  }

  /** The loop over the party items. */
  method ReadAccused(lis: seq<Visit>) returns (imputados: seq<Party>)
    ensures imputados == AccusedList(lis)
  {
    imputados := [];
    for k := 0 to |lis|
      invariant imputados == AccusedList(lis[..k])
    {
      MappedSnoc(AccusedOf, lis, k);
      imputados := imputados + [AccusedOf(lis[k])];
    }
    assert lis[..|lis|] == lis;
  }

  // ---------------------------------------------------------------------
  // Resolutions and the whole block
  // ---------------------------------------------------------------------

  /** `li:-soup-contains('Resolución/es') div.ver-todos-panel`. */
  const TabResolutionPanel: Query :=
    Descendant([Compound(Selector("li", {}), ContainsText("Resolución/es"))],
               Compound(Selector("div", {"ver-todos-panel"}), Plain))

  function TabResolutionItems(root: Visit): seq<Visit> {
    match SelectOne(root, TabResolutionPanel)
    case None => []
    case Some(panel) => Select(panel, Q("div", {"item"}))
  }

  /** One block of a tab as a value, tagged with the tab's label. The block
      must hold an info list. */
  function ParseTab(b: Node, tab: string): TabRecord
    requires InfoList(b).Some?
  {
    var root := Root(PruneBlock(b));
    TabRecord(
      WithDefaults(RolesScraper.RolesFields(b), InterestKeys)[TabField := tab],
      AccusedList(AccusedItems(root)),
      RolesScraper.RawTexts(TabResolutionItems(root)))
  }

  /** The record carries the tab's label and every key of interest, and
      apart from the label its fields are those of the roles parser. */
  lemma ParseTabFacts(b: Node, tab: string)
    requires InfoList(b).Some?
    ensures var p := ParseTab(b, tab);
      TabField in p.fields && p.fields[TabField] == tab &&
      (forall k :: k in InterestKeys ==> k in p.fields) &&
      (forall k :: k != TabField ==>
        (k in p.fields <==> k in RolesScraper.ParseRoles(b).fields) &&
        (k in p.fields ==> p.fields[k] == RolesScraper.ParseRoles(b).fields[k]))
  {
    WithDefaultsFacts(RolesScraper.RolesFields(b), InterestKeys);
  }

  /** The steps of the block loop of `scrape_tab`, toggles removed first. */
  method ProcesarBloqueTab(b: Node, tab: string) returns (p: TabRecord)
    requires InfoList(b).Some?
    ensures p == ParseTab(b, tab)
  {
    var datos := ReadFields(InfoItems(b));
    var root := Root(PruneBlock(b));
    var box := SelectOne(root, FirstFilingBox);
    if box.Some? {
      datos := datos[FilingKey := RolesScraper.PresentSummary(box.value)];
    }
    var imputados := ReadAccused(AccusedItems(root));
    var resoluciones := RolesScraper.ReadRawResolutions(TabResolutionItems(root));
    datos := SetDefaults(datos);
    p := TabRecord(datos[TabField := tab], imputados, resoluciones);
  }

  // ---------------------------------------------------------------------
  // One tab
  // ---------------------------------------------------------------------

  /** The parser of a tab's blocks. */
  function TabParser(tab: string): Node --> TabRecord {
    (b: Node) requires InfoList(b).Some? => ParseTab(b, tab)
  }

  /** `(identificador, estado_label)` when the case number is truthy. */
  function TabKey(tab: string): TabRecord -> Option<(string, string)> {
    (r: TabRecord) => if CaseRuns.CaseField in r.fields && r.fields[CaseRuns.CaseField] != [] then Some((r.fields[CaseRuns.CaseField], tab)) else None
  }

  /** Every block holds an info list. */
  predicate HasInfoLists(bs: seq<Node>) {
    forall b :: b in bs ==> InfoList(b).Some?
  }

  /** `scrape_tab`: the tab's page loop over the caller's `vistos` and
      `resultados`. */
  method ScrapeTab(vistos: set<(string, string)>, resultados: seq<TabRecord>, pages: seq<Page>, tab: string)
    returns (vistos': set<(string, string)>, resultados': seq<TabRecord>)
    requires HasInfoLists(AllBlocks(Visited(pages)))
    ensures Parsable(AllBlocks(Visited(pages)), TabParser(tab)) &&
      Admitted(vistos', resultados') == Run(Admitted(vistos, resultados), pages, TabParser(tab), TabKey(tab))
  {
    vistos', resultados' := RunPages(vistos, resultados, pages, TabParser(tab), TabKey(tab));
  }

  /** Every record `parse` makes of the blocks carries the label `tab`. */
  ghost predicate TagsWith(bs: seq<Node>, parse: Node --> TabRecord, tab: string)
    requires Parsable(bs, parse)
  {
    var rs := Records(bs, parse);
    forall i :: 0 <= i < |rs| ==> TabField in rs[i].fields && rs[i].fields[TabField] == tab
  }

  /** The tab's parser labels every block it reads with the tab. */
  lemma ParserTags(bs: seq<Node>, tab: string)
    requires HasInfoLists(bs)
    ensures Parsable(bs, TabParser(tab)) && TagsWith(bs, TabParser(tab), tab)
  {
    var rs := Records(bs, TabParser(tab));
    forall i | 0 <= i < |rs|
      ensures TabField in rs[i].fields && rs[i].fields[TabField] == tab
    {
      RecordsAt(bs, TabParser(tab), i);
      assert TabParser(tab)(bs[i]) == ParseTab(bs[i], tab);
    }
  }

  /** Every record a tab appends carries the tab's label. */
  lemma TabRunTagged(st: Admitted<(string, string), TabRecord>, pages: seq<Page>, parse: Node --> TabRecord, tab: string)
    requires Parsable(AllBlocks(Visited(pages)), parse)
    requires TagsWith(AllBlocks(Visited(pages)), parse, tab)
    ensures var out := Run(st, pages, parse, TabKey(tab)).out;
      forall i :: |st.out| <= i < |out| ==> TabField in out[i].fields && out[i].fields[TabField] == tab
  {
    RunFacts(st, pages, parse, TabKey(tab));
  }

  /** Every record a tab appends has a non-empty case number that was not
      seen under this tab before, and no two of them have the same case
      number. */
  lemma TabRunKeys(st: Admitted<(string, string), TabRecord>, pages: seq<Page>, parse: Node --> TabRecord, tab: string)
    requires Parsable(AllBlocks(Visited(pages)), parse)
    ensures var out := Run(st, pages, parse, TabKey(tab)).out;
      |out| >= |st.out| && out[..|st.out|] == st.out &&
      (forall i :: |st.out| <= i < |out| ==>
        CaseRuns.CaseField in out[i].fields && out[i].fields[CaseRuns.CaseField] != [] &&
        (out[i].fields[CaseRuns.CaseField], tab) !in st.seen) &&
      (forall i, j :: |st.out| <= i < j < |out| ==> out[i].fields[CaseRuns.CaseField] != out[j].fields[CaseRuns.CaseField])
  {
    RunFacts(st, pages, parse, TabKey(tab));
  }

  /** The seen-set of a tab scanned from an empty one holds only keys with
      that tab's label. */
  lemma SeenLabels(pages: seq<Page>, parse: Node --> TabRecord, tab: string)
    requires Parsable(AllBlocks(Visited(pages)), parse)
    ensures forall k :: k in Run(Admitted({}, []), pages, parse, TabKey(tab)).seen ==> k.1 == tab
  {
    var rs := Records(AllBlocks(Visited(pages)), parse);
    AdmitAllSeen(Admitted({}, []), rs, TabKey(tab));
  }

  // ---------------------------------------------------------------------
  // Both tabs
  // ---------------------------------------------------------------------

  /** Two tabs scanned one after the other through one `vistos`, whatever
      the parsers, as long as each labels its records with its own tab. */
  function TwoTabs(pages1: seq<Page>, parse1: Node --> TabRecord, tab1: string,
                   pages2: seq<Page>, parse2: Node --> TabRecord, tab2: string): Admitted<(string, string), TabRecord>
    requires Parsable(AllBlocks(Visited(pages1)), parse1) && Parsable(AllBlocks(Visited(pages2)), parse2)
  {
    Run(Run(Admitted({}, []), pages1, parse1, TabKey(tab1)), pages2, parse2, TabKey(tab2))
  }

  /** `run`: the finished-cases tab, then the in-progress tab, from an empty
      `vistos` shared by both. */
  function TabsRun(terminadas: seq<Page>, enTramite: seq<Page>): Admitted<(string, string), TabRecord>
    requires HasInfoLists(AllBlocks(Visited(terminadas))) && HasInfoLists(AllBlocks(Visited(enTramite)))
  {
    TwoTabs(terminadas, TabParser(Terminadas), Terminadas, enTramite, TabParser(EnTramite), EnTramite)
  }

  /** A record's case number and tab label, when both are there and the
      case number is non-empty. */
  function CaseAndTab(r: TabRecord): Option<(string, string)> {
    if CaseRuns.CaseField in r.fields && r.fields[CaseRuns.CaseField] != [] && TabField in r.fields
    then Some((r.fields[CaseRuns.CaseField], r.fields[TabField])) else None
  }

  /** The first tab's records come first with its label, then the second
      tab's with its own, and every one has a case number. */
  lemma TwoTabsFacts(pages1: seq<Page>, parse1: Node --> TabRecord, tab1: string,
                     pages2: seq<Page>, parse2: Node --> TabRecord, tab2: string)
    requires Parsable(AllBlocks(Visited(pages1)), parse1) && Parsable(AllBlocks(Visited(pages2)), parse2)
    requires TagsWith(AllBlocks(Visited(pages1)), parse1, tab1) && TagsWith(AllBlocks(Visited(pages2)), parse2, tab2)
    ensures var n := |Run(Admitted({}, []), pages1, parse1, TabKey(tab1)).out|;
      var out := TwoTabs(pages1, parse1, tab1, pages2, parse2, tab2).out;
      n <= |out| &&
      forall i :: 0 <= i < |out| ==>
        CaseAndTab(out[i]).Some? && CaseAndTab(out[i]).value.1 == (if i < n then tab1 else tab2)
  {
    var st0: Admitted<(string, string), TabRecord> := Admitted({}, []);
    var st1 := Run(st0, pages1, parse1, TabKey(tab1));
    var n := |st1.out|;
    var out := TwoTabs(pages1, parse1, tab1, pages2, parse2, tab2).out;
    TabRunTagged(st0, pages1, parse1, tab1);
    TabRunTagged(st1, pages2, parse2, tab2);
    TabRunKeys(st0, pages1, parse1, tab1);
    TabRunKeys(st1, pages2, parse2, tab2);
    assert forall i :: 0 <= i < n ==> out[i] == st1.out[i];
  }

  /** With two different labels, no two records of the two tabs share both
      case number and tab: a case number appears at most once per tab. */
  lemma TwoTabsDistinct(pages1: seq<Page>, parse1: Node --> TabRecord, tab1: string,
                        pages2: seq<Page>, parse2: Node --> TabRecord, tab2: string)
    requires tab1 != tab2
    requires Parsable(AllBlocks(Visited(pages1)), parse1) && Parsable(AllBlocks(Visited(pages2)), parse2)
    requires TagsWith(AllBlocks(Visited(pages1)), parse1, tab1) && TagsWith(AllBlocks(Visited(pages2)), parse2, tab2)
    ensures var out := TwoTabs(pages1, parse1, tab1, pages2, parse2, tab2).out;
      forall i, j :: 0 <= i < j < |out| ==> CaseAndTab(out[i]).Some? && CaseAndTab(out[i]) != CaseAndTab(out[j])
  {
    var st0: Admitted<(string, string), TabRecord> := Admitted({}, []);
    var st1 := Run(st0, pages1, parse1, TabKey(tab1));
    var n := |st1.out|;
    var out := TwoTabs(pages1, parse1, tab1, pages2, parse2, tab2).out;
    TwoTabsFacts(pages1, parse1, tab1, pages2, parse2, tab2);
    TabRunKeys(st0, pages1, parse1, tab1);
    TabRunKeys(st1, pages2, parse2, tab2);
    forall i, j | 0 <= i < j < |out|
      ensures CaseAndTab(out[i]).Some? && CaseAndTab(out[i]) != CaseAndTab(out[j])
    {
      if j < n {
        assert out[i] == st1.out[i] && out[j] == st1.out[j];
      }
    }
  }

  /** The records of the finished-cases tab come first, tagged
      "Terminadas", then those of the in-progress tab, tagged "En trámite";
      every one has a case number, and a case number appears at most once
      per tab, so no two records share both case number and tab. */
  lemma TabsRunFacts(terminadas: seq<Page>, enTramite: seq<Page>)
    requires HasInfoLists(AllBlocks(Visited(terminadas))) && HasInfoLists(AllBlocks(Visited(enTramite)))
    ensures var n := |Run(Admitted({}, []), terminadas, TabParser(Terminadas), TabKey(Terminadas)).out|;
      var out := TabsRun(terminadas, enTramite).out;
      n <= |out| &&
      (forall i :: 0 <= i < |out| ==>
        CaseAndTab(out[i]).Some? && CaseAndTab(out[i]).value.1 == (if i < n then Terminadas else EnTramite)) &&
      (forall i, j :: 0 <= i < j < |out| ==> CaseAndTab(out[i]) != CaseAndTab(out[j]))
  {
    ParserTags(AllBlocks(Visited(terminadas)), Terminadas);
    ParserTags(AllBlocks(Visited(enTramite)), EnTramite);
    TwoTabsFacts(terminadas, TabParser(Terminadas), Terminadas, enTramite, TabParser(EnTramite), EnTramite);
    TwoTabsDistinct(terminadas, TabParser(Terminadas), Terminadas, enTramite, TabParser(EnTramite), EnTramite);
  }

  /** Every processed block whose key is present and was not seen before
      the run has a record with that key among those the run appends. */
  lemma RunCovers<K, R>(st: Admitted<K, R>, pages: seq<Page>, parse: Node --> R, key: R -> Option<K>)
    requires Parsable(AllBlocks(Visited(pages)), parse)
    ensures var out := Run(st, pages, parse, key).out; var bs := AllBlocks(Visited(pages));
      forall j :: 0 <= j < |bs| && key(parse(bs[j])).Some? && key(parse(bs[j])).value !in st.seen ==>
        exists i :: |st.out| <= i < |out| && key(out[i]) == key(parse(bs[j]))
  {
    var bs := AllBlocks(Visited(pages));
    RunFacts(st, pages, parse, key);
    forall j | 0 <= j < |bs| && key(parse(bs[j])).Some? && key(parse(bs[j])).value !in st.seen
      ensures exists i :: |st.out| <= i < |Run(st, pages, parse, key).out| && key(Run(st, pages, parse, key).out[i]) == key(parse(bs[j]))
    {
      RecordsAt(bs, parse, j);
    }
  }

  /** Every processed in-progress block with a case number has a record in
      the in-progress part, even when the same case was already kept from
      the finished-cases tab. */
  lemma TabsRunComplete(terminadas: seq<Page>, enTramite: seq<Page>)
    requires HasInfoLists(AllBlocks(Visited(terminadas))) && HasInfoLists(AllBlocks(Visited(enTramite)))
    ensures var n := |Run(Admitted({}, []), terminadas, TabParser(Terminadas), TabKey(Terminadas)).out|;
      var out := TabsRun(terminadas, enTramite).out; var bs := AllBlocks(Visited(enTramite));
      forall j :: 0 <= j < |bs| && TabKey(EnTramite)(TabParser(EnTramite)(bs[j])).Some? ==>
        exists i :: n <= i < |out| && TabKey(EnTramite)(out[i]) == TabKey(EnTramite)(TabParser(EnTramite)(bs[j]))
  {
    var st0: Admitted<(string, string), TabRecord> := Admitted({}, []);
    var st1 := Run(st0, terminadas, TabParser(Terminadas), TabKey(Terminadas));
    SeenLabels(terminadas, TabParser(Terminadas), Terminadas);
    RunCovers(st1, enTramite, TabParser(EnTramite), TabKey(EnTramite));
  }

  /** `run`: both tabs through one `vistos` and one `resultados`. */
  method RunTabs(terminadas: seq<Page>, enTramite: seq<Page>) returns (resultados: seq<TabRecord>)
    requires HasInfoLists(AllBlocks(Visited(terminadas))) && HasInfoLists(AllBlocks(Visited(enTramite)))
    ensures Parsable(AllBlocks(Visited(terminadas)), TabParser(Terminadas)) &&
      Parsable(AllBlocks(Visited(enTramite)), TabParser(EnTramite)) &&
      resultados == TabsRun(terminadas, enTramite).out
  {
    var vistos;
    vistos, resultados := ScrapeTab({}, [], terminadas, Terminadas);
    vistos, resultados := ScrapeTab(vistos, resultados, enTramite, EnTramite);
  }
}
