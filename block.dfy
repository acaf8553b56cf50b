/** `procesar_bloque`: one result block read into a label/value map, the
    filing history, the parties by role and the resolutions. The page scraper
    without a helper function inlines the same steps. */
module BlockParser {
  import opened Optional
  import opened Strings
  import opened Html
  import EtlText

  /** A party and the counsel listed under it. */
  datatype Party = Party(name: string, counsel: seq<string>)

  datatype Resolution = Resolution(date: string, name: string, link: string)

  /** One filing entry and its position in the history. */
  datatype Radicacion = Radicacion(orden: nat, filing: EtlText.Filing)

  /** `datos`: the field map and the `__imputados__` ... `__radicaciones__`
      lists. `parties` holds the four role lists in the order of `RoleKeys`. */
  datatype Parsed = Parsed(
    fields: map<string, string>,
    parties: seq<seq<Party>>,
    resolutions: seq<Resolution>,
    filings: seq<Radicacion>)

  // ---------------------------------------------------------------------
  // Label/value pairs of the info list
  // ---------------------------------------------------------------------

  /** A key/value pair read from an info item, or None when it has no caption. */
  type Entry = Option<(string, string)>

  /** The key a caption gives: its stripped text with every ":" removed. */
  function KeyOf(caption: Node): string {
    RemoveAll(GetText(caption), ":")
  }

  /** "Carátula" reads the item's own text nodes only; any other key reads the
      whole item text with the caption text taken out. */
  function ValueOf(item: Node, caption: Node): string {
    if KeyOf(caption) == "Carátula" then Strip(Concat(DirectTexts(item)))
    else Strip(RemoveAll(GetText(item), GetText(caption)))
  }

  /** The item's first `span` is its caption. */
  function EntryOf(item: Visit): Entry {
    match SelectOne(item, Q("span", {}))
    case None => None
    case Some(caption) => Some((KeyOf(caption.node), ValueOf(item.node, caption.node)))
  }

  function Entries(items: seq<Visit>): (es: seq<Entry>)
    ensures |es| == |items|
  {
    seq(|items|, i requires 0 <= i < |items| => EntryOf(items[i]))
  }

  /** `datos[clave] = valor` for every labelled item, in order. */
  function FieldsOf(es: seq<Entry>): map<string, string>
    decreases |es|
  {
    if es == [] then map[]
    else
      var acc := FieldsOf(es[..|es| - 1]);
      match es[|es| - 1]
      case None => acc
      case Some(kv) => acc[kv.0 := kv.1]
  }

  /** A key is in the map exactly when some labelled item gave it. */
  lemma {:induction false} FieldsOfKeys(es: seq<Entry>)
    ensures forall k :: k in FieldsOf(es) <==> exists i :: 0 <= i < |es| && es[i] != None && es[i].value.0 == k
    decreases |es|
  {
    if es != [] {
      var init := es[..|es| - 1];
      FieldsOfKeys(init);
      forall k | k in FieldsOf(es)
        ensures exists i :: 0 <= i < |es| && es[i] != None && es[i].value.0 == k
      {
        if k in FieldsOf(init) {
          var i :| 0 <= i < |init| && init[i] != None && init[i].value.0 == k;
          assert es[i] == init[i];
        } else {
          assert es[|es| - 1] != None && es[|es| - 1].value.0 == k;
        }
      }
      forall k | exists i :: 0 <= i < |es| && es[i] != None && es[i].value.0 == k
        ensures k in FieldsOf(es)
      {
        var i :| 0 <= i < |es| && es[i] != None && es[i].value.0 == k;
        if i < |init| {
          assert init[i] == es[i];
        }
      }
    }
  }

  /** A later item with the same key overwrites an earlier one: the value kept
      is the last one given. */
  lemma {:induction false} FieldsOfLastWins(es: seq<Entry>, i: nat, k: string, v: string)
    requires i < |es| && es[i] == Some((k, v))
    requires forall j :: i < j < |es| ==> es[j] == None || es[j].value.0 != k
    ensures k in FieldsOf(es) && FieldsOf(es)[k] == v
    decreases |es|
  {
    if i < |es| - 1 {
      var init := es[..|es| - 1];
      FieldsOfLastWins(init, i, k, v);
    }
  }

  /** No key of the info fields holds a colon. */
  lemma InfoKeysHaveNoColon(items: seq<Visit>)
    ensures forall k :: k in FieldsOf(Entries(items)) ==> ':' !in k
  {
    var es := Entries(items);
    FieldsOfKeys(es);
    forall k | k in FieldsOf(es)
      ensures ':' !in k
    {
      var i :| 0 <= i < |es| && es[i] != None && es[i].value.0 == k;
      var caption := SelectOne(items[i], Q("span", {})).value;
      assert k == RemoveAll(GetText(caption.node), ":");
    }
  }

  /** The loop over `info_items` that fills `datos`. */
  method ReadFields(items: seq<Visit>) returns (datos: map<string, string>)
    ensures datos == FieldsOf(Entries(items))
  {
    var es := Entries(items);
    datos := map[];
    for k := 0 to |items|
      invariant datos == FieldsOf(es[..k])
    {
      assert es[..k + 1][..k] == es[..k];
      var e := EntryOf(items[k]);
      if e.Some? {
        datos := datos[e.value.0 := e.value.1];
      }
    }
    assert es[..|items|] == es;
  }

  // ---------------------------------------------------------------------
  // Default keys
  // ---------------------------------------------------------------------

  /** `claves_interes`. */
  const InterestKeys: seq<string> :=
    ["Expediente", "Carátula", "Delitos", "Radicación del expediente", "Estado", "Última actualización"]

  /** `datos.setdefault(clave, "")` for every key, in order. */
  function WithDefaults(m: map<string, string>, keys: seq<string>): map<string, string>
    decreases |keys|
  {
    if keys == [] then m
    else
      var acc := WithDefaults(m, keys[..|keys| - 1]);
      var k := keys[|keys| - 1];
      if k in acc then acc else acc[k := ""]
  }

  /** Every listed key is present afterwards, values already there are kept,
      the added keys map to "" and no other key is added. */
  lemma {:induction false} WithDefaultsFacts(m: map<string, string>, keys: seq<string>)
    ensures var r := WithDefaults(m, keys);
      (forall k :: k in r <==> k in m || k in keys) &&
      (forall k :: k in m ==> r[k] == m[k]) &&
      (forall k :: k in r && k !in m ==> r[k] == "")
    decreases |keys|
  {
    if keys != [] {
      WithDefaultsFacts(m, keys[..|keys| - 1]);
      assert keys == keys[..|keys| - 1] + [keys[|keys| - 1]];
    }
  }

  /** The loop over `claves_interes`. */
  method SetDefaults(m: map<string, string>) returns (datos: map<string, string>)
    ensures datos == WithDefaults(m, InterestKeys)
  {
    datos := m;
    for i := 0 to |InterestKeys|
      invariant datos == WithDefaults(m, InterestKeys[..i])
    {
      assert InterestKeys[..i + 1][..i] == InterestKeys[..i];
      var k := InterestKeys[i];
      if k !in datos {
        datos := datos[k := ""];
      }
    }
    assert InterestKeys[..|InterestKeys|] == InterestKeys;
  }

  // ---------------------------------------------------------------------
  // Filing history
  // ---------------------------------------------------------------------

  /** `li:has(span.s2:contains('Radicación del expediente'))`. */
  const FilingItem: Query :=
    Descendant([], Compound(Selector("li", {}), Has(Selector("span", {"s2"}), "Radicación del expediente")))

  /** `div.item-especial-largo.soy-first-item-largo`. */
  const FirstFilingBox: Query := Q("div", {"item-especial-largo", "soy-first-item-largo"})

  /** `div.ver-todos-panel.panel-item-largo`. */
  const HistoryPanel: Query := Q("div", {"ver-todos-panel", "panel-item-largo"})

  /** `div.item > div.item-especial-largo`. */
  const HistoryBox: Query := ChildOf(Selector("div", {"item"}), Selector("div", {"item-especial-largo"}))

  /** The stripped text of the first `div.<cls>` below the scope, or "" when there is none. */
  function Position(scope: Visit, cls: string): string {
    match SelectOne(scope, Q("div", {cls}))
    case None => []
    case Some(t) => GetText(t.node)
  }

  /** The four positions `t1a` ... `t4a` of a filing entry. */
  function FilingAt(box: Visit): EtlText.Filing {
    EtlText.Filing(Position(box, "t1a"), Position(box, "t2a"), Position(box, "t3a"), Position(box, "t4a"))
  }

  /** Every position of a scraped filing entry is a stripped text. */
  lemma FilingAtTrimmed(box: Visit)
    ensures var f := FilingAt(box);
      Trimmed(f.date) && Trimmed(f.court) && Trimmed(f.prosecutor) && Trimmed(f.office)
  {
    forall cls | cls in ["t1a", "t2a", "t3a", "t4a"]
      ensures Trimmed(Position(box, cls))
    {
      var t := SelectOne(box, Q("div", {cls}));
      if t.Some? {
        GetTextTrimmed(t.value.node);
      }
    }
  }

  /** The history entries numbered from `start`, in document order. */
  function Numbered(boxes: seq<Visit>, start: nat): (r: seq<Radicacion>)
    ensures |r| == |boxes|
  {
    seq(|boxes|, i requires 0 <= i < |boxes| => Radicacion(start + i, FilingAt(boxes[i])))
  }

  function FirstFiling(li: Visit): seq<Radicacion> {
    match SelectOne(li, FirstFilingBox)
    case None => []
    case Some(box) => [Radicacion(1, FilingAt(box))]
  }

  function HistoryBoxes(li: Visit): seq<Visit> {
    match SelectOne(li, HistoryPanel)
    case None => []
    case Some(panel) => Select(panel, HistoryBox)
  }

  /** `radicaciones`: the first entry with orden 1, then the panel's entries from 2 on. */
  function FilingsOf(root: Visit): seq<Radicacion> {
    match SelectOne(root, FilingItem)
    case None => []
    case Some(li) => FirstFiling(li) + Numbered(HistoryBoxes(li), 2)
  }

  /** The numbering is consecutive; it starts at 1 exactly when the entry
      marked as the first one is present, and at 2 otherwise. */
  lemma FilingsNumbered(root: Visit)
    ensures var fs := FilingsOf(root);
      (forall k :: 0 <= k < |fs| ==> fs[k].orden == fs[0].orden + k) &&
      (fs != [] ==>
        (fs[0].orden == 1 <==> SelectOne(SelectOne(root, FilingItem).value, FirstFilingBox).Some?) &&
        (fs[0].orden == 1 || fs[0].orden == 2))
  {
    if SelectOne(root, FilingItem).Some? {
      var li := SelectOne(root, FilingItem).value;
      assert FirstFiling(li) != [] <==> SelectOne(li, FirstFilingBox).Some?;
      var hs := Numbered(HistoryBoxes(li), 2);
      assert forall k :: 0 <= k < |hs| ==> hs[k].orden == 2 + k;
      NumberedAfter(FirstFiling(li), hs);
    }
  }

  /** Entries numbered consecutively from 2, after an optional first entry
      numbered 1. */
  lemma NumberedAfter(first: seq<Radicacion>, hs: seq<Radicacion>)
    requires first == [] || (|first| == 1 && first[0].orden == 1)
    requires forall k :: 0 <= k < |hs| ==> hs[k].orden == 2 + k
    ensures var fs := first + hs;
      (forall k :: 0 <= k < |fs| ==> fs[k].orden == fs[0].orden + k) &&
      (fs != [] ==> (fs[0].orden == 1 <==> first != []) && (fs[0].orden == 1 || fs[0].orden == 2))
  {
    var fs := first + hs;
    var d := |first|;
    forall k | 0 <= k < |fs|
      ensures fs[k].orden == 2 - d + k
    {
      if k >= d {
        assert fs[k] == hs[k - d];
      }
    }
  }

  lemma NumberedSnoc(boxes: seq<Visit>, k: nat)
    requires k < |boxes|
    ensures Numbered(boxes[..k + 1], 2) == Numbered(boxes[..k], 2) + [Radicacion(k + 2, FilingAt(boxes[k]))]
  {
  }

  /** The loop over the history panel's entries, numbered from 2. */
  method ReadHistory(boxes: seq<Visit>, start: seq<Radicacion>) returns (filings: seq<Radicacion>)
    ensures filings == start + Numbered(boxes, 2)
  {
    filings := start;
    for k := 0 to |boxes|
      invariant filings == start + Numbered(boxes[..k], 2)
    {
      NumberedSnoc(boxes, k);
      filings := filings + [Radicacion(k + 2, FilingAt(boxes[k]))];
    }
    assert boxes[..|boxes|] == boxes;
  }

  /** The first entry, then the history panel. */
  method ReadFilings(root: Visit) returns (filings: seq<Radicacion>)
    ensures filings == FilingsOf(root)
  {
    filings := [];
    var li := SelectOne(root, FilingItem);
    if li.None? {
      return;
    }
    var first := SelectOne(li.value, FirstFilingBox);
    if first.Some? {
      filings := [Radicacion(1, FilingAt(first.value))];
    }
    filings := ReadHistory(HistoryBoxes(li.value), filings);
  }

  /** The first entry's positions joined by " | ". */
  function Summary(f: EtlText.Filing): string {
    f.date + " | " + f.court + " | " + f.prosecutor + " | " + f.office
  }

  /** `x + " | " + y` regrouped around the bar. */
  lemma Bar(x: string, y: string)
    ensures x + " | " + y == (x + " ") + ['|'] + (" " + y)
  {
  }

  lemma SplitFour(a: string, b: string, c: string, d: string)
    requires '|' !in a && '|' !in b && '|' !in c && '|' !in d
    ensures Split(a + ['|'] + (b + ['|'] + (c + ['|'] + d)), '|') == [a, b, c, d]
  {
    SplitJoin(a, '|', b + ['|'] + (c + ['|'] + d));
    SplitJoin(b, '|', c + ['|'] + d);
    SplitJoin(c, '|', d);
    SplitNone(d, '|');
  }

  /** When no position holds a "|", the summary splits back into exactly four
      parts, one per position. */
  lemma SummarySplit(f: EtlText.Filing)
    requires '|' !in f.date && '|' !in f.court && '|' !in f.prosecutor && '|' !in f.office
    ensures Split(Summary(f), '|') == [f.date + " ", " " + f.court + " ", " " + f.prosecutor + " ", " " + f.office]
  {
    var a, b, c, d := f.date + " ", " " + f.court + " ", " " + f.prosecutor + " ", " " + f.office;
    Bar(f.prosecutor, f.office);
    Bar(f.court, f.prosecutor + " | " + f.office);
    Bar(f.date, f.court + " | " + f.prosecutor + " | " + f.office);
    assert Summary(f) == f.date + " | " + (f.court + " | " + (f.prosecutor + " | " + f.office));
    assert Summary(f) == a + ['|'] + (b + ['|'] + (c + ['|'] + d));
    assert '|' !in a && '|' !in b && '|' !in c && '|' !in d;
    SplitFour(a, b, c, d);
  }

  /** A filing string's date and court are its first two parts, stripped. */
  lemma FilingDateCourt(text: string)
    requires |Split(text, '|')| >= 2
    ensures EtlText.FilingOf(text).date == Strip(Split(text, '|')[0])
    ensures EtlText.FilingOf(text).court == Strip(Split(text, '|')[1])
  {
    assert text != [];
  }

  /** ... and reading the summary as a filing string gives back the date and the court. */
  lemma SummaryRoundTrip(f: EtlText.Filing)
    requires '|' !in f.date && '|' !in f.court && '|' !in f.prosecutor && '|' !in f.office
    requires Trimmed(f.date) && Trimmed(f.court)
    ensures EtlText.FilingOf(Summary(f)).date == f.date
    ensures EtlText.FilingOf(Summary(f)).court == f.court
  {
    SummarySplit(f);
    FilingDateCourt(Summary(f));
    StripSpaceAfter(f.date);
    StripSpaceAround(f.court);
  }

  lemma StripSpaceAfter(s: string)
    requires Trimmed(s)
    ensures Strip(s + " ") == s
  {
    assert IsSpace(' ');
    StripPadded([], s, " ");
    assert [] + s + " " == s + " ";
  }

  lemma StripSpaceAround(s: string)
    requires Trimmed(s)
    ensures Strip(" " + s + " ") == s
  {
    assert IsSpace(' ');
    StripPadded(" ", s, " ");
  }

  // ---------------------------------------------------------------------
  // Parties by role
  // ---------------------------------------------------------------------

  /** The role lists in export order, and the word in a section title that
      selects each of them. */
  const RoleKeys: seq<string> := ["imputados", "denunciados", "denunciantes", "querellantes"]
  const RoleWords: seq<string> := ["IMPUTADO", "DENUNCIADO", "DENUNCIANTE", "QUERELLANTE"]

  /** The first role word from position `k` on that the title contains. */
  function FirstRoleFrom(title: string, k: nat): (r: Option<nat>)
    ensures r.Some? ==> k <= r.value < 4
    decreases 4 - k
  {
    if k >= 4 then None
    else if Contains(title, RoleWords[k]) then Some(k)
    else FirstRoleFrom(title, k + 1)
  }

  /** The role a section title selects. */
  function RoleOf(title: string): Option<nat> {
    FirstRoleFrom(Upper(title), 0)
  }

  lemma {:induction false} FirstRoleFromFacts(t: string, k: nat)
    requires k <= 4
    ensures var r := FirstRoleFrom(t, k);
      (r.None? <==> forall j :: k <= j < 4 ==> !Contains(t, RoleWords[j])) &&
      (r.Some? ==> Contains(t, RoleWords[r.value]) && forall j :: k <= j < r.value ==> !Contains(t, RoleWords[j]))
    decreases 4 - k
  {
    if k < 4 && !Contains(t, RoleWords[k]) {
      FirstRoleFromFacts(t, k + 1);
    }
  }

  /** A section goes to the first role whose word its upper-cased title
      contains, and to none when it contains none of them. */
  lemma RoleOfFirstMatch(title: string)
    ensures RoleOf(title).None? <==> forall j :: 0 <= j < 4 ==> !Contains(Upper(title), RoleWords[j])
    ensures RoleOf(title).Some? ==>
      var r := RoleOf(title).value;
      r < 4 && Contains(Upper(title), RoleWords[r]) && forall j :: 0 <= j < r ==> !Contains(Upper(title), RoleWords[j])
  {
    FirstRoleFromFacts(Upper(title), 0);
  }

  /** `[t.strip() for t in ts if t.strip()]`. */
  function NonBlank(ts: seq<string>): (r: seq<string>)
    ensures forall i :: 0 <= i < |r| ==> r[i] != []
    decreases |ts|
  {
    if ts == [] then []
    else
      var rest := NonBlank(ts[..|ts| - 1]);
      var t := Strip(ts[|ts| - 1]);
      if t == [] then rest else rest + [t]
  }

  /** Every kept text is non-empty and stripped. */
  lemma {:induction false} NonBlankTrimmed(ts: seq<string>)
    ensures forall i :: 0 <= i < |NonBlank(ts)| ==> NonBlank(ts)[i] != [] && Trimmed(NonBlank(ts)[i])
    decreases |ts|
  {
    if ts != [] {
      var rest := NonBlank(ts[..|ts| - 1]);
      var t := Strip(ts[|ts| - 1]);
      NonBlankTrimmed(ts[..|ts| - 1]);
      if t != [] {
        assert NonBlank(ts) == rest + [t];
        TrimmedSnoc(rest, t);
      }
    }
  }

  /** Appending a non-empty stripped text keeps every text non-empty and stripped. */
  lemma TrimmedSnoc(ts: seq<string>, t: string)
    requires forall i :: 0 <= i < |ts| ==> ts[i] != [] && Trimmed(ts[i])
    requires t != [] && Trimmed(t)
    ensures forall i :: 0 <= i < |ts + [t]| ==> (ts + [t])[i] != [] && Trimmed((ts + [t])[i])
  {
    forall i | 0 <= i < |ts + [t]|
      ensures (ts + [t])[i] != [] && Trimmed((ts + [t])[i])
    {
      if i < |ts| {
        assert (ts + [t])[i] == ts[i];
      }
    }
  }

  /** A party name: its own non-blank text nodes, stripped, joined by single spaces. */
  function PartyName(li: Node): string {
    Join(" ", NonBlank(DirectTexts(li)))
  }

  /** Joining non-empty stripped pieces by a space gives a stripped text that
      is empty only when there are no pieces. */
  lemma {:induction false} JoinTrimmed(ps: seq<string>)
    requires forall i :: 0 <= i < |ps| ==> ps[i] != [] && Trimmed(ps[i])
    ensures Trimmed(Join(" ", ps))
    ensures Join(" ", ps) == [] <==> ps == []
    decreases |ps|
  {
    if |ps| > 1 {
      JoinTrimmed(ps[1..]);
      var a, b := ps[0], Join(" ", ps[1..]);
      assert Join(" ", ps) == a + " " + b;
      assert (a + " " + b)[0] == a[0];
      assert b != [] && (a + " " + b)[|a + " " + b| - 1] == b[|b| - 1];
    }
  }

  /** The name has no whitespace at its ends, and it is empty exactly when
      all of the item's own text nodes are blank. */
  lemma {:induction false} PartyNameFacts(li: Node)
    ensures Trimmed(PartyName(li))
    ensures PartyName(li) == [] <==> forall i :: 0 <= i < |DirectTexts(li)| ==> AllSpace(DirectTexts(li)[i])
  {
    NonBlankTrimmed(DirectTexts(li));
    JoinTrimmed(NonBlank(DirectTexts(li)));
    NonBlankEmpty(DirectTexts(li));
  }

  lemma {:induction false} NonBlankEmpty(ts: seq<string>)
    ensures NonBlank(ts) == [] <==> forall i :: 0 <= i < |ts| ==> AllSpace(ts[i])
    decreases |ts|
  {
    if ts != [] {
      var init := ts[..|ts| - 1];
      var last := ts[|ts| - 1];
      NonBlankEmpty(init);
      StripEmpty(last);
      if Strip(last) == [] {
        assert NonBlank(ts) == NonBlank(init);
        assert forall i :: 0 <= i < |init| ==> init[i] == ts[i];
      } else {
        assert NonBlank(ts) == NonBlank(init) + [Strip(last)];
      }
    }
  }

  /** The counsel listed under a party: every `div.item` of its `div.ver-todos-panel-2`. */
  function CounselOf(li: Visit): seq<string> {
    match SelectOne(li, Q("div", {"ver-todos-panel-2"}))
    case None => []
    case Some(panel) =>
      var items := Select(panel, Q("div", {"item"}));
      seq(|items|, i requires 0 <= i < |items| => GetText(items[i].node))
  }

  function PartyOf(li: Visit): Party {
    Party(PartyName(li.node), CounselOf(li))
  }

  /** `ul li`. */
  const PartyItem: Query := Descendant([Compound(Selector("ul", {}), Plain)], Compound(Selector("li", {}), Plain))

  function Parties(lis: seq<Visit>): (r: seq<Party>)
    ensures |r| == |lis|
  {
    seq(|lis|, i requires 0 <= i < |lis| => PartyOf(lis[i]))
  }

  /** A section's role and parties; None when it has no `div.resalta` title
      or the title names no role. */
  function SectionOf(sec: Visit): Option<(nat, seq<Party>)> {
    match SelectOne(sec, Q("div", {"resalta"}))
    case None => None
    case Some(title) =>
      match RoleOf(GetText(title.node))
      case None => None
      case Some(r) => Some((r, Parties(Select(sec, PartyItem))))
  }

  /** The loop over one section's `ul li` items. */
  method ReadSection(sec: Visit) returns (s: Option<(nat, seq<Party>)>)
    ensures s == SectionOf(sec)
  {
    var title := SelectOne(sec, Q("div", {"resalta"}));
    if title.None? {
      return None;
    }
    var lis := Select(sec, PartyItem);
    var participantes := [];
    for k := 0 to |lis|
      invariant participantes == Parties(lis[..k])
    {
      participantes := participantes + [PartyOf(lis[k])];
    }
    assert lis[..|lis|] == lis;
    var r := RoleOf(GetText(title.value.node));
    s := if r.None? then None else Some((r.value, participantes));
  }

  /** The intervener sections: every `div.item-especial-largo-2` in the
      block's first `div.ver-todos-panel`. */
  function Sections(root: Visit): seq<Visit> {
    match SelectOne(root, Q("div", {"ver-todos-panel"}))
    case None => []
    case Some(panel) => Select(panel, Q("div", {"item-especial-largo-2"}))
  }

  function NoParties(): (r: seq<seq<Party>>)
    ensures |r| == 4 && forall i :: 0 <= i < 4 ==> r[i] == []
  {
    [[], [], [], []]
  }

  /** `extend` of the role list the section selects. */
  function AddSection(roles: seq<seq<Party>>, s: Option<(nat, seq<Party>)>): (r: seq<seq<Party>>)
    requires |roles| == 4
    ensures |r| == 4
  {
    match s
    case None => roles
    case Some(rp) => if rp.0 < 4 then roles[rp.0 := roles[rp.0] + rp.1] else roles
  }

  function RolesOf(ss: seq<Option<(nat, seq<Party>)>>): (r: seq<seq<Party>>)
    ensures |r| == 4
    decreases |ss|
  {
    if ss == [] then NoParties() else AddSection(RolesOf(ss[..|ss| - 1]), ss[|ss| - 1])
  }

  /** The parties of the sections that select role `r`, in order: the
      reference each role list is checked against. */
  function PartiesFor(ss: seq<Option<(nat, seq<Party>)>>, r: nat): seq<Party>
    decreases |ss|
  {
    if ss == [] then []
    else
      var s := ss[|ss| - 1];
      PartiesFor(ss[..|ss| - 1], r) + (if s.Some? && s.value.0 == r then s.value.1 else [])
  }

  /** Each role list holds exactly the parties of the sections that select
      that role, so a section's parties reach one list at most. */
  lemma {:induction false} RolesOfPartition(ss: seq<Option<(nat, seq<Party>)>>)
    ensures forall r :: 0 <= r < 4 ==> RolesOf(ss)[r] == PartiesFor(ss, r)
    decreases |ss|
  {
    if ss != [] {
      RolesOfPartition(ss[..|ss| - 1]);
    }
  }

  /** The loop over the intervener sections. */
  method ReadRoles(root: Visit) returns (roles: seq<seq<Party>>)
    ensures roles == RolesOf(SectionsOf(root))
  {
    var secs := Sections(root);
    var ss := SectionsOf(root);
    roles := NoParties();
    for k := 0 to |secs|
      invariant roles == RolesOf(ss[..k])
    {
      assert ss[..k + 1][..k] == ss[..k];
      var s := ReadSection(secs[k]);
      roles := AddSection(roles, s);
    }
    assert ss[..|secs|] == ss;
  }

  function SectionsOf(root: Visit): (ss: seq<Option<(nat, seq<Party>)>>)
    ensures |ss| == |Sections(root)|
  {
    var secs := Sections(root);
    seq(|secs|, i requires 0 <= i < |secs| => SectionOf(secs[i]))
  }

  // ---------------------------------------------------------------------
  // Resolutions
  // ---------------------------------------------------------------------

  /** `li:has(span:contains('Resolución/es')) div.ver-todos-panel`. */
  const ResolutionPanel: Query :=
    Descendant([Compound(Selector("li", {}), Has(Selector("span", {}), "Resolución/es"))],
               Compound(Selector("div", {"ver-todos-panel"}), Plain))

  /** `div.item a`. */
  const ResolutionLink: Query :=
    Descendant([Compound(Selector("div", {"item"}), Plain)], Compound(Selector("a", {}), Plain))

  /** A link's resolution: the text split at its first colon into a stripped
      date and name, or the whole text as the name with no date; None for an
      empty text. */
  function ResolutionOf(a: Node): Option<Resolution> {
    var text := GetText(a);
    var link := Strip(match Attr(a, "href") case None => [] case Some(h) => h);
    if text == [] then None
    else if ':' in text then
      var parts := SplitFirst(text, ':');
      Some(Resolution(Strip(parts.0), Strip(parts.1), link))
    else Some(Resolution([], text, link))
  }

  lemma ResolutionOfFacts(a: Node)
    ensures ResolutionOf(a).None? <==> GetText(a) == []
    ensures ResolutionOf(a).Some? && ':' !in GetText(a) ==>
      ResolutionOf(a).value.date == [] && ResolutionOf(a).value.name == GetText(a)
    ensures ResolutionOf(a).Some? && ':' in GetText(a) ==>
      exists before, after :: GetText(a) == before + ":" + after && ':' !in before &&
        ResolutionOf(a).value.date == Strip(before) && ResolutionOf(a).value.name == Strip(after) &&
        ':' !in ResolutionOf(a).value.date
    ensures ResolutionOf(a).Some? ==> Trimmed(ResolutionOf(a).value.link) && Trimmed(ResolutionOf(a).value.name)
  {
    var text := GetText(a);
    GetTextTrimmed(a);
    if text != [] && ':' in text {
      var parts := SplitFirst(text, ':');
      assert text == parts.0 + ":" + parts.1;
      StripSubstring(parts.0);
    }
  }

  /** Stripping takes a piece of the text, so it adds no character. */
  lemma StripSubstring(s: string)
    ensures forall c :: c in Strip(s) ==> c in s
  {
    var l := LStrip(s);
    var r := RStrip(l);
    assert Strip(s) == r;
    forall c | c in r ensures c in s {
      var p :| 0 <= p < |r| && r[p] == c;
      assert l[p] == c;
      assert s[|s| - |l| + p] == c;
    }
  }

  function ResolutionLinks(root: Visit): seq<Visit> {
    match SelectOne(root, ResolutionPanel)
    case None => []
    case Some(panel) => Select(panel, ResolutionLink)
  }

  /** The resolutions of the links with a non-empty text, in order. */
  function ResolutionsOf(links: seq<Visit>): seq<Resolution>
    decreases |links|
  {
    if links == [] then []
    else
      var rest := ResolutionsOf(links[..|links| - 1]);
      match ResolutionOf(links[|links| - 1].node)
      case None => rest
      case Some(r) => rest + [r]
  }

  /** The loop over the resolution links. */
  method ReadResolutions(root: Visit) returns (resoluciones: seq<Resolution>)
    ensures resoluciones == ResolutionsOf(ResolutionLinks(root))
  {
    var links := ResolutionLinks(root);
    resoluciones := [];
    for k := 0 to |links|
      invariant resoluciones == ResolutionsOf(links[..k])
    {
      assert links[..k + 1][..k] == links[..k];
      var r := ResolutionOf(links[k].node);
      if r.Some? {
        resoluciones := resoluciones + [r.value];
      }
    }
    assert links[..|links|] == links;
  }

  // ---------------------------------------------------------------------
  // The whole block
  // ---------------------------------------------------------------------

  const FilingKey: string := "Radicación del expediente"

  /** The caption fields, with the first filing entry's summary over the
      filing field when there is one. */
  function FieldsWithSummary(b: Node): map<string, string>
    requires InfoList(b).Some?
  {
    var fields := FieldsOf(Entries(InfoItems(b)));
    var filings := FilingsOf(Root(PruneBlock(b)));
    if filings == [] then fields else fields[FilingKey := Summary(filings[0].filing)]
  }

  /** `procesar_bloque` as a value. The block must hold an info list. */
  function ParseBlock(b: Node): Parsed
    requires InfoList(b).Some?
  {
    var root := Root(PruneBlock(b));
    Parsed(
      WithDefaults(FieldsWithSummary(b), InterestKeys),
      RolesOf(SectionsOf(root)),
      ResolutionsOf(ResolutionLinks(root)),
      FilingsOf(root))
  }

  /** The parsed map holds every key of interest; its keys are the labels read
      and those keys; the filing field is the first entry's summary whenever
      the history is non-empty; and there are four role lists. */
  lemma ParseBlockFacts(b: Node)
    requires InfoList(b).Some?
    ensures var p := ParseBlock(b);
      (forall k :: k in InterestKeys ==> k in p.fields) &&
      (forall k :: k in p.fields ==> k in InterestKeys || k in FieldsOf(Entries(InfoItems(b)))) &&
      (p.filings != [] ==> p.fields[FilingKey] == Summary(p.filings[0].filing)) &&
      (p.filings == [] && FilingKey !in FieldsOf(Entries(InfoItems(b))) ==> p.fields[FilingKey] == "") &&
      |p.parties| == 4
  {
    WithDefaultsFacts(FieldsWithSummary(b), InterestKeys);
    assert FilingKey in InterestKeys;
  }

  /** `procesar_bloque`: the toggle controls are removed, then each part is read. */
  method ProcesarBloque(b: Node) returns (p: Parsed)
    requires InfoList(b).Some?
    ensures p == ParseBlock(b)
  {
    var datos := ReadFields(InfoItems(b));
    var root := Root(PruneBlock(b));
    var radicaciones := ReadFilings(root);
    if radicaciones != [] {
      datos := datos[FilingKey := Summary(radicaciones[0].filing)];
    }
    var roles := ReadRoles(root);
    var resoluciones := ReadResolutions(root);
    datos := SetDefaults(datos);
    p := Parsed(datos, roles, resoluciones, radicaciones);
  }
}
