/**
 * procesar_jueces_y_relaciones (etl_expedientes.py): the judges of the court
 * directory and the court-judge relation. A row names its judge either in a
 * column of its own or inside a "responsables" text; contacts from the first
 * kind overwrite, contacts from the second only fill what is still empty.
 */
module EtlJudges {
  import opened Optional
  import opened Strings
  import opened Sorting
  import opened EtlText
  import opened EtlCourts
  import opened Responsables

  /** The columns of a directory row the stage reads; None where the file has
      no column for that role. */
  datatype JudgeSourceRow = JudgeSourceRow(
    court: Option<Cell>,
    judge: Option<Cell>,
    role: Option<Cell>,
    status: Option<Cell>,
    email: Option<Cell>,
    phone: Option<Cell>,
    responsables: Option<Cell>)

  datatype Contact = Contact(email: Option<string>, phone: Option<string>)

  /** `(tribunal_id, nombre, cargo, situacion)`. */
  datatype Relation = Relation(courtId: nat, judge: string, role: Option<string>, status: Option<string>)

  /** What a row does to one contact field of a judge. */
  datatype Update =
    | Overwrite(value: Option<string>)  // an explicit column whose cell is not empty
    | Keep                              // an explicit column that is missing or empty
    | FillIfEmpty(value: Option<string>) // a field parsed from "responsables"

  /** One judge a row mentions: the contact a new entry starts from, the
      updates to it, and the relation the row adds. */
  datatype Mention = Mention(name: string, initial: Contact, email: Update, phone: Update, relation: Relation)

  datatype Judges = Judges(names: seq<string>, byName: map<string, Contact>, relations: set<Relation>)

  /** The listed names are the keys of the dictionary, and every relation
      names a judge of it. */
  ghost predicate Valid(js: Judges) {
    && (forall n :: n in js.names <==> n in js.byName)
    && (forall r :: r in js.relations ==> r.judge in js.byName)
  }

  function Apply(u: Update, cur: Option<string>): (r: Option<string>)
    ensures u.Keep? ==> r == cur
    ensures u.FillIfEmpty? && Truthy(cur) ==> r == cur
  {
    match u
    case Overwrite(v) => v
    case Keep => cur
    case FillIfEmpty(v) => if !Truthy(cur) && Truthy(v) then v else cur
  }

  /** `jueces.setdefault(nombre, initial)`, the field updates, and
      `relaciones.add(...)`. */
  function Record(js: Judges, m: Mention): Judges {
    var known := m.name in js.byName;
    var c := if known then js.byName[m.name] else m.initial;
    Judges(if known then js.names else js.names + [m.name],
           js.byName[m.name := Contact(Apply(m.email, c.email), Apply(m.phone, c.phone))],
           js.relations + {m.relation})
  }

  function RecordAll(js: Judges, ms: seq<Mention>): Judges
    decreases |ms|
  {
    if ms == [] then js else Record(RecordAll(js, ms[..|ms| - 1]), ms[|ms| - 1])
  }

  // ---------------------------------------------------------------------
  // What a row mentions
  // ---------------------------------------------------------------------

  /** `if col and pd.notna(row[col]): value = limpiar_texto(row[col])`. */
  function CellUpdate(cell: Option<Cell>): Update {
    if cell.Some? && cell.value.Text? then Overwrite(CleanText(Some(cell.value.text))) else Keep
  }

  /** Case 1: the judge column holds text. A blank name mentions nobody. */
  function ExplicitMentions(row: JudgeSourceRow, courtId: nat, text: string): seq<Mention> {
    var name := CleanText(Some(text));
    if name.Some? then
      [Mention(name.value, Contact(None, None), CellUpdate(row.email), CellUpdate(row.phone),
               Relation(courtId, name.value, Field(row.role), Field(row.status)))]
    else []
  }

  /** Case 2: one mention per magistrate of the "responsables" text. */
  function ListedMention(m: Magistrate, courtId: nat): Mention {
    Mention(m.name, Contact(m.email, m.phone), FillIfEmpty(m.email), FillIfEmpty(m.phone),
            Relation(courtId, m.name, m.role, m.status))
  }

  function ListedMentions(mags: seq<Magistrate>, courtId: nat): (ms: seq<Mention>)
    ensures |ms| == |mags|
  {
    seq(|mags|, k requires 0 <= k < |mags| => ListedMention(mags[k], courtId))
  }

  /** The judges a row mentions: none when its court is blank or not in the
      court dimension; the judge column when it holds text; otherwise the
      "responsables" text when it holds text. */
  function RowMentions(row: JudgeSourceRow, ids: map<string, nat>): seq<Mention> {
    var court := FieldAsWritten(row.court);
    if court.None? || court.value !in ids then []
    else if row.judge.Some? && row.judge.value.Text? then ExplicitMentions(row, ids[court.value], row.judge.value.text)
    else if row.responsables.Some? && row.responsables.value.Text? then
      ListedMentions(Magistrates(row.responsables.value.text), ids[court.value])
    else []
  }

  /** As written, an empty court cell is read as the court "nan": the row
      mentions no judge unless the court dimension has a court "nan", and
      otherwise its judges are filed under that court's id. */
  lemma NaNCourtCellAsWritten(row: JudgeSourceRow, ids: map<string, nat>)
    requires row.court == Some(NaN)
    ensures "nan" !in ids ==> RowMentions(row, ids) == []
    ensures "nan" in ids && row.judge.Some? && row.judge.value.Text? ==>
      RowMentions(row, ids) == ExplicitMentions(row, ids["nan"], row.judge.value.text)
    ensures ("nan" in ids && !(row.judge.Some? && row.judge.value.Text?)
             && row.responsables.Some? && row.responsables.value.Text?) ==>
      RowMentions(row, ids) == ListedMentions(Magistrates(row.responsables.value.text), ids["nan"])
  {
    NanIsClean();
    assert FieldAsWritten(row.court) == Some("nan");
  }

  function AllMentions(rows: seq<JudgeSourceRow>, ids: map<string, nat>): seq<Mention>
    decreases |rows|
  {
    if rows == [] then [] else AllMentions(rows[..|rows| - 1], ids) + RowMentions(rows[|rows| - 1], ids)
  }

  /** The judges and relations after the loop over the rows. */
  function JudgesOf(rows: seq<JudgeSourceRow>, ids: map<string, nat>): Judges {
    RecordAll(Judges([], map[], {}), AllMentions(rows, ids))
  }

  // ---------------------------------------------------------------------
  // Properties of the updates
  // ---------------------------------------------------------------------

  lemma RecordFacts(js: Judges, m: Mention)
    requires Valid(js) && m.relation.judge == m.name
    ensures var js' := Record(js, m);
      && Valid(js')
      && js'.byName.Keys == js.byName.Keys + {m.name}
      && js'.relations == js.relations + {m.relation}
      && (forall n :: n in js.byName && n != m.name ==> js'.byName[n] == js.byName[n])
  {
  }

  /** After the loop every mentioned judge has an entry, every relation names
      one, and nothing else is there. */
  lemma RecordAllFacts(js: Judges, ms: seq<Mention>)
    requires Valid(js)
    requires forall k :: 0 <= k < |ms| ==> ms[k].relation.judge == ms[k].name
    ensures Valid(RecordAll(js, ms))
    ensures forall n :: n in RecordAll(js, ms).byName <==>
      n in js.byName || exists k :: 0 <= k < |ms| && ms[k].name == n
    ensures forall r :: r in RecordAll(js, ms).relations <==>
      r in js.relations || exists k :: 0 <= k < |ms| && ms[k].relation == r
  {
    RecordAllValid(js, ms);
    RecordAllKeys(js, ms);
    RecordAllRelations(js, ms);
  }

  lemma {:induction false} RecordAllValid(js: Judges, ms: seq<Mention>)
    requires Valid(js)
    requires forall k :: 0 <= k < |ms| ==> ms[k].relation.judge == ms[k].name
    ensures Valid(RecordAll(js, ms))
    decreases |ms|
  {
    if ms != [] {
      var init := ms[..|ms| - 1];
      assert forall k :: 0 <= k < |init| ==> init[k] == ms[k];
      RecordAllValid(js, init);
      RecordFacts(RecordAll(js, init), ms[|ms| - 1]);
    }
  }

  lemma {:induction false} RecordAllKeys(js: Judges, ms: seq<Mention>)
    ensures forall n :: n in RecordAll(js, ms).byName <==>
      n in js.byName || exists k :: 0 <= k < |ms| && ms[k].name == n
    decreases |ms|
  {
    if ms != [] {
      var init := ms[..|ms| - 1];
      assert forall k :: 0 <= k < |init| ==> init[k] == ms[k];
      RecordAllKeys(js, init);
      assert RecordAll(js, ms).byName.Keys == RecordAll(js, init).byName.Keys + {ms[|ms| - 1].name};
      forall n ensures n in RecordAll(js, ms).byName <==>
        n in js.byName || exists k :: 0 <= k < |ms| && ms[k].name == n
      {
        if exists k :: 0 <= k < |ms| && ms[k].name == n {
          var k :| 0 <= k < |ms| && ms[k].name == n;
          if k < |init| {
            assert init[k].name == n;
          }
        }
      }
    }
  }

  lemma {:induction false} RecordAllRelations(js: Judges, ms: seq<Mention>)
    ensures forall r :: r in RecordAll(js, ms).relations <==>
      r in js.relations || exists k :: 0 <= k < |ms| && ms[k].relation == r
    decreases |ms|
  {
    if ms != [] {
      var init := ms[..|ms| - 1];
      assert forall k :: 0 <= k < |init| ==> init[k] == ms[k];
      RecordAllRelations(js, init);
      assert RecordAll(js, ms).relations == RecordAll(js, init).relations + {ms[|ms| - 1].relation};
      forall r ensures r in RecordAll(js, ms).relations <==>
        r in js.relations || exists k :: 0 <= k < |ms| && ms[k].relation == r
      {
        if exists k :: 0 <= k < |ms| && ms[k].relation == r {
          var k :| 0 <= k < |ms| && ms[k].relation == r;
          if k < |init| {
            assert init[k].relation == r;
          }
        }
      }
    }
  }

  /** A "responsables" mention never replaces a contact field that is already
      set: `if not jueces[nombre].get("email") and mag.get("email")`. */
  lemma ListedKeepsContact(js: Judges, m: Mention, n: string)
    requires m.email.FillIfEmpty? && m.phone.FillIfEmpty?
    requires n in js.byName
    ensures n in Record(js, m).byName
    ensures Truthy(js.byName[n].email) ==> Record(js, m).byName[n].email == js.byName[n].email
    ensures Truthy(js.byName[n].phone) ==> Record(js, m).byName[n].phone == js.byName[n].phone
    ensures !Truthy(js.byName[n].email) && n == m.name ==>
      Record(js, m).byName[n].email == (if Truthy(m.email.value) then m.email.value else js.byName[n].email)
  {
  }

  /** Over a run of "responsables" mentions an e-mail that is set stays as it is. */
  lemma {:induction false} ListedRunKeepsContact(js: Judges, ms: seq<Mention>, n: string)
    requires n in js.byName && Truthy(js.byName[n].email)
    requires forall k :: 0 <= k < |ms| ==> ms[k].email.FillIfEmpty? && ms[k].phone.FillIfEmpty?
    ensures n in RecordAll(js, ms).byName && RecordAll(js, ms).byName[n].email == js.byName[n].email
    decreases |ms|
  {
    if ms != [] {
      var init := ms[..|ms| - 1];
      assert forall k :: 0 <= k < |init| ==> init[k] == ms[k];
      ListedRunKeepsContact(js, init, n);
      ListedKeepsContact(RecordAll(js, init), ms[|ms| - 1], n);
    }
  }

  /** An explicit mention sets a field whose cell holds text, even to None
      when that text is blank, and keeps it otherwise. */
  lemma ExplicitOverwrites(js: Judges, row: JudgeSourceRow, courtId: nat, text: string)
    requires CleanText(Some(text)).Some?
    ensures var m := ExplicitMentions(row, courtId, text)[0];
      var n := CleanText(Some(text)).value;
      var c := Record(js, m).byName[n];
      && (row.email.Some? && row.email.value.Text? ==> c.email == CleanText(Some(row.email.value.text)))
      && (!(row.email.Some? && row.email.value.Text?) ==> c.email == (if n in js.byName then js.byName[n].email else None))
      && (row.phone.Some? && row.phone.value.Text? ==> c.phone == CleanText(Some(row.phone.value.text)))
      && (!(row.phone.Some? && row.phone.value.Text?) ==> c.phone == (if n in js.byName then js.byName[n].phone else None))
  {
  }

  /** A judge first seen in a "responsables" text takes that text's contact. */
  lemma ListedNewJudge(js: Judges, m: Magistrate, courtId: nat)
    requires m.name !in js.byName
    ensures Record(js, ListedMention(m, courtId)).byName[m.name] == Contact(m.email, m.phone)
  {
  }

  /** A mention's relation names its judge, whose name is not empty, at a
      court of the court dimension. */
  predicate WellFormed(m: Mention, ids: map<string, nat>) {
    m.relation.judge == m.name && m.relation.courtId in ids.Values && m.name != []
  }

  lemma {:induction false} MentionsWellFormed(rows: seq<JudgeSourceRow>, ids: map<string, nat>)
    ensures forall k :: 0 <= k < |AllMentions(rows, ids)| ==> WellFormed(AllMentions(rows, ids)[k], ids)
    decreases |rows|
  {
    if rows != [] {
      MentionsWellFormed(rows[..|rows| - 1], ids);
      RowMentionsWellFormed(rows[|rows| - 1], ids);
      ConcatWellFormed(AllMentions(rows[..|rows| - 1], ids), RowMentions(rows[|rows| - 1], ids), ids);
    }
  }

  lemma ConcatWellFormed(a: seq<Mention>, b: seq<Mention>, ids: map<string, nat>)
    requires forall k :: 0 <= k < |a| ==> WellFormed(a[k], ids)
    requires forall k :: 0 <= k < |b| ==> WellFormed(b[k], ids)
    ensures forall k :: 0 <= k < |a + b| ==> WellFormed((a + b)[k], ids)
  {
    assert forall k :: 0 <= k < |a + b| ==> (a + b)[k] == (if k < |a| then a[k] else b[k - |a|]);
  }

  lemma RowMentionsWellFormed(row: JudgeSourceRow, ids: map<string, nat>)
    ensures forall k :: 0 <= k < |RowMentions(row, ids)| ==> WellFormed(RowMentions(row, ids)[k], ids)
  {
    var court := FieldAsWritten(row.court);
    if court.Some? && court.value in ids {
      if row.judge.Some? && row.judge.value.Text? {
        ExplicitWellFormed(row, ids[court.value], row.judge.value.text, ids);
      } else if row.responsables.Some? && row.responsables.value.Text? {
        var mags := Magistrates(row.responsables.value.text);
        MagistratesNames(row.responsables.value.text);
        ListedWellFormed(mags, ids[court.value], ids);
      }
    }
  }

  lemma ExplicitWellFormed(row: JudgeSourceRow, courtId: nat, text: string, ids: map<string, nat>)
    requires courtId in ids.Values
    ensures forall k :: 0 <= k < |ExplicitMentions(row, courtId, text)| ==> WellFormed(ExplicitMentions(row, courtId, text)[k], ids)
  {
  }

  lemma ListedWellFormed(mags: seq<Magistrate>, courtId: nat, ids: map<string, nat>)
    requires courtId in ids.Values
    requires forall k :: 0 <= k < |mags| ==> mags[k].name != []
    ensures forall k :: 0 <= k < |ListedMentions(mags, courtId)| ==> WellFormed(ListedMentions(mags, courtId)[k], ids)
  {
  }

  /** Every relation the stage writes links a court of the court dimension
      to a judge of the judge table. */
  lemma JudgesOfRelations(rows: seq<JudgeSourceRow>, ids: map<string, nat>)
    ensures Valid(JudgesOf(rows, ids))
    ensures forall r :: r in JudgesOf(rows, ids).relations ==>
      r.courtId in ids.Values && r.judge in JudgesOf(rows, ids).byName && r.judge != []
  {
    var ms := AllMentions(rows, ids);
    MentionsWellFormed(rows, ids);
    assert forall k :: 0 <= k < |ms| ==> ms[k].relation.judge == ms[k].name;
    RecordAllFacts(Judges([], map[], {}), ms);
  }

  lemma MagistratesNames(texto: string)
    ensures forall k :: 0 <= k < |Magistrates(texto)| ==> Collapsed(Magistrates(texto)[k].name)
  {
    if !AllSpace(texto) {
      MagistratesOfBlocksNames(Blocks(Pieces(texto)));
    }
  }

  // ---------------------------------------------------------------------
  // The two output tables
  // ---------------------------------------------------------------------

  datatype JudgeRow = JudgeRow(id: nat, name: string, email: Option<string>, phone: Option<string>)

  /** A row of etl_tribunal_juez.csv; `judgeId` is `juez_to_id.get(nombre)`. */
  datatype RelationRow = RelationRow(courtId: nat, judgeId: Option<nat>, role: Option<string>, status: string)

  /** `sorted(jueces.keys())`. */
  function JudgeNames(js: Judges): seq<string> {
    SortedDistinct(js.names)
  }

  /** `situacion or "Efectivo"`. */
  function StatusOr(status: Option<string>): (s: string)
    ensures s != []
    ensures Truthy(status) ==> s == status.value
  {
    if Truthy(status) then status.value else "Efectivo"
  }

  function RelationRowOf(r: Relation, judgeIds: map<string, nat>): RelationRow {
    RelationRow(r.courtId, if r.judge in judgeIds then Some(judgeIds[r.judge]) else None, r.role, StatusOr(r.status))
  }

  /** etl_jueces.csv: the judges in name order, numbered from 1. */
  function JudgeTable(js: Judges): seq<JudgeRow>
    requires Valid(js)
  {
    var names := JudgeNames(js);
    assert forall i :: 0 <= i < |names| ==> names[i] in names;
    seq(|names|, i requires 0 <= i < |names| => JudgeRow(i + 1, names[i], js.byName[names[i]].email, js.byName[names[i]].phone))
  }

  // ---------------------------------------------------------------------
  // sorted(relaciones): Python's order on the relation tuples
  // ---------------------------------------------------------------------

  /** The outcome of comparing two tuples in Python: the first position where
      they differ decides, and a None against a text there raises TypeError. */
  datatype Order = Before | Equal | After | Incomparable

  function Flip(o: Order): Order {
    match o
    case Before => After
    case After => Before
    case other => other
  }

  /** Two `cargo` or `situacion` values: equal, ordered as texts, or a None
      against a text. */
  function CompareOptions(a: Option<string>, b: Option<string>): (o: Order)
    ensures o == Equal <==> a == b
    ensures o == Incomparable <==> a != b && (a.None? || b.None?)
    ensures o == Before ==> a.Some? && b.Some? && Less(a.value, b.value)
  {
    if a == b then Equal
    else if a.None? || b.None? then Incomparable
    else if Less(a.value, b.value) then Before
    else After
  }

  /** `(tribunal_id, nombre, cargo, situacion)` compared as Python compares tuples. */
  function CompareRelations(r: Relation, s: Relation): Order {
    if r.courtId != s.courtId then (if r.courtId < s.courtId then Before else After)
    else if r.judge != s.judge then (if Less(r.judge, s.judge) then Before else After)
    else if r.role != s.role then CompareOptions(r.role, s.role)
    else CompareOptions(r.status, s.status)
  }

  /** Comparing the other way round swaps before and after, and only a tuple
      is equal to itself. */
  lemma CompareFlip(r: Relation, s: Relation)
    ensures CompareRelations(s, r) == Flip(CompareRelations(r, s))
    ensures CompareRelations(r, s) == Equal <==> r == s
  {
    if r.judge != s.judge {
      LessTotal(r.judge, s.judge);
      if Less(r.judge, s.judge) {
        LessAsymmetric(r.judge, s.judge);
      }
    }
    OptionsFlip(r.role, s.role);
    OptionsFlip(r.status, s.status);
  }

  lemma OptionsFlip(a: Option<string>, b: Option<string>)
    ensures CompareOptions(b, a) == Flip(CompareOptions(a, b))
  {
    if a != b && a.Some? && b.Some? {
      LessTotal(a.value, b.value);
      if Less(a.value, b.value) {
        LessAsymmetric(a.value, b.value);
      }
    }
  }

  lemma CompareTransitive(a: Relation, b: Relation, c: Relation)
    requires CompareRelations(a, b) == Before && CompareRelations(b, c) == Before
    ensures CompareRelations(a, c) == Before
  {
    if a.courtId == b.courtId == c.courtId && a.judge != b.judge && b.judge != c.judge {
      LessTransitive(a.judge, b.judge, c.judge);
      LessIrreflexive(a.judge);
    } else if a.courtId == b.courtId == c.courtId && a.judge == b.judge == c.judge {
      if a.role != b.role && b.role != c.role {
        LessTransitive(a.role.value, b.role.value, c.role.value);
        LessIrreflexive(a.role.value);
      } else if a.role == b.role == c.role {
        LessTransitive(a.status.value, b.status.value, c.status.value);
        LessIrreflexive(a.status.value);
      }
    }
  }

  /** No two relations meet at a None against a text, so `sorted` can compare
      any two of them. */
  predicate Comparable(rels: set<Relation>) {
    forall r, s :: r in rels && s in rels ==> CompareRelations(r, s) != Incomparable
  }

  /** Strictly increasing in tuple order. */
  ghost predicate InOrder(rs: seq<Relation>) {
    forall i, j :: 0 <= i < j < |rs| ==> CompareRelations(rs[i], rs[j]) == Before
  }

  /** A set of relations any two of which compare has a least one. */
  lemma {:induction false} LeastExists(rels: set<Relation>)
    requires rels != {} && Comparable(rels)
    ensures exists m :: m in rels && forall r :: r in rels && r != m ==> CompareRelations(m, r) == Before
    decreases |rels|
  {
    var y :| y in rels;
    var rest := rels - {y};
    if rest == {} {
      assert forall r :: r in rels && r != y ==> r in rest;
    } else {
      LeastExists(rest);
      var m :| m in rest && forall r :: r in rest && r != m ==> CompareRelations(m, r) == Before;
      CompareFlip(y, m);
      if CompareRelations(y, m) == Before {
        forall r | r in rels && r != y
          ensures CompareRelations(y, r) == Before
        {
          if r != m {
            CompareTransitive(y, m, r);
          }
        }
      } else {
        assert CompareRelations(m, y) == Before;
        assert forall r :: r in rels && r != m ==> r == y || r in rest;
      }
    }
  }

  /** The relations in increasing tuple order: what `sorted` returns when it
      raises nothing. */
  ghost function SortedRelations(rels: set<Relation>): (rs: seq<Relation>)
    requires Comparable(rels)
    ensures InOrder(rs) && |rs| == |rels|
    ensures forall r :: r in rs <==> r in rels
    decreases |rels|
  {
    if rels == {} then []
    else
      LeastExists(rels);
      var m :| m in rels && forall r :: r in rels && r != m ==> CompareRelations(m, r) == Before;
      var rest := SortedRelations(rels - {m});
      LeastFirst(m, rest, rels);
      [m] + rest
  }

  lemma LeastFirst(m: Relation, rest: seq<Relation>, rels: set<Relation>)
    requires InOrder(rest) && (forall r :: r in rest <==> r in rels - {m})
    requires forall r :: r in rels && r != m ==> CompareRelations(m, r) == Before
    ensures InOrder([m] + rest)
  {
    forall i, j | 0 <= i < j < |[m] + rest|
      ensures CompareRelations(([m] + rest)[i], ([m] + rest)[j]) == Before
    {
      assert ([m] + rest)[j] == rest[j - 1] && rest[j - 1] in rest;
      if i > 0 {
        assert ([m] + rest)[i] == rest[i - 1];
      }
    }
  }

  /** There is only one increasing listing of a set of relations. */
  lemma {:induction false} InOrderUnique(a: seq<Relation>, b: seq<Relation>)
    requires InOrder(a) && InOrder(b)
    requires forall r :: r in a <==> r in b
    ensures a == b
    decreases |a|
  {
    if a != [] {
      assert a[0] in a;
    }
    if b != [] {
      assert b[0] in b;
    }
    if a != [] && b != [] {
      var i :| 0 <= i < |b| && b[i] == a[0];
      var j :| 0 <= j < |a| && a[j] == b[0];
      if i != 0 && j != 0 {
        CompareFlip(b[0], b[i]);
      }
      assert a[0] == b[0];
      forall r ensures r in a[1..] <==> r in b[1..] {
        if r in a[1..] {
          InOrderTail(a, b, r);
        }
        if r in b[1..] {
          InOrderTail(b, a, r);
        }
      }
      InOrderUnique(a[1..], b[1..]);
      assert a == [a[0]] + a[1..] && b == [b[0]] + b[1..];
    }
  }

  lemma InOrderTail(a: seq<Relation>, b: seq<Relation>, r: Relation)
    requires InOrder(a) && InOrder(b) && a != [] && b != [] && a[0] == b[0]
    requires forall x :: x in a <==> x in b
    requires r in a[1..]
    ensures r in b[1..]
  {
    var k :| 0 <= k < |a[1..]| && a[1..][k] == r;
    CompareFlip(a[0], r);
    assert r in b;
    var l :| 0 <= l < |b| && b[l] == r;
    assert l != 0;
    assert b[1..][l - 1] == r;
  }

  /** etl_tribunal_juez.csv: the relations in tuple order, each with its
      judge's id and its status; None where `sorted(relaciones)` raises
      TypeError, which leaves the file with its header only. */
  ghost function RelationFile(js: Judges): Option<seq<RelationRow>> {
    if !Comparable(js.relations) then None
    else
      var rs := SortedRelations(js.relations);
      Some(seq(|rs|, i requires 0 <= i < |rs| => RelationRowOf(rs[i], NumberNames(JudgeNames(js)))))
  }

  /** The file fails exactly when two relations meet at a None against a
      text. */
  lemma RelationFileFails(js: Judges)
    ensures RelationFile(js).None? <==>
      exists r, s :: r in js.relations && s in js.relations && CompareRelations(r, s) == Incomparable
  {
  }

  /** Otherwise row i is the relation at position i of the increasing
      listing, with its judge's id and its status. */
  lemma RelationFileAt(js: Judges, i: nat)
    requires Comparable(js.relations) && i < |SortedRelations(js.relations)|
    ensures RelationFile(js).Some? && |RelationFile(js).value| == |js.relations|
    ensures RelationFile(js).value[i] == RelationRowOf(SortedRelations(js.relations)[i], NumberNames(JudgeNames(js)))
  {
  }

  /** The rows come in increasing court id. */
  lemma RelationFileOrder(js: Judges)
    requires RelationFile(js).Some?
    ensures forall i, j :: 0 <= i < j < |RelationFile(js).value| ==>
      RelationFile(js).value[i].courtId <= RelationFile(js).value[j].courtId
  {
    var rs := SortedRelations(js.relations);
    var f := RelationFile(js).value;
    forall i, j | 0 <= i < j < |f|
      ensures f[i].courtId <= f[j].courtId
    {
      RelationFileAt(js, i);
      RelationFileAt(js, j);
      assert CompareRelations(rs[i], rs[j]) == Before;
    }
  }

  /** Every relation has its row. */
  lemma RelationFileComplete(js: Judges, r: Relation)
    requires RelationFile(js).Some? && r in js.relations
    ensures exists i :: 0 <= i < |RelationFile(js).value| && RelationFile(js).value[i] == RelationRowOf(r, NumberNames(JudgeNames(js)))
  {
    var rs := SortedRelations(js.relations);
    var i :| 0 <= i < |rs| && rs[i] == r;
    RelationFileAt(js, i);
  }

  /** Two relations of one judge at one court, one with a role and one
      without, make `sorted` raise TypeError: the directory rows of a court
      that list a judge twice, once without a cargo cell, or a "responsables"
      text that lists a magistrate twice, once without "Cargo:". */
  lemma RoleAgainstNone(js: Judges, courtId: nat, judge: string, role: string, s1: Option<string>, s2: Option<string>)
    requires Relation(courtId, judge, None, s1) in js.relations
    requires Relation(courtId, judge, Some(role), s2) in js.relations
    ensures RelationFile(js) == None
  {
    assert CompareRelations(Relation(courtId, judge, None, s1), Relation(courtId, judge, Some(role), s2)) == Incomparable;
  }

  /** Every relation row points at a judge of the judge table, by the id that
      table gives it, and carries a status. */
  lemma RelationRowsResolve(js: Judges, i: nat)
    requires Valid(js) && RelationFile(js).Some? && i < |RelationFile(js).value|
    ensures RelationFile(js).value[i].judgeId.Some?
    ensures exists k :: 0 <= k < |JudgeTable(js)| && JudgeTable(js)[k].id == RelationFile(js).value[i].judgeId.value
    ensures RelationFile(js).value[i].status != []
  {
    var ids := NumberNames(JudgeNames(js));
    var rs := SortedRelations(js.relations);
    var r := rs[i];
    assert r in rs;
    assert RelationFile(js).value[i] == RelationRowOf(r, ids);
    var names := JudgeNames(js);
    assert r.judge in names;
    var k :| 0 <= k < |names| && names[k] == r.judge;
    assert JudgeTable(js)[k].id == k + 1 == ids[r.judge];
  }

  /** `sorted(relaciones)`: None when two relations meet at a None against a
      text; otherwise the smallest relation first, then the next, and so on. */
  method SortRelations(rels: set<Relation>) returns (rs: Option<seq<Relation>>)
    ensures rs.None? <==> !Comparable(rels)
    ensures rs.Some? ==> Comparable(rels) && rs.value == SortedRelations(rels)
  {
    if !Comparable(rels) {
      return None;
    }
    var left := rels;
    var out: seq<Relation> := [];
    while left != {}
      invariant left <= rels
      invariant InOrder(out)
      invariant forall r :: r in out <==> r in rels && r !in left
      invariant forall i, r :: 0 <= i < |out| && r in left ==> CompareRelations(out[i], r) == Before
      decreases |left|
    {
      LeastExists(left);
      var m :| m in left && forall r :: r in left && r != m ==> CompareRelations(m, r) == Before;
      out := out + [m];
      left := left - {m};
    }
    InOrderUnique(out, SortedRelations(rels));
    return Some(out);
  }

  /** The judge table lists every judge once, in name order, with its contact. */
  lemma JudgeTableFacts(js: Judges)
    requires Valid(js)
    ensures var t := JudgeTable(js);
      && (forall i, j :: 0 <= i < j < |t| ==> Less(t[i].name, t[j].name))
      && (forall n :: n in js.byName <==> exists i :: 0 <= i < |t| && t[i].name == n)
      && (forall i :: 0 <= i < |t| ==>
            t[i].id == i + 1 && t[i].name in js.byName && Contact(t[i].email, t[i].phone) == js.byName[t[i].name])
  {
    var names := JudgeNames(js);
    var t := JudgeTable(js);
    assert forall i :: 0 <= i < |t| ==> t[i].name == names[i];
    forall n | n in js.byName ensures exists i :: 0 <= i < |t| && t[i].name == n {
      assert n in names;
      var i :| 0 <= i < |names| && names[i] == n;
      assert t[i].name == n;
    }
  }

  // ---------------------------------------------------------------------
  // The stage
  // ---------------------------------------------------------------------

  /** The mentions of one row, recorded in order. */
  method RecordRow(js0: Judges, row: JudgeSourceRow, ids: map<string, nat>) returns (js: Judges)
    ensures js == RecordAll(js0, RowMentions(row, ids))
  {
    js := RecordMentions(js0, RowMentions(row, ids));
  }

  /** The inner loop: one dictionary update per mention. */
  method RecordMentions(js0: Judges, ms: seq<Mention>) returns (js: Judges)
    ensures js == RecordAll(js0, ms)
  {
    js := js0;
    for k := 0 to |ms|
      invariant js == RecordAll(js0, ms[..k])
    {
      assert ms[..k + 1][..k] == ms[..k];
      js := Record(js, ms[k]);
    }
    assert ms[..|ms|] == ms;
  }

  lemma {:induction false} RecordAllAppend(js: Judges, a: seq<Mention>, b: seq<Mention>)
    ensures RecordAll(js, a + b) == RecordAll(RecordAll(js, a), b)
    decreases |b|
  {
    if b == [] {
      assert a + b == a;
    } else {
      assert (a + b)[..|a + b| - 1] == a + b[..|b| - 1];
      RecordAllAppend(js, a, b[..|b| - 1]);
    }
  }

  /** The loop over the rows of the directory. */
  method ReadJudges(rows: seq<JudgeSourceRow>, ids: map<string, nat>) returns (js: Judges)
    ensures js == JudgesOf(rows, ids)
  {
    var empty := Judges([], map[], {});
    js := empty;
    for k := 0 to |rows|
      invariant js == RecordAll(empty, AllMentions(rows[..k], ids))
    {
      assert rows[..k + 1][..k] == rows[..k];
      RecordAllAppend(empty, AllMentions(rows[..k], ids), RowMentions(rows[k], ids));
      js := RecordRow(js, rows[k], ids);
    }
    assert rows[..|rows|] == rows;
  }

  /** Writing etl_tribunal_juez.csv from `sorted(relaciones)`. */
  method WriteRelations(js: Judges) returns (relationTable: Option<seq<RelationRow>>)
    ensures relationTable == RelationFile(js)
  {
    var sorted := SortRelations(js.relations);
    if sorted.None? {
      relationTable := None;
    } else {
      var judgeIds := NumberNames(JudgeNames(js));
      var rs := sorted.value;
      relationTable := Some(seq(|rs|, i requires 0 <= i < |rs| => RelationRowOf(rs[i], judgeIds)));
    }
  }

  /** What procesar_jueces_y_relaciones leaves behind: nothing when the
      directory is missing or empty, otherwise etl_jueces.csv and
      etl_tribunal_juez.csv (the latter `None` when its sort raises). */
  datatype JudgeFiles =
    | Skipped
    | Written(judgeTable: seq<JudgeRow>, relationTable: Option<seq<RelationRow>>)

  /** procesar_jueces_y_relaciones: an empty frame returns before any file is
      opened; otherwise the loop over the rows, then the two tables; the judge
      table is written even when the relation file fails. */
  method ProcesarJueces(rows: seq<JudgeSourceRow>, ids: map<string, nat>) returns (files: JudgeFiles)
    ensures files.Skipped? <==> rows == []
    ensures Valid(JudgesOf(rows, ids))
    ensures rows != [] ==> files == Written(JudgeTable(JudgesOf(rows, ids)), RelationFile(JudgesOf(rows, ids)))
  {
    MentionsWellFormed(rows, ids);
    assert forall k :: 0 <= k < |AllMentions(rows, ids)| ==>
      AllMentions(rows, ids)[k].relation.judge == AllMentions(rows, ids)[k].name;
    RecordAllFacts(Judges([], map[], {}), AllMentions(rows, ids));
    if rows == [] {
      return Skipped;
    }
    var js := ReadJudges(rows, ids);
    var relationTable := WriteRelations(js);
    files := Written(JudgeTable(js), relationTable);
  }
}
