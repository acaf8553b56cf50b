/** The database side of 6_scrapper_con_db.py: `obtener_o_crear_id`, a
    lookup-or-create over a dimension table, and `guardar_en_db`, which
    writes every scraped record into the case, offence, party and deadline
    tables.  The tables live in memory: a dimension table is a map from
    value to id together with the next id to hand out, the case table a map
    from case number to row, and the tables filled with
    `ON CONFLICT DO NOTHING` are sets of rows. */
module CaseStore {
  import opened Optional
  import opened Strings
  import opened BlockParser
  import opened TabScraper
  import CaseRuns

  /** What a missing or blank dimension value is stored as. */
  const Unknown: string := "Desconocido"

  const StateKey: string := "Estado"
  const CaptionKey: string := "Carátula"
  const UpdatedKey: string := "Última actualización"
  const OffencesKey: string := "Delitos"

  /** The constant columns of a party row and of a deadline row. */
  const UnknownCuit: string := "CUIT_DESCONOCIDO"
  const NaturalPerson: string := "fisica"
  const InForce: string := "vigente"

  /** A resolution text is cut to this many characters when stored. */
  const TypeWidth: nat := 95

  // ---------------------------------------------------------------------
  // Dimension tables
  // ---------------------------------------------------------------------

  /** A dimension table: the id of every stored value, and the id the next
      insert receives. */
  datatype Dim = Dim(ids: map<string, nat>, next: nat)

  /** Ids are positive, below the next one, and distinct. */
  predicate DimValid(d: Dim) {
    && 0 < d.next
    && (forall v :: v in d.ids ==> 0 < d.ids[v] < d.next)
    && (forall v, w :: v in d.ids && w in d.ids && v != w ==> d.ids[v] != d.ids[w])
  }

  /** `valor`, or "Desconocido" when it is None or `str(valor).strip()` is
      empty. */
  function StoredValue(valor: Option<string>): string {
    if valor.None? || AllSpace(valor.value) then Unknown else valor.value
  }

  /** The value looked up is the given one unless it is missing or strips to
      nothing, and it never strips to nothing itself. */
  lemma StoredValueFacts(valor: Option<string>)
    ensures valor.None? ==> StoredValue(valor) == Unknown
    ensures valor.Some? ==>
      StoredValue(valor) == (if Strip(valor.value) == [] then Unknown else valor.value)
  {
    if valor.Some? {
      StripEmpty(valor.value);
    }
  }

  /** The value looked up never strips to nothing. */
  lemma StoredValueNotBlank(valor: Option<string>)
    ensures Strip(StoredValue(valor)) != []
  {
    var v := StoredValue(valor);
    StripEmpty(v);
    if v == Unknown {
      assert v[0] == 'D';
    }
  }

  /** `obtener_o_crear_id` on one table: the table afterwards and the id
      returned. */
  function GetOrCreate(d: Dim, valor: Option<string>): (Dim, nat) {
    var v := StoredValue(valor);
    if v in d.ids then (d, d.ids[v]) else (Dim(d.ids[v := d.next], d.next + 1), d.next)
  }

  /** The stored value ends up in the table with the returned id; a value
      already there keeps its id and leaves the table as it was; a new one
      gets an id no other value has; no other value changes id. */
  lemma GetOrCreateFacts(d: Dim, valor: Option<string>)
    requires DimValid(d)
    ensures var (d', id) := GetOrCreate(d, valor); var v := StoredValue(valor);
      && DimValid(d')
      && v in d'.ids && d'.ids[v] == id
      && (v in d.ids ==> d' == d)
      && (v !in d.ids ==> d'.ids.Keys == d.ids.Keys + {v} && forall w :: w in d.ids ==> d.ids[w] != id)
      && (forall w :: w in d.ids ==> w in d'.ids && d'.ids[w] == d.ids[w])
  {
  }

  /** Asking twice for the same value gives the same id and one row. */
  lemma GetOrCreateTwice(d: Dim, valor: Option<string>)
    ensures var (d', id) := GetOrCreate(d, valor); GetOrCreate(d', valor) == (d', id)
  {
  }

  /** One dimension table updated in place. */
  class DimTable {
    var ids: map<string, nat>
    var next: nat

    ghost predicate Valid()
      reads this
    {
      DimValid(Dim(ids, next))
    }

    constructor()
      ensures Valid() && ids == map[] && next == 1
    {
      ids := map[];
      next := 1;
    }

    /** `obtener_o_crear_id`: the id of the stored value, inserting it first
        when it is not in the table. */
    method ObtenerOCrearId(valor: Option<string>) returns (id: nat)
      requires Valid()
      modifies this
      ensures Valid()
      ensures (Dim(ids, next), id) == GetOrCreate(Dim(old(ids), old(next)), valor)
    {
      GetOrCreateFacts(Dim(ids, next), valor);
      var v := StoredValue(valor);
      if v in ids {
        id := ids[v];
      } else {
        id := next;
        ids := ids[v := next];
        next := next + 1;
      }
    }
  }

  // ---------------------------------------------------------------------
  // Offences
  // ---------------------------------------------------------------------

  /** `[d.strip() for d in s.split(",") if d.strip()]`. */
  function Offences(s: string): seq<string> {
    NonBlank(Split(s, ','))
  }

  /** A stripped text lies inside the text, so it holds no character the
      text does not hold. */
  lemma StripInside(s: string, c: char)
    requires c !in s
    ensures c !in Strip(s)
  {
    var l := LStrip(s);
    assert l == s[|s| - |l|..];
    var r := RStrip(l);
    assert r == l[..|r|];
  }

  /** The members of `NonBlank(ts)` are the non-empty stripped members of
      `ts`. */
  lemma NonBlankMembers(ts: seq<string>, x: string)
    ensures x in NonBlank(ts) <==> x != [] && exists t :: t in ts && Strip(t) == x
  {
    if x in NonBlank(ts) {
      NonBlankSource(ts, x);
      var i :| 0 <= i < |ts| && Strip(ts[i]) == x;
      assert ts[i] in ts;
    }
    if x != [] && exists t :: t in ts && Strip(t) == x {
      var t :| t in ts && Strip(t) == x;
      var i :| 0 <= i < |ts| && ts[i] == t;
      NonBlankKeeps(ts, i);
    }
  }

  /** Every kept text is the stripped form of some input text. */
  lemma {:induction false} NonBlankSource(ts: seq<string>, x: string)
    requires x in NonBlank(ts)
    ensures exists i :: 0 <= i < |ts| && Strip(ts[i]) == x
    decreases |ts|
  {
    if x in NonBlank(ts[..|ts| - 1]) {
      NonBlankSource(ts[..|ts| - 1], x);
      StrippedFromInit(ts[..|ts| - 1], ts, x);
    } else {
      NonBlankLast(ts, x);
    }
  }

  lemma StrippedFromInit(init: seq<string>, ts: seq<string>, x: string)
    requires ts != [] && init == ts[..|ts| - 1]
    requires exists i :: 0 <= i < |init| && Strip(init[i]) == x
    ensures exists i :: 0 <= i < |ts| && Strip(ts[i]) == x
  {
    var i :| 0 <= i < |init| && Strip(init[i]) == x;
    assert init[i] == ts[i];
  }

  /** A kept text that is not kept from all but the last input is the
      last input, stripped. */
  lemma NonBlankLast(ts: seq<string>, x: string)
    requires x in NonBlank(ts) && x !in NonBlank(ts[..|ts| - 1])
    ensures exists i :: 0 <= i < |ts| && Strip(ts[i]) == x
  {
    assert Strip(ts[|ts| - 1]) == x;
  }

  /** Every input text that does not strip to nothing is kept, stripped. */
  lemma {:induction false} NonBlankKeeps(ts: seq<string>, i: nat)
    requires i < |ts| && Strip(ts[i]) != []
    ensures Strip(ts[i]) in NonBlank(ts)
    decreases |ts|
  {
    var init := ts[..|ts| - 1];
    var last := ts[|ts| - 1];
    var st := Strip(last);
    assert NonBlank(ts) == if st == [] then NonBlank(init) else NonBlank(init) + [st];
    if i < |ts| - 1 {
      assert init[i] == ts[i];
      NonBlankKeeps(init, i);
    }
  }

  /** Every offence is a non-empty stripped text without a comma, and the
      offences are exactly the non-empty stripped comma-separated pieces. */
  lemma OffencesFacts(s: string)
    ensures forall d :: d in Offences(s) ==> d != [] && Trimmed(d) && ',' !in d
    ensures forall d :: d in Offences(s) <==> d != [] && exists p :: p in Split(s, ',') && Strip(p) == d
  {
    var ps := Split(s, ',');
    NonBlankTrimmed(ps);
    forall d
      ensures d in Offences(s) <==> d != [] && exists p :: p in ps && Strip(p) == d
    {
      NonBlankMembers(ps, d);
    }
    forall d | d in Offences(s)
      ensures ',' !in d
    {
      var p :| p in ps && Strip(p) == d;
      StripInside(p, ',');
    }
  }

  // ---------------------------------------------------------------------
  // The database
  // ---------------------------------------------------------------------

  /** A row of `expediente`: the caption, the last update (None for an
      empty one) and the ids of the court, tribunal, secretariat and
      procedural state. */
  datatype CaseRow = CaseRow(caption: string, updated: Option<string>,
                             fuero: nat, tribunal: nat, secretaria: nat, estado: nat)

  /** A row of `parte`. */
  datatype PartyRow = PartyRow(cuit: string, expediente: string, kind: string, name: string)

  /** A row of `plazo`: the resolution text is its type. */
  datatype DeadlineRow = DeadlineRow(expediente: string, kind: string, workingDays: nat, state: string)

  /** Every table `guardar_en_db` writes. */
  datatype Db = Db(
    fueros: Dim, jurisdicciones: Dim, tribunales: Dim, secretarias: Dim, estados: Dim,
    expedientes: map<string, CaseRow>,
    tipos: set<string>,
    delitos: set<(string, string)>,
    partes: set<PartyRow>,
    plazos: set<DeadlineRow>)

  const EmptyDim: Dim := Dim(map[], 1)
  const EmptyDb: Db := Db(EmptyDim, EmptyDim, EmptyDim, EmptyDim, EmptyDim, map[], {}, {}, {}, {})

  predicate DbValid(db: Db) {
    DimValid(db.fueros) && DimValid(db.jurisdicciones) && DimValid(db.tribunales) &&
    DimValid(db.secretarias) && DimValid(db.estados)
  }

  /** The fields `guardar_en_db` reads with `r[...]`, which raise when
      missing. */
  predicate Storable(r: TabRecord) {
    CaseRuns.CaseField in r.fields && CaptionKey in r.fields && UpdatedKey in r.fields
  }

  /** `r.get("Estado", "Desconocido")`. */
  function StateOf(r: TabRecord): string {
    if StateKey in r.fields then r.fields[StateKey] else Unknown
  }

  /** `r["Última actualización"] or None`. */
  function UpdatedOf(r: TabRecord): Option<string>
    requires Storable(r)
  {
    if r.fields[UpdatedKey] == [] then None else Some(r.fields[UpdatedKey])
  }

  /** The offences of a record: none unless `r.get("Delitos")` is truthy. */
  function OffencesOf(r: TabRecord): seq<string> {
    if OffencesKey in r.fields && r.fields[OffencesKey] != [] then Offences(r.fields[OffencesKey]) else []
  }

  /** The five dimension lookups and the `expediente` insert, which does
      nothing when the case number is already there. */
  function StoreCase(db: Db, r: TabRecord): Db
    requires Storable(r)
  {
    var (f, fid) := GetOrCreate(db.fueros, Some(Unknown));
    var (j, _) := GetOrCreate(db.jurisdicciones, Some(Unknown));
    var (t, tid) := GetOrCreate(db.tribunales, Some(Unknown));
    var (s, sid) := GetOrCreate(db.secretarias, Some(Unknown));
    var (e, eid) := GetOrCreate(db.estados, Some(StateOf(r)));
    var exp := r.fields[CaseRuns.CaseField];
    var row := CaseRow(r.fields[CaptionKey], UpdatedOf(r), fid, tid, sid, eid);
    db.(fueros := f, jurisdicciones := j, tribunales := t, secretarias := s, estados := e,
        expedientes := if exp in db.expedientes then db.expedientes else db.expedientes[exp := row])
  }

  /** Each offence into `tipo_delito` and, paired with the case number, into
      `expediente_delito`. */
  function StoreOffences(db: Db, exp: string, ds: seq<string>): Db {
    db.(tipos := db.tipos + (set d | d in ds),
        delitos := db.delitos + (set d | d in ds :: (exp, d)))
  }

  function PartyRowOf(exp: string, p: Party): PartyRow {
    PartyRow(UnknownCuit, exp, NaturalPerson, p.name)
  }

  /** One `parte` row per accused person. */
  function StoreParties(db: Db, exp: string, ps: seq<Party>): Db {
    db.(partes := db.partes + (set p | p in ps :: PartyRowOf(exp, p)))
  }

  function DeadlineRowOf(exp: string, text: string): DeadlineRow {
    DeadlineRow(exp, Truncate(text, TypeWidth), 0, InForce)
  }

  /** One `plazo` row per resolution, its text cut to 95 characters. */
  function StoreDeadlines(db: Db, exp: string, texts: seq<string>): Db {
    db.(plazos := db.plazos + (set t | t in texts :: DeadlineRowOf(exp, t)))
  }

  /** Everything `guardar_en_db` writes for one record. */
  function SaveRecord(db: Db, r: TabRecord): Db
    requires Storable(r)
  {
    var exp := r.fields[CaseRuns.CaseField];
    StoreDeadlines(StoreParties(StoreOffences(StoreCase(db, r), exp, OffencesOf(r)), exp, r.accused), exp, r.resolutions)
  }

  /** `guardar_en_db` over a list of records. */
  function SaveAll(db: Db, rs: seq<TabRecord>): Db
    requires forall r :: r in rs ==> Storable(r)
    decreases |rs|
  {
    if rs == [] then db else SaveRecord(SaveAll(db, rs[..|rs| - 1]), rs[|rs| - 1])
  }

  // ---------------------------------------------------------------------
  // What saving a record guarantees
  // ---------------------------------------------------------------------

  /** The record's own rows are all in the database. */
  predicate Saved(db: Db, r: TabRecord)
    requires Storable(r)
  {
    var exp := r.fields[CaseRuns.CaseField];
    && Unknown in db.fueros.ids && Unknown in db.jurisdicciones.ids
    && Unknown in db.tribunales.ids && Unknown in db.secretarias.ids
    && StoredValue(Some(StateOf(r))) in db.estados.ids
    && exp in db.expedientes
    && (forall d :: d in OffencesOf(r) ==> d in db.tipos && (exp, d) in db.delitos)
    && (forall p :: p in r.accused ==> PartyRowOf(exp, p) in db.partes)
    && (forall t :: t in r.resolutions ==> DeadlineRowOf(exp, t) in db.plazos)
  }

  predicate DimExtends(a: Dim, b: Dim) {
    forall v :: v in a.ids ==> v in b.ids && b.ids[v] == a.ids[v]
  }

  /** `b` holds every row of `a` unchanged, and every id `a` handed out. */
  predicate Extends(a: Db, b: Db) {
    && DimExtends(a.fueros, b.fueros) && DimExtends(a.jurisdicciones, b.jurisdicciones)
    && DimExtends(a.tribunales, b.tribunales) && DimExtends(a.secretarias, b.secretarias)
    && DimExtends(a.estados, b.estados)
    && (forall e :: e in a.expedientes ==> e in b.expedientes && b.expedientes[e] == a.expedientes[e])
    && a.tipos <= b.tipos && a.delitos <= b.delitos && a.partes <= b.partes && a.plazos <= b.plazos
  }

  lemma ExtendsTrans(a: Db, b: Db, c: Db)
    requires Extends(a, b) && Extends(b, c)
    ensures Extends(a, c)
  {
  }

  lemma SavedStill(a: Db, b: Db, r: TabRecord)
    requires Storable(r) && Saved(a, r) && Extends(a, b)
    ensures Saved(b, r)
  {
  }

  /** Saving a record keeps every earlier row and id, never overwrites the
      row of a case number already stored, keeps the tables valid, and
      leaves all of the record's rows in the database. */
  lemma SaveRecordFacts(db: Db, r: TabRecord)
    requires Storable(r)
    ensures Extends(db, SaveRecord(db, r)) && Saved(SaveRecord(db, r), r)
  {
    var exp := r.fields[CaseRuns.CaseField];
    var c := StoreCase(db, r);
    StoreCaseFacts(db, r);
    StoreRowsFacts(c, exp, r);
    ExtendsTrans(db, c, SaveRecord(db, r));
  }

  /** The case insert keeps every earlier row and id and stores the case
      number and its dimension values; it adds no other row. */
  lemma StoreCaseFacts(db: Db, r: TabRecord)
    requires Storable(r)
    ensures var c := StoreCase(db, r);
      && Extends(db, c)
      && Unknown in c.fueros.ids && Unknown in c.jurisdicciones.ids
      && Unknown in c.tribunales.ids && Unknown in c.secretarias.ids
      && StoredValue(Some(StateOf(r))) in c.estados.ids
      && r.fields[CaseRuns.CaseField] in c.expedientes
      && c.tipos == db.tipos && c.delitos == db.delitos && c.partes == db.partes && c.plazos == db.plazos
  {
    assert StoredValue(Some(Unknown)) == Unknown by {
      assert Unknown[0] == 'D';
    }
  }

  /** The offence, party and deadline inserts keep every earlier row, add
      the record's rows, and leave the dimensions and cases alone. */
  lemma StoreRowsFacts(c: Db, exp: string, r: TabRecord)
    ensures var d := StoreDeadlines(StoreParties(StoreOffences(c, exp, OffencesOf(r)), exp, r.accused), exp, r.resolutions);
      && d.fueros == c.fueros && d.jurisdicciones == c.jurisdicciones && d.tribunales == c.tribunales
      && d.secretarias == c.secretarias && d.estados == c.estados && d.expedientes == c.expedientes
      && c.tipos <= d.tipos && c.delitos <= d.delitos && c.partes <= d.partes && c.plazos <= d.plazos
      && (forall x :: x in OffencesOf(r) ==> x in d.tipos && (exp, x) in d.delitos)
      && (forall p :: p in r.accused ==> PartyRowOf(exp, p) in d.partes)
      && (forall t :: t in r.resolutions ==> DeadlineRowOf(exp, t) in d.plazos)
  {
  }

  /** Saving a record keeps the dimension tables valid. */
  lemma SaveRecordValid(db: Db, r: TabRecord)
    requires Storable(r) && DbValid(db)
    ensures DbValid(SaveRecord(db, r))
  {
    GetOrCreateFacts(db.fueros, Some(Unknown));
    GetOrCreateFacts(db.jurisdicciones, Some(Unknown));
    GetOrCreateFacts(db.tribunales, Some(Unknown));
    GetOrCreateFacts(db.secretarias, Some(Unknown));
    GetOrCreateFacts(db.estados, Some(StateOf(r)));
  }

  /** A record whose rows are all stored already changes nothing. */
  lemma SaveRecordAgain(db: Db, r: TabRecord)
    requires Storable(r) && Saved(db, r)
    ensures SaveRecord(db, r) == db
  {
  }

  /** Saving a list keeps every earlier row and id. */
  lemma {:induction false} SaveAllExtends(db: Db, rs: seq<TabRecord>)
    requires forall r :: r in rs ==> Storable(r)
    ensures Extends(db, SaveAll(db, rs))
    decreases |rs|
  {
    if rs != [] {
      var init := rs[..|rs| - 1];
      assert forall r :: r in init ==> r in rs;
      SaveAllExtends(db, init);
      var mid := SaveAll(db, init);
      SaveRecordFacts(mid, rs[|rs| - 1]);
      ExtendsTrans(db, mid, SaveAll(db, rs));
    }
  }

  /** After saving a list, every record's rows are in the database. */
  lemma {:induction false} SaveAllFacts(db: Db, rs: seq<TabRecord>)
    requires forall r :: r in rs ==> Storable(r)
    ensures forall r :: r in rs ==> Saved(SaveAll(db, rs), r)
    decreases |rs|
  {
    if rs != [] {
      var init := rs[..|rs| - 1];
      var last := rs[|rs| - 1];
      assert forall r :: r in init ==> r in rs;
      var mid := SaveAll(db, init);
      SaveAllFacts(db, init);
      assert rs == init + [last];
      assert SaveAll(db, rs) == SaveRecord(mid, last);
      SaveAllStep(mid, init, last);
    }
  }

  /** One more record: it is saved, and so are the ones before it. */
  lemma SaveAllStep(mid: Db, init: seq<TabRecord>, last: TabRecord)
    requires Storable(last) && forall r :: r in init ==> Storable(r)
    requires forall r :: r in init ==> Saved(mid, r)
    ensures forall r :: r in init + [last] ==> Saved(SaveRecord(mid, last), r)
  {
    forall r | r in init + [last]
      ensures Saved(SaveRecord(mid, last), r)
    {
      if r == last {
        SaveRecordFacts(mid, last);
      } else {
        assert r in init;
        SavedAfter(mid, last, r);
      }
    }
  }

  /** A record saved before another one is still saved after it. */
  lemma SavedAfter(db: Db, last: TabRecord, r: TabRecord)
    requires Storable(last) && Storable(r) && Saved(db, r)
    ensures Saved(SaveRecord(db, last), r)
  {
    SaveRecordFacts(db, last);
    SavedStill(db, SaveRecord(db, last), r);
  }

  /** Saving a list keeps the dimension tables valid. */
  lemma {:induction false} SaveAllValid(db: Db, rs: seq<TabRecord>)
    requires forall r :: r in rs ==> Storable(r)
    requires DbValid(db)
    ensures DbValid(SaveAll(db, rs))
    decreases |rs|
  {
    if rs != [] {
      assert forall r :: r in rs[..|rs| - 1] ==> r in rs;
      SaveAllValid(db, rs[..|rs| - 1]);
      SaveRecordValid(SaveAll(db, rs[..|rs| - 1]), rs[|rs| - 1]);
    }
  }

  /** A list whose records are all stored already changes nothing. */
  lemma {:induction false} SaveAllAgain(db: Db, rs: seq<TabRecord>)
    requires forall r :: r in rs ==> Storable(r) && Saved(db, r)
    ensures SaveAll(db, rs) == db
    decreases |rs|
  {
    if rs != [] {
      assert forall r :: r in rs[..|rs| - 1] ==> r in rs;
      SaveAllAgain(db, rs[..|rs| - 1]);
      SaveRecordAgain(db, rs[|rs| - 1]);
    }
  }

  /** Saving the same records twice stores what saving them once does: no
      row and no id is added the second time. */
  lemma SaveAllTwice(db: Db, rs: seq<TabRecord>)
    requires forall r :: r in rs ==> Storable(r)
    ensures SaveAll(SaveAll(db, rs), rs) == SaveAll(db, rs)
  {
    SaveAllFacts(db, rs);
    SaveAllAgain(SaveAll(db, rs), rs);
  }

  /** The case row of a case number is the one written by its first record:
      the row stored before the list, if any, is never replaced. */
  lemma SaveAllKeepsCases(db: Db, rs: seq<TabRecord>)
    requires forall r :: r in rs ==> Storable(r)
    ensures forall e :: e in db.expedientes ==>
      e in SaveAll(db, rs).expedientes && SaveAll(db, rs).expedientes[e] == db.expedientes[e]
    ensures forall r :: r in rs ==> CaseRuns.CaseField in r.fields && r.fields[CaseRuns.CaseField] in SaveAll(db, rs).expedientes
  {
    SaveAllExtends(db, rs);
    SaveAllFacts(db, rs);
  }

  /** Every stored offence type is a non-empty stripped text without a
      comma, and every stored deadline type is at most 95 characters and a
      prefix of a resolution text. */
  lemma SaveAllRows(db: Db, rs: seq<TabRecord>)
    requires forall r :: r in rs ==> Storable(r)
    requires forall d :: d in db.tipos ==> d != [] && Trimmed(d) && ',' !in d
    requires forall p :: p in db.plazos ==> |p.kind| <= TypeWidth
    ensures forall d :: d in SaveAll(db, rs).tipos ==> d != [] && Trimmed(d) && ',' !in d
    ensures forall p :: p in SaveAll(db, rs).plazos ==>
      |p.kind| <= TypeWidth && (p in db.plazos || exists r, t :: r in rs && t in r.resolutions && StartsWith(t, p.kind))
    decreases |rs|
  {
    if rs != [] {
      var init := rs[..|rs| - 1];
      var last := rs[|rs| - 1];
      var mid := SaveAll(db, init);
      SaveAllRows(db, init);
      assert SaveAll(db, rs) == SaveRecord(mid, last);
      SaveRecordRows(mid, last);
      if OffencesKey in last.fields && last.fields[OffencesKey] != [] {
        OffencesFacts(last.fields[OffencesKey]);
      }
      forall p | p in SaveAll(db, rs).plazos
        ensures |p.kind| <= TypeWidth && (p in db.plazos || exists r, t :: r in rs && t in r.resolutions && StartsWith(t, p.kind))
      {
        if p in mid.plazos {
          if p !in db.plazos {
            var r, t :| r in init && t in r.resolutions && StartsWith(t, p.kind);
            assert r in rs;
          }
        } else {
          var t :| t in last.resolutions && p == DeadlineRowOf(last.fields[CaseRuns.CaseField], t);
          assert last in rs;
        }
      }
    }
  }

  /** Saving one record adds only its own offence types and its own
      deadline rows to those two tables. */
  lemma SaveRecordRows(db: Db, r: TabRecord)
    requires Storable(r)
    ensures forall d :: d in SaveRecord(db, r).tipos ==> d in db.tipos || d in OffencesOf(r)
    ensures forall p :: p in SaveRecord(db, r).plazos ==>
      p in db.plazos || exists t :: t in r.resolutions && p == DeadlineRowOf(r.fields[CaseRuns.CaseField], t)
  {
    StoreCaseFacts(db, r);
  }

  lemma OffencesSnoc(exp: string, ds: seq<string>, k: nat)
    requires k < |ds|
    ensures (set d | d in ds[..k + 1] :: (exp, d)) == (set d | d in ds[..k] :: (exp, d)) + {(exp, ds[k])}
  {
    assert ds[..k + 1] == ds[..k] + [ds[k]];
  }

  lemma PartiesSnoc(exp: string, ps: seq<Party>, k: nat)
    requires k < |ps|
    ensures (set p | p in ps[..k + 1] :: PartyRowOf(exp, p)) ==
      (set p | p in ps[..k] :: PartyRowOf(exp, p)) + {PartyRowOf(exp, ps[k])}
  {
    assert ps[..k + 1] == ps[..k] + [ps[k]];
  }

  lemma DeadlinesSnoc(exp: string, texts: seq<string>, k: nat)
    requires k < |texts|
    ensures (set t | t in texts[..k + 1] :: DeadlineRowOf(exp, t)) ==
      (set t | t in texts[..k] :: DeadlineRowOf(exp, t)) + {DeadlineRowOf(exp, texts[k])}
  {
    assert texts[..k + 1] == texts[..k] + [texts[k]];
  }

  // ---------------------------------------------------------------------
  // The database updated in place
  // ---------------------------------------------------------------------

  /** The connection `guardar_en_db` writes through: five dimension tables
      and the case, offence, party and deadline tables. */
  class Database {
    const fueros: DimTable
    const jurisdicciones: DimTable
    const tribunales: DimTable
    const secretarias: DimTable
    const estados: DimTable
    var expedientes: map<string, CaseRow>
    var tipos: set<string>
    var delitos: set<(string, string)>
    var partes: set<PartyRow>
    var plazos: set<DeadlineRow>

    /** The dimension tables are five different tables, each valid. */
    ghost predicate Valid()
      reads this, fueros, jurisdicciones, tribunales, secretarias, estados
    {
      && fueros != jurisdicciones && fueros != tribunales && fueros != secretarias && fueros != estados
      && jurisdicciones != tribunales && jurisdicciones != secretarias && jurisdicciones != estados
      && tribunales != secretarias && tribunales != estados && secretarias != estados
      && fueros.Valid() && jurisdicciones.Valid() && tribunales.Valid() && secretarias.Valid() && estados.Valid()
    }

    /** Every table, as a value. */
    function State(): Db
      reads this, fueros, jurisdicciones, tribunales, secretarias, estados
    {
      Db(Dim(fueros.ids, fueros.next), Dim(jurisdicciones.ids, jurisdicciones.next),
         Dim(tribunales.ids, tribunales.next), Dim(secretarias.ids, secretarias.next),
         Dim(estados.ids, estados.next), expedientes, tipos, delitos, partes, plazos)
    }

    constructor()
      ensures Valid() && State() == EmptyDb
    {
      fueros := new DimTable();
      jurisdicciones := new DimTable();
      tribunales := new DimTable();
      secretarias := new DimTable();
      estados := new DimTable();
      expedientes := map[];
      tipos := {};
      delitos := {};
      partes := {};
      plazos := {};
    }

    /** The five lookups and the `expediente` insert of one record. */
    method GuardarCaso(r: TabRecord)
      requires Valid() && Storable(r)
      modifies this, fueros, jurisdicciones, tribunales, secretarias, estados
      ensures Valid() && State() == StoreCase(old(State()), r)
    {
      var fueroId := fueros.ObtenerOCrearId(Some(Unknown));
      var jurisdiccionId := jurisdicciones.ObtenerOCrearId(Some(Unknown));
      var tribunalId := tribunales.ObtenerOCrearId(Some(Unknown));
      var secretariaId := secretarias.ObtenerOCrearId(Some(Unknown));
      var estadoId := estados.ObtenerOCrearId(Some(StateOf(r)));
      var exp := r.fields[CaseRuns.CaseField];
      if exp !in expedientes {
        expedientes := expedientes[exp := CaseRow(r.fields[CaptionKey], UpdatedOf(r), fueroId, tribunalId, secretariaId, estadoId)];
      }
    }

    /** The offence loop of one record. */
    method GuardarDelitos(exp: string, ds: seq<string>)
      requires Valid()
      modifies this
      ensures Valid() && State() == StoreOffences(old(State()), exp, ds)
    {
      for k := 0 to |ds|
        invariant tipos == old(tipos) + (set d | d in ds[..k])
        invariant delitos == old(delitos) + (set d | d in ds[..k] :: (exp, d))
        invariant expedientes == old(expedientes) && partes == old(partes) && plazos == old(plazos)
      {
        OffencesSnoc(exp, ds, k);
        tipos := tipos + {ds[k]};
        delitos := delitos + {(exp, ds[k])};
      }
      assert ds[..|ds|] == ds;
    }

    /** `if r.get("Delitos")`: the offences of a record whose offence field
        is there and non-empty. */
    method GuardarDelitosDe(exp: string, r: TabRecord)
      requires Valid()
      modifies this
      ensures Valid() && State() == StoreOffences(old(State()), exp, OffencesOf(r))
    {
      if OffencesKey in r.fields && r.fields[OffencesKey] != [] {
        GuardarDelitos(exp, Offences(r.fields[OffencesKey]));
      } else {
        assert State() == StoreOffences(State(), exp, []);
      }
    }

    /** The party loop of one record. */
    method GuardarPartes(exp: string, ps: seq<Party>)
      requires Valid()
      modifies this
      ensures Valid() && State() == StoreParties(old(State()), exp, ps)
    {
      for k := 0 to |ps|
        invariant partes == old(partes) + (set p | p in ps[..k] :: PartyRowOf(exp, p))
        invariant expedientes == old(expedientes) && tipos == old(tipos) && delitos == old(delitos) && plazos == old(plazos)
      {
        PartiesSnoc(exp, ps, k);
        partes := partes + {PartyRow(UnknownCuit, exp, NaturalPerson, ps[k].name)};
      }
      assert ps[..|ps|] == ps;
    }

    /** The resolution loop of one record: each text, cut to 95 characters,
        becomes a deadline. */
    method GuardarPlazos(exp: string, texts: seq<string>)
      requires Valid()
      modifies this
      ensures Valid() && State() == StoreDeadlines(old(State()), exp, texts)
    {
      for k := 0 to |texts|
        invariant plazos == old(plazos) + (set t | t in texts[..k] :: DeadlineRowOf(exp, t))
        invariant expedientes == old(expedientes) && tipos == old(tipos) && delitos == old(delitos) && partes == old(partes)
      {
        DeadlinesSnoc(exp, texts, k);
        var res := texts[k];
        plazos := plazos + {DeadlineRow(exp, if |res| <= TypeWidth then res else res[..TypeWidth], 0, InForce)};
      }
      assert texts[..|texts|] == texts;
    }

    /** The body of the record loop of `guardar_en_db`. */
    method GuardarRegistro(r: TabRecord)
      requires Valid() && Storable(r)
      modifies this, fueros, jurisdicciones, tribunales, secretarias, estados
      ensures Valid() && State() == SaveRecord(old(State()), r)
    {
      var exp := r.fields[CaseRuns.CaseField];
      GuardarCaso(r);
      GuardarDelitosDe(exp, r);
      GuardarPartes(exp, r.accused);
      GuardarPlazos(exp, r.resolutions);
    }

    /** `guardar_en_db`: every record in order. */
    method GuardarEnDb(resultados: seq<TabRecord>)
      requires Valid() && forall r :: r in resultados ==> Storable(r)
      modifies this, fueros, jurisdicciones, tribunales, secretarias, estados
      ensures Valid() && State() == SaveAll(old(State()), resultados)
    {
      for i := 0 to |resultados|
        invariant Valid() && State() == SaveAll(old(State()), resultados[..i])
      {
        assert resultados[..i + 1][..i] == resultados[..i];
        assert resultados[i] in resultados;
        GuardarRegistro(resultados[i]);
      }
      assert resultados[..|resultados|] == resultados;
    }
  }
}
