/**
 * The text normalisers of the ETL (etl_expedientes.py): dates, free text,
 * forum and jurisdiction inference, chamber and year from the case number,
 * and the split of the "Radicación del expediente" summary.
 */
module EtlText {
  import opened Optional
  import opened Strings

  // ---------------------------------------------------------------------
  // Lookup tables
  // ---------------------------------------------------------------------

  const Unknown: string := "Desconocido"
  const UnknownChamber: string := "Desconocida"

  /** The chamber codes. The source keeps two dictionaries keyed by these same
      27 codes, CAMARAS (code to chamber) and FUERO_POR_CAMARA (code to forum);
      here they are one key list with two aligned value lists. */
  const ChamberCodes: seq<string> := [
      "CFP",
      "CCC",
      "CAF",
      "CPF",
      "FRO",
      "CCF",
      "CIV",
      "FGR",
      "FPO",
      "FTU",
      "FCB",
      "FPA",
      "FSA",
      "FBB",
      "FCT",
      "FMZ",
      "FCR",
      "FSM",
      "FLP",
      "FMP",
      "FRE",
      "CSS",
      "CPN",
      "CPE",
      "COM",
      "CNE",
      "CNT"
    ]

  const ChamberNames: seq<string> := [
      "Cámara Nacional de Apelaciones en lo Criminal y Correccional Federal",
      "Cámara Nacional de Apelaciones en lo Criminal y Correccional",
      "Cámara Nacional de Apelaciones en lo Contencioso Administrativo Federal",
      "Cámara Federal de Casación Penal",
      "Cámara Federal de Apelaciones de Rosario",
      "Cámara Nacional de Apelaciones en lo Civil y Comercial Federal",
      "Cámara Nacional de Apelaciones en lo Civil",
      "Cámara Federal de Apelaciones de General Roca",
      "Cámara Federal de Apelaciones de Posadas",
      "Cámara Federal de Apelaciones de Tucumán",
      "Cámara Federal de Apelaciones de Córdoba",
      "Cámara Federal de Apelaciones de Paraná",
      "Cámara Federal de Apelaciones de Salta",
      "Cámara Federal de Apelaciones de Bahía Blanca",
      "Cámara Federal de Apelaciones de Corrientes",
      "Cámara Federal de Apelaciones de Mendoza",
      "Cámara Federal de Apelaciones de Comodoro Rivadavia",
      "Cámara Federal de Apelaciones de San Martín",
      "Cámara Federal de Apelaciones de La Plata",
      "Cámara Federal de Apelaciones de Mar del Plata",
      "Cámara Federal de Apelaciones de Resistencia",
      "Cámara Federal de la Seguridad Social",
      "Cámara Nacional de Casación Penal",
      "Cámara Nacional en lo Penal Económico",
      "Cámara Nacional de Apelaciones en lo Comercial",
      "Cámara Nacional Electoral",
      "Cámara Nacional de Apelaciones del Trabajo"
    ]

  const ChamberForums: seq<string> := [
      "Penal Federal",
      "Penal Federal",
      "Contencioso Administrativo",
      "Penal Federal",
      "Penal Federal",
      "Civil",
      "Civil",
      "Penal Federal",
      "Penal Federal",
      "Penal Federal",
      "Penal Federal",
      "Penal Federal",
      "Penal Federal",
      "Penal Federal",
      "Penal Federal",
      "Penal Federal",
      "Penal Federal",
      "Penal Federal",
      "Penal Federal",
      "Penal Federal",
      "Penal Federal",
      "Penal Federal",
      "Penal Federal",
      "Penal Federal",
      "Comercial",
      "Electoral",
      "Laboral"
    ]

  /** The position of `key` in `keys`, as a dictionary lookup finds its entry. */
  function Find(keys: seq<string>, key: string): (r: Option<nat>)
    ensures r.Some? ==> r.value < |keys| && keys[r.value] == key
    ensures r.None? ==> key !in keys
    decreases |keys|
  {
    if keys == [] then None
    else if keys[0] == key then Some(0)
    else match Find(keys[1..], key)
      case None => None
      case Some(i) => Some(i + 1)
  }

  /** `CAMARAS.get(code)`. */
  function ChamberName(code: string): Option<string> {
    match Find(ChamberCodes, code)
    case None => None
    case Some(i) => Some(ChamberNames[i])
  }

  /** `FUERO_POR_CAMARA.get(code)`. */
  function ForumOf(code: string): Option<string> {
    match Find(ChamberCodes, code)
    case None => None
    case Some(i) => Some(ChamberForums[i])
  }

  const Forums: set<string> :=
    {"Penal Federal", "Civil", "Comercial", "Laboral", "Contencioso Administrativo", "Electoral"}

  /** Both tables know the same chamber codes, every forum is one of six, and
      no table value is one of the fallbacks. */
  lemma TablesAgree(code: string)
    ensures ChamberName(code).Some? <==> ForumOf(code).Some?
    ensures ForumOf(code).Some? ==> ForumOf(code).value in Forums
    ensures Unknown !in Forums && ChamberName(code) != Some(UnknownChamber)
  {
    TableValues();
    UnknownNotForum();
  }

  lemma UnknownNotForum()
    ensures Unknown !in Forums
  {
  }

  lemma TableValues()
    ensures forall i :: 0 <= i < |ChamberForums| ==> ChamberForums[i] in Forums
    ensures forall i :: 0 <= i < |ChamberNames| ==> ChamberNames[i] != UnknownChamber
  {
  }

  // ---------------------------------------------------------------------
  // Python truthiness of optional text
  // ---------------------------------------------------------------------

  /** `bool(x)` for a value that is `None` or a string. */
  predicate Truthy(x: Option<string>) {
    x.Some? && x.value != []
  }

  // ---------------------------------------------------------------------
  // parse_date
  // ---------------------------------------------------------------------

  datatype Date = Date(year: int, month: int, day: int)

  predicate IsLeap(y: int) {
    y % 4 == 0 && (y % 100 != 0 || y % 400 == 0)
  }

  function DaysInMonth(y: int, m: int): int
    requires 1 <= m <= 12
  {
    if m == 2 then (if IsLeap(y) then 29 else 28)
    else if m == 4 || m == 6 || m == 9 || m == 11 then 30
    else 31
  }

  /** A date the Python `datetime` type can hold. */
  predicate ValidDate(d: Date) {
    1 <= d.year <= 9999 && 1 <= d.month <= 12 && 1 <= d.day <= DaysInMonth(d.year, d.month)
  }

  /** What `%d` (max 31) and `%m` (max 12) accept: one or two digits, value from 1. */
  predicate IsNumberField(p: string, max: nat) {
    1 <= |p| <= 2 && AllDigits(p) && 1 <= Value(p) <= max
  }

  predicate IsYearField(p: string) {
    |p| == 4 && AllDigits(p)
  }

  /** `datetime.strptime(t, "%d/%m/%Y")`: `None` where it raises. */
  function ParseDayMonthYear(t: string): (r: Option<Date>)
    ensures r.Some? ==> ValidDate(r.value)
    ensures r.Some? ==> forall i :: 0 <= i < |t| ==> IsDigit(t[i]) || t[i] == '/'
  {
    var parts := Split(t, '/');
    if |parts| == 3 && IsNumberField(parts[0], 31) && IsNumberField(parts[1], 12) && IsYearField(parts[2]) then
      var d := Date(Value(parts[2]), Value(parts[1]), Value(parts[0]));
      if ValidDate(d) then
        Join3("/", parts);
        Some(d)
      else None
    else None
  }

  /** `d.strftime("%Y-%m-%d")`. */
  function IsoText(d: Date): (r: string)
    requires ValidDate(d)
    ensures IsIsoDate(r)
  {
    var r := Pad4(d.year) + "-" + Pad2(d.month) + "-" + Pad2(d.day);
    assert r[..4] == Pad4(d.year) && r[5..7] == Pad2(d.month) && r[8..] == Pad2(d.day);
    r
  }

  /** The shape of every non-empty result of parse_date: `YYYY-MM-DD` naming a real day. */
  predicate IsIsoDate(r: string) {
    && |r| == 10 && r[4] == '-' && r[7] == '-'
    && AllDigits(r[..4]) && AllDigits(r[5..7]) && AllDigits(r[8..])
    && ValidDate(Date(Value(r[..4]), Value(r[5..7]), Value(r[8..])))
  }

  /** parse_date: `DD/MM/YYYY` to `YYYY-MM-DD`, or the empty text when absent or malformed. */
  function ParseDate(s: Option<string>): (r: string)
    ensures r == [] || IsIsoDate(r)
  {
    if !Truthy(s) then []
    else match ParseDayMonthYear(Strip(s.value))
      case None => []
      case Some(d) => IsoText(d)
  }

  /** Every accepted spelling, with any whitespace around it, gives the ISO form. */
  lemma {:induction false} ParseDateAccepts(lead: string, ds: string, ms: string, ys: string, trail: string)
    requires AllSpace(lead) && AllSpace(trail)
    requires IsNumberField(ds, 31) && IsNumberField(ms, 12) && IsYearField(ys)
    requires ValidDate(Date(Value(ys), Value(ms), Value(ds)))
    ensures ParseDate(Some(lead + ds + "/" + ms + "/" + ys + trail)) == IsoText(Date(Value(ys), Value(ms), Value(ds)))
  {
    var core := ds + "/" + ms + "/" + ys;
    assert lead + ds + "/" + ms + "/" + ys + trail == lead + core + trail;
    assert core[0] == ds[0] && core[|core| - 1] == ys[3];
    StripPadded(lead, core, trail);
    DayMonthYearAccepts(ds, ms, ys);
    ParseDateOfCore(lead + core + trail, core, Date(Value(ys), Value(ms), Value(ds)));
  }

  lemma DayMonthYearAccepts(ds: string, ms: string, ys: string)
    requires IsNumberField(ds, 31) && IsNumberField(ms, 12) && IsYearField(ys)
    requires ValidDate(Date(Value(ys), Value(ms), Value(ds)))
    ensures ParseDayMonthYear(ds + "/" + ms + "/" + ys) == Some(Date(Value(ys), Value(ms), Value(ds)))
  {
    assert '/' !in ds && '/' !in ms && '/' !in ys;
    SplitThree(ds, '/', ms, ys);
  }

  /** The text written in the `%d/%m/%Y` form is read back as the same day. */
  lemma ParseDateRoundTrip(d: Date)
    requires ValidDate(d)
    ensures ParseDate(Some(Pad2(d.day) + "/" + Pad2(d.month) + "/" + Pad4(d.year))) == IsoText(d)
  {
    var core := Pad2(d.day) + "/" + Pad2(d.month) + "/" + Pad4(d.year);
    DmyTextTrimmed(d);
    DmyTextParses(d);
    ParseDateOfCore(core, core, d);
  }

  lemma DmyTextTrimmed(d: Date)
    requires ValidDate(d)
    ensures Strip(Pad2(d.day) + "/" + Pad2(d.month) + "/" + Pad4(d.year)) == Pad2(d.day) + "/" + Pad2(d.month) + "/" + Pad4(d.year)
  {
    var ds, ms, ys := Pad2(d.day), Pad2(d.month), Pad4(d.year);
    var core := ds + "/" + ms + "/" + ys;
    assert core[0] == ds[0] && core[|core| - 1] == ys[3];
    StripTrimmed(core);
  }

  lemma DmyTextParses(d: Date)
    requires ValidDate(d)
    ensures ParseDayMonthYear(Pad2(d.day) + "/" + Pad2(d.month) + "/" + Pad4(d.year)) == Some(d)
  {
    var ds, ms, ys := Pad2(d.day), Pad2(d.month), Pad4(d.year);
    assert Date(Value(ys), Value(ms), Value(ds)) == d;
    DayMonthYearAccepts(ds, ms, ys);
  }

  lemma ParseDateOfCore(s: string, core: string, d: Date)
    requires Strip(s) == core && ParseDayMonthYear(core) == Some(d)
    ensures ParseDate(Some(s)) == IsoText(d)
  {
  }

  /** The characters outside the stripped core of a text are all whitespace. */
  lemma StripKeeps(s: string, i: int)
    requires 0 <= i < |s| && !IsSpace(s[i])
    ensures s[i] in Strip(s)
  {
    var l := LStrip(s);
    LStripKeeps(s, i);
    var m := i - (|s| - |l|);
    RStripKeeps(l, m);
    assert Strip(s)[m] == s[i];
  }

  lemma LStripKeeps(s: string, i: int)
    requires 0 <= i < |s| && !IsSpace(s[i])
    ensures |s| - |LStrip(s)| <= i && LStrip(s)[i - (|s| - |LStrip(s)|)] == s[i]
  {
  }

  lemma RStripKeeps(l: string, m: int)
    requires 0 <= m < |l| && !IsSpace(l[m])
    ensures m < |RStrip(l)| && RStrip(l)[m] == l[m]
  {
  }

  /** parse_date never yields a date from text holding anything but digits,
      slashes and whitespace. */
  lemma ParseDateRejectsOtherChars(s: string, i: int)
    requires 0 <= i < |s| && !IsDigit(s[i]) && s[i] != '/' && !IsSpace(s[i])
    ensures ParseDate(Some(s)) == []
  {
    StripKeeps(s, i);
  }

  // ---------------------------------------------------------------------
  // limpiar_texto
  // ---------------------------------------------------------------------

  /** limpiar_texto: collapses every whitespace run to one space and trims; an
      absent or blank text becomes `None`. */
  function CleanText(x: Option<string>): (r: Option<string>)
    ensures r.None? <==> (x.None? || AllSpace(x.value))
  {
    if x.None? then None
    else
      var ws := Words(x.value);
      var s := Join(" ", ws);
      WordsEmpty(x.value);
      JoinedWords(ws);
      if s != [] then Some(s) else None
  }

  /** A cleaned text has single spaces between its words, none at either end,
      and the same words as the input. */
  lemma CleanTextCollapsed(x: Option<string>)
    ensures CleanText(x).Some? ==>
      Collapsed(CleanText(x).value) && Words(CleanText(x).value) == Words(x.value)
  {
    if x.Some? {
      WordsEmpty(x.value);
      JoinedWords(Words(x.value));
    }
  }

  lemma JoinedWords(ws: seq<string>)
    requires IsWordList(ws)
    ensures ws == [] ==> Join(" ", ws) == []
    ensures ws != [] ==> Collapsed(Join(" ", ws)) && Words(Join(" ", ws)) == ws
  {
    if ws != [] {
      JoinCollapsed(ws);
      WordsOfJoin(ws);
    }
  }

  /** Cleaning a cleaned text changes nothing. */
  lemma CleanTextIdempotent(x: Option<string>)
    ensures CleanText(CleanText(x)) == CleanText(x)
  {
    CleanTextCollapsed(x);
    if CleanText(x).Some? {
      CleanTextFixes(CleanText(x).value);
    }
  }

  /** A collapsed text is its own cleaning. */
  lemma CleanTextFixes(s: string)
    requires Collapsed(s)
    ensures CleanText(Some(s)) == Some(s)
  {
    CollapsedIsJoin(s);
  }

  lemma {:induction false} CollapsedIsJoin(s: string)
    requires Collapsed(s)
    ensures Join(" ", Words(s)) == s
    decreases |s|
  {
    var w := Token(s);
    if |w| < |s| {
      var rest := s[|w| + 1..];
      CollapsedSplit(s);
      CollapsedIsJoin(rest);
      WordsEmpty(rest);
      assert Join(" ", [w] + Words(rest)) == w + " " + Join(" ", Words(rest));
    } else {
      WordsOfJoin([s]);
      assert w == s;
    }
  }

  /** A collapsed text is its first word, one space, and a collapsed rest. */
  lemma CollapsedSplit(s: string)
    requires Collapsed(s) && |Token(s)| < |s|
    ensures var w := Token(s);
      && s == w + " " + s[|w| + 1..]
      && Collapsed(s[|w| + 1..])
      && Words(s) == [w] + Words(s[|w| + 1..])
  {
    var w := Token(s);
    var rest := s[|w| + 1..];
    assert IsSpace(s[|w|]);
    assert s == w + " " + rest;
    CollapsedSuffix(s, |w| + 1);
    WordsStep(s);
  }

  lemma CollapsedSuffix(s: string, k: nat)
    requires Collapsed(s) && 0 < k < |s| && IsSpace(s[k - 1])
    ensures Collapsed(s[k..])
  {
    var rest := s[k..];
    forall i | 0 <= i < |rest| && IsSpace(rest[i])
      ensures rest[i] == ' ' && (i + 1 < |rest| ==> !IsSpace(rest[i + 1]))
    {
      assert rest[i] == s[k + i];
      if i + 1 < |rest| {
        assert rest[i + 1] == s[k + i + 1];
      }
    }
  }

  lemma WordsStep(s: string)
    requires s != [] && !IsSpace(s[0]) && |Token(s)| < |s|
    requires |Token(s)| + 1 < |s| && !IsSpace(s[|Token(s)| + 1])
    ensures Words(s) == [Token(s)] + Words(s[|Token(s)| + 1..])
  {
    var w := Token(s);
    var rest := s[|w| + 1..];
    assert LStrip(s) == s;
    assert Words(s) == [w] + Words(s[|w|..]);
    assert s[|w|..] == [s[|w|]] + rest;
    LStripSpaces([s[|w|]], rest);
    WordsLStrip(s[|w|..]);
  }

  /** Leading whitespace does not change the words. */
  lemma WordsLStrip(s: string)
    ensures Words(s) == Words(LStrip(s))
  {
    var t := LStrip(s);
    assert LStrip(t) == t;
  }

  // ---------------------------------------------------------------------
  // inferir_fuero_por_camara / inferir_jurisdiccion_por_radicacion
  // ---------------------------------------------------------------------

  /** inferir_fuero_por_camara: the forum of the chamber code that opens the
      case number (its first word, upper-cased). A blank but non-empty number
      makes the source fail with an index error, hence the precondition. */
  function InferForum(number: Option<string>): (r: string)
    requires !Truthy(number) || !AllSpace(number.value)
    ensures r == Unknown || r in Forums
  {
    if !Truthy(number) then Unknown
    else
      WordsEmpty(number.value);
      var code := Upper(Words(number.value)[0]);
      TablesAgree(code);
      match ForumOf(code)
      case Some(f) => f
      case None => Unknown
  }

  /** The forum is known exactly when the first word names a known chamber,
      whatever its letter case. */
  lemma InferForumKnown(number: Option<string>)
    requires !Truthy(number) || !AllSpace(number.value)
    ensures InferForum(number) != Unknown <==>
      (Truthy(number) && ForumOf(Upper(Words(number.value)[0])).Some?)
  {
    if Truthy(number) {
      WordsEmpty(number.value);
      TablesAgree(Upper(Words(number.value)[0]));
    }
  }

  /** inferir_jurisdiccion_por_radicacion. */
  function InferJurisdiction(filing: Option<string>): (r: string)
    ensures r == "Federal" || r == "Nacional"
    ensures r == "Federal" <==> Truthy(filing) && Contains(Upper(filing.value), "FEDERAL")
  {
    if !Truthy(filing) then "Nacional"
    else if Contains(Upper(filing.value), "FEDERAL") then "Federal"
    else "Nacional"
  }

  /** "Federal" in any letter case anywhere in the filing text makes it federal. */
  lemma FederalAnyCase(a: string, w: string, b: string)
    requires Upper(w) == "FEDERAL"
    ensures InferJurisdiction(Some(a + w + b)) == "Federal"
  {
    UpperAppend(a + w, b);
    UpperAppend(a, w);
    ContainsMiddle(Upper(a), "FEDERAL", Upper(b));
  }

  // ---------------------------------------------------------------------
  // extraer_camara_y_ano: re.match(r"(\w+)\s+\d+/(\d{4})", number)
  // ---------------------------------------------------------------------

  /** Length of the longest prefix of `s` whose characters satisfy the class. */
  function WordRun(s: string): (n: nat)
    ensures n <= |s| && (n == |s| || !IsWordChar(s[n]))
    ensures forall i :: 0 <= i < n ==> IsWordChar(s[i])
    decreases |s|
  {
    if s != [] && IsWordChar(s[0]) then 1 + WordRun(s[1..]) else 0
  }

  function SpaceRun(s: string): (n: nat)
    ensures n <= |s| && (n == |s| || !IsSpace(s[n]))
    ensures forall i :: 0 <= i < n ==> IsSpace(s[i])
    decreases |s|
  {
    if s != [] && IsSpace(s[0]) then 1 + SpaceRun(s[1..]) else 0
  }

  function DigitRun(s: string): (n: nat)
    ensures n <= |s| && (n == |s| || !IsDigit(s[n]))
    ensures forall i :: 0 <= i < n ==> IsDigit(s[i])
    decreases |s|
  {
    if s != [] && IsDigit(s[0]) then 1 + DigitRun(s[1..]) else 0
  }

  /** `\d+/(\d{4})` matching the start of `t`: the digits `d`, a slash, the
      four digits `y` of the year, then whatever follows. */
  ghost predicate YearParts(t: string, d: string, y: string, rest: string) {
    && d != [] && AllDigits(d) && |y| == 4 && AllDigits(y)
    && t == d + ("/" + (y + rest))
  }

  /** `(\w+)\s+\d+/(\d{4})` matching the start of `s`: the code, a run of
      whitespace, then the digits, the slash and the year as above. */
  ghost predicate CaseNumberParts(s: string, code: string, ws: string, d: string, y: string, rest: string) {
    && code != [] && (forall i :: 0 <= i < |code| ==> IsWordChar(code[i]))
    && ws != [] && AllSpace(ws)
    && d != [] && AllDigits(d) && |y| == 4 && AllDigits(y)
    && s == code + (ws + (d + ("/" + (y + rest))))
  }

  /** The pattern anchored at the start. Word characters, whitespace and digits
      are told apart by the runs, so each `+` takes its longest run and no
      backtracking can find another match. There is a match exactly when the
      text splits as the pattern says, and then the result is the code and the
      value of the four digits after the slash. */
  function MatchCaseNumber(s: string): (r: Option<(string, nat)>)
    ensures r.Some? ==> r.value.0 != [] && r.value.1 < 10000
    ensures r.Some? ==> StartsWith(s, r.value.0) && |r.value.0| < |s| && IsSpace(s[|r.value.0|])
    ensures r.Some? ==> forall i :: 0 <= i < |r.value.0| ==> IsWordChar(r.value.0[i])
    ensures r.Some? ==> exists ws, d, y, rest :: CaseNumberParts(s, r.value.0, ws, d, y, rest) && r.value.1 == Value(y)
    ensures forall code, ws, d, y, rest :: CaseNumberParts(s, code, ws, d, y, rest) ==> r == Some((code, Value(y)))
  {
    var a := WordRun(s);
    var b := if a == 0 then 0 else SpaceRun(s[a..]);
    var m := if a == 0 || b == 0 then None else MatchYear(s[a + b..]);
    MatchComplete(s, a, b, m);
    if m.None? then None
    else
      MatchSound(s, a, b);
      Some((s[..a], m.value))
  }

  /** Every split of the whole pattern is the one the runs find. */
  lemma MatchComplete(s: string, a: nat, b: nat, m: Option<nat>)
    requires a == WordRun(s)
    requires b == if a == 0 then 0 else SpaceRun(s[a..])
    requires m == if a == 0 || b == 0 then None else MatchYear(s[a + b..])
    ensures forall code, ws, d, y, rest :: CaseNumberParts(s, code, ws, d, y, rest) ==>
      a == |code| && s[..a] == code && m == Some(Value(y))
  {
    forall code, ws, d, y, rest | CaseNumberParts(s, code, ws, d, y, rest)
      ensures a == |code| && s[..a] == code && m == Some(Value(y))
    {
      PartsRuns(s, code, ws, d, y, rest);
      assert a == |code| > 0 && b == |ws| > 0;
      var t := s[a + b..];
      assert YearParts(t, d, y, rest);
      assert MatchYear(t) == Some(Value(y));
    }
  }

  /** The tail `\d+/(\d{4})` of the pattern: there is a year exactly when the
      text splits as the tail says, and it is the value of those four digits. */
  function MatchYear(t: string): (r: Option<nat>)
    ensures r.Some? ==> r.value < 10000
    ensures r.Some? ==> exists d, y, rest :: YearParts(t, d, y, rest) && r.value == Value(y)
    ensures forall d, y, rest :: YearParts(t, d, y, rest) ==> r == Some(Value(y))
  {
    var c := DigitRun(t);
    forall d, y, rest | YearParts(t, d, y, rest)
      ensures c == |d| && c + 5 <= |t| && t[c] == '/' && t[c + 1..c + 5] == y
    {
      YearPartsRuns(t, d, y, rest);
    }
    if c == 0 || c + 5 > |t| || t[c] != '/' || !AllDigits(t[c + 1..c + 5]) then None
    else
      FourDigitBound(t[c + 1..c + 5]);
      YearPartsOf(t, c);
      Some(Value(t[c + 1..c + 5]))
  }

  /** A split of the tail fixes where the digit run ends and where the year is. */
  lemma YearPartsRuns(t: string, d: string, y: string, rest: string)
    requires YearParts(t, d, y, rest)
    ensures DigitRun(t) == |d| && |d| + 5 <= |t| && t[|d|] == '/' && t[|d| + 1..|d| + 5] == y
  {
    DigitRunOf(d, "/" + (y + rest));
    assert t[|d|..] == "/" + (y + rest);
  }

  /** Where the digit run is followed by a slash and four digits, the text
      splits as the tail says. */
  lemma YearPartsOf(t: string, c: nat)
    requires 0 < c && c + 5 <= |t| && t[c] == '/' && AllDigits(t[c + 1..c + 5])
    requires forall i :: 0 <= i < c ==> IsDigit(t[i])
    ensures YearParts(t, t[..c], t[c + 1..c + 5], t[c + 5..])
  {
    var d, y, rest := t[..c], t[c + 1..c + 5], t[c + 5..];
    assert AllDigits(d) by {
      forall i | 0 <= i < c
        ensures IsDigit(d[i])
      {
        assert d[i] == t[i];
      }
    }
    assert t[c..] == "/" + (y + rest) by {
      assert t[c + 1..] == y + rest;
      assert t[c..] == [t[c]] + t[c + 1..];
    }
    assert t == d + t[c..];
  }

  /** A split of the whole pattern fixes the word run, the whitespace run and
      the tail. */
  lemma PartsRuns(s: string, code: string, ws: string, d: string, y: string, rest: string)
    requires CaseNumberParts(s, code, ws, d, y, rest)
    ensures WordRun(s) == |code| && |code| + |ws| <= |s| && s[..|code|] == code
    ensures SpaceRun(s[|code|..]) == |ws| && YearParts(s[|code| + |ws|..], d, y, rest)
  {
    var t := d + ("/" + (y + rest));
    WordCharsAreNotSpaces(ws[0]);
    assert s == code + (ws + t);
    RunsOf(code, ws + t);
    assert s[|code|..] == ws + t;
    assert t[0] == d[0];
    SpaceRunOf(ws, t);
    assert s[|code| + |ws|..] == t;
  }

  /** After a word run and a whitespace run, a year in the tail completes a
      split of the whole pattern. */
  lemma MatchSound(s: string, a: nat, b: nat)
    requires 0 < a == WordRun(s)
    requires 0 < b == SpaceRun(s[a..])
    requires MatchYear(s[a + b..]).Some?
    ensures exists ws, d, y, rest :: CaseNumberParts(s, s[..a], ws, d, y, rest) && MatchYear(s[a + b..]).value == Value(y)
  {
    var d, y, rest :| YearParts(s[a + b..], d, y, rest) && MatchYear(s[a + b..]).value == Value(y);
    CodeSpaceParts(s, a, b, d, y, rest);
  }

  lemma CodeSpaceParts(s: string, a: nat, b: nat, d: string, y: string, rest: string)
    requires 0 < a && a + b <= |s| && 0 < b
    requires forall i :: 0 <= i < a ==> IsWordChar(s[i])
    requires forall i :: 0 <= i < b ==> IsSpace(s[a..][i])
    requires YearParts(s[a + b..], d, y, rest)
    ensures CaseNumberParts(s, s[..a], s[a..a + b], d, y, rest)
  {
    var code, ws := s[..a], s[a..a + b];
    assert forall i :: 0 <= i < a ==> IsWordChar(code[i]) by {
      forall i | 0 <= i < a
        ensures IsWordChar(code[i])
      {
        assert code[i] == s[i];
      }
    }
    assert AllSpace(ws) by {
      forall i | 0 <= i < b
        ensures IsSpace(ws[i])
      {
        assert ws[i] == s[a..][i];
      }
    }
    assert s[a..] == ws + s[a + b..];
    assert s == code + s[a..];
  }

  /** extraer_camara_y_ano: the chamber named by the code (upper-cased) and the
      year, when the case number has the `CODE nnn/YYYY` shape. */
  function ExtractChamberAndYear(number: Option<string>): (r: (string, Option<nat>))
    ensures r.1.Some? ==> r.1.value < 10000
    ensures r.1.None? ==> r.0 == UnknownChamber
    ensures r.1.Some? ==> Truthy(number) && exists code, ws, d, y, rest ::
      CaseNumberParts(number.value, code, ws, d, y, rest) && r == (ChamberOrUnknown(Upper(code)), Some(Value(y)))
    ensures Truthy(number) ==> forall code, ws, d, y, rest :: CaseNumberParts(number.value, code, ws, d, y, rest) ==>
      r == (ChamberOrUnknown(Upper(code)), Some(Value(y)))
  {
    if !Truthy(number) then (UnknownChamber, None)
    else match MatchCaseNumber(number.value)
      case None => (UnknownChamber, None)
      case Some(m) => (ChamberOrUnknown(Upper(m.0)), Some(m.1))
  }

  /** `CAMARAS.get(code, "Desconocida")`. */
  function ChamberOrUnknown(code: string): string {
    match ChamberName(code)
    case Some(n) => n
    case None => UnknownChamber
  }

  /** The chamber is known exactly when the number has the pattern's shape and
      its code, upper-cased, is in the table. */
  lemma ChamberKnown(number: Option<string>)
    ensures ExtractChamberAndYear(number).0 != UnknownChamber <==>
      Truthy(number) && MatchCaseNumber(number.value).Some? &&
      ChamberName(Upper(MatchCaseNumber(number.value).value.0)).Some?
  {
    if Truthy(number) && MatchCaseNumber(number.value).Some? {
      TablesAgree(Upper(MatchCaseNumber(number.value).value.0));
    }
  }

  lemma WordCharsAreNotSpaces(c: char)
    ensures IsWordChar(c) ==> !IsSpace(c)
  {
  }

  /** A well-formed case number, with any run of whitespace after its code,
      gives back its code's chamber and its year. */
  lemma {:induction false} CaseNumberRoundTrip(code: string, ws: string, seq_: string, year: nat, rest: string)
    requires code != [] && forall i :: 0 <= i < |code| ==> IsWordChar(code[i])
    requires ws != [] && AllSpace(ws)
    requires seq_ != [] && AllDigits(seq_)
    requires year < 10000
    ensures ExtractChamberAndYear(Some(code + (ws + (seq_ + ("/" + (Pad4(year) + rest)))))) ==
      (ChamberOrUnknown(Upper(code)), Some(year))
  {
    MatchOfParts(code, ws, seq_, Pad4(year), rest);
  }

  /** The pattern splits `CODE<whitespace>nnn/YYYY...` at its parts, for any
      four digits. */
  lemma MatchOfParts(code: string, ws: string, seq_: string, y: string, rest: string)
    requires code != [] && forall i :: 0 <= i < |code| ==> IsWordChar(code[i])
    requires ws != [] && AllSpace(ws)
    requires seq_ != [] && AllDigits(seq_)
    requires |y| == 4 && AllDigits(y)
    ensures MatchCaseNumber(code + (ws + (seq_ + ("/" + (y + rest))))) == Some((code, Value(y)))
  {
    assert CaseNumberParts(code + (ws + (seq_ + ("/" + (y + rest)))), code, ws, seq_, y, rest);
  }

  lemma {:induction false} SpaceRunOf(w: string, rest: string)
    requires AllSpace(w)
    requires rest == [] || !IsSpace(rest[0])
    ensures SpaceRun(w + rest) == |w|
    decreases |w|
  {
    if w != [] {
      assert (w + rest)[1..] == w[1..] + rest;
      SpaceRunOf(w[1..], rest);
    } else {
      assert w + rest == rest;
    }
  }

  lemma {:induction false} RunsOf(w: string, rest: string)
    requires forall i :: 0 <= i < |w| ==> IsWordChar(w[i])
    requires rest == [] || !IsWordChar(rest[0])
    ensures WordRun(w + rest) == |w|
    decreases |w|
  {
    if w != [] {
      assert (w + rest)[1..] == w[1..] + rest;
      RunsOf(w[1..], rest);
    } else {
      assert w + rest == rest;
    }
  }

  lemma {:induction false} DigitRunOf(w: string, rest: string)
    requires AllDigits(w)
    requires rest == [] || !IsDigit(rest[0])
    ensures DigitRun(w + rest) == |w|
    decreases |w|
  {
    if w != [] {
      assert (w + rest)[1..] == w[1..] + rest;
      DigitRunOf(w[1..], rest);
    } else {
      assert w + rest == rest;
    }
  }

  /** Whenever the chamber is recognised, so is the forum: the code matched by
      the pattern is the first word of the number, and both tables share their codes. */
  lemma ChamberImpliesForum(number: Option<string>)
    requires !Truthy(number) || !AllSpace(number.value)
    ensures ExtractChamberAndYear(number).0 != UnknownChamber ==> InferForum(number) in Forums
  {
    if Truthy(number) && MatchCaseNumber(number.value).Some? {
      var code := MatchCaseNumber(number.value).value.0;
      FirstWordIsCode(number.value, code);
      TablesAgree(Upper(code));
      ForumOfFirstWord(number, Upper(code));
      ChamberOfMatch(number, code);
    }
  }

  lemma ChamberOfMatch(number: Option<string>, code: string)
    requires Truthy(number) && MatchCaseNumber(number.value).Some? && MatchCaseNumber(number.value).value.0 == code
    ensures ExtractChamberAndYear(number).0 == ChamberOrUnknown(Upper(code))
  {
  }

  lemma ForumOfFirstWord(number: Option<string>, code: string)
    requires Truthy(number) && Words(number.value) != [] && Upper(Words(number.value)[0]) == code
    ensures ForumOf(code).Some? ==> InferForum(number) == ForumOf(code).value
  {
    WordsEmpty(number.value);
  }

  /** A run of word characters followed by whitespace is the first word of the text. */
  lemma FirstWordIsCode(s: string, code: string)
    requires code != [] && StartsWith(s, code) && |code| < |s| && IsSpace(s[|code|])
    requires forall i :: 0 <= i < |code| ==> IsWordChar(code[i])
    ensures Words(s) != [] && Words(s)[0] == code
  {
    var rest := s[|code|..];
    assert s == code + rest;
    assert NoSpace(code) by {
      forall i | 0 <= i < |code| ensures !IsSpace(code[i]) {
        WordCharsAreNotSpaces(code[i]);
      }
    }
    LStripSpaces([], s);
    assert [] + s == s;
    TokenOf(code, rest);
  }

  // ---------------------------------------------------------------------
  // desarmar_radicacion
  // ---------------------------------------------------------------------

  /** The four fields of a filing summary. */
  datatype Filing = Filing(date: string, court: string, prosecutor: string, office: string)

  /** `[p.strip() for p in text.split("|")]`. */
  function FilingParts(text: string): (ps: seq<string>)
    ensures |ps| == |Split(text, '|')| >= 1
    ensures forall i :: 0 <= i < |ps| ==> ps[i] == Strip(Split(text, '|')[i])
  {
    var parts := Split(text, '|');
    seq(|parts|, i requires 0 <= i < |parts| => Strip(parts[i]))
  }

  predicate IsProsecutorPart(p: string) {
    StartsWith(Upper(p), "FISCAL:")
  }

  predicate IsOfficePart(p: string) {
    StartsWith(Upper(p), "FISCALIA") || StartsWith(Upper(p), "FISCALÍA")
  }

  /** `p.split(":", 1)[-1].strip()`: the text after the first colon, or all of it. */
  function AfterColon(p: string): (r: string)
    ensures Trimmed(r)
  {
    if ':' in p then Strip(SplitFirst(p, ':').1) else Strip(p)
  }

  /** The prosecutor and office that the loop over `partes[2:]` leaves behind,
      as a left fold: a later part overwrites an earlier one. */
  function StaffOf(ps: seq<string>): (string, string)
    decreases |ps|
  {
    if ps == [] then ([], [])
    else
      var acc := StaffOf(ps[..|ps| - 1]);
      var p := ps[|ps| - 1];
      if IsProsecutorPart(p) then (AfterColon(p), acc.1)
      else if IsOfficePart(p) then (acc.0, AfterColon(p))
      else acc
  }

  /** desarmar_radicacion as a value: date and court are the first two parts. */
  function FilingOf(text: string): Filing {
    if text == [] then Filing([], [], [], [])
    else
      var ps := FilingParts(text);
      var staff := StaffOf(if |ps| > 2 then ps[2..] else []);
      Filing(ps[0], if |ps| > 1 then ps[1] else [], staff.0, staff.1)
  }

  /** desarmar_radicacion, with its loop over the parts after the court. */
  method SplitFiling(text: string) returns (f: Filing)
    ensures f == FilingOf(text)
  {
    if text == [] {
      return Filing([], [], [], []);
    }
    var ps := FilingParts(text);
    var date := ps[0];
    var court := if |ps| > 1 then ps[1] else [];
    var prosecutor, office := ReadStaff(if |ps| > 2 then ps[2..] else []);
    f := Filing(date, court, prosecutor, office);
  }

  /** The loop of desarmar_radicacion over the parts after the court. */
  method ReadStaff(rest: seq<string>) returns (prosecutor: string, office: string)
    ensures (prosecutor, office) == StaffOf(rest)
  {
    prosecutor, office := [], [];
    for k := 0 to |rest|
      invariant (prosecutor, office) == StaffOf(rest[..k])
    {
      assert rest[..k + 1][..k] == rest[..k];
      var p := rest[k];
      if IsProsecutorPart(p) {
        prosecutor := AfterColon(p);
      } else if IsOfficePart(p) {
        office := AfterColon(p);
      }
    }
    assert rest[..|rest|] == rest;
  }

  /** The prosecutor comes from the last part that names one... */
  lemma {:induction false} StaffLastProsecutor(ps: seq<string>, j: nat)
    requires j < |ps| && IsProsecutorPart(ps[j])
    requires forall k :: j < k < |ps| ==> !IsProsecutorPart(ps[k])
    ensures StaffOf(ps).0 == AfterColon(ps[j])
    decreases |ps|
  {
    if j < |ps| - 1 {
      var init := ps[..|ps| - 1];
      assert !IsProsecutorPart(ps[|ps| - 1]);
      StaffLastProsecutor(init, j);
    }
  }

  /** ... and is empty when none does. */
  lemma {:induction false} StaffNoProsecutor(ps: seq<string>)
    requires forall k :: 0 <= k < |ps| ==> !IsProsecutorPart(ps[k])
    ensures StaffOf(ps).0 == []
    decreases |ps|
  {
    if ps != [] {
      StaffNoProsecutor(ps[..|ps| - 1]);
    }
  }

  /** The office comes from the last part that names one without naming a prosecutor... */
  lemma {:induction false} StaffLastOffice(ps: seq<string>, j: nat)
    requires j < |ps| && IsOfficePart(ps[j]) && !IsProsecutorPart(ps[j])
    requires forall k :: j < k < |ps| ==> !IsOfficePart(ps[k]) || IsProsecutorPart(ps[k])
    ensures StaffOf(ps).1 == AfterColon(ps[j])
    decreases |ps|
  {
    if j < |ps| - 1 {
      var init := ps[..|ps| - 1];
      StaffLastOffice(init, j);
    }
  }

  /** ... and is empty when none does. */
  lemma {:induction false} StaffNoOffice(ps: seq<string>)
    requires forall k :: 0 <= k < |ps| ==> !IsOfficePart(ps[k]) || IsProsecutorPart(ps[k])
    ensures StaffOf(ps).1 == []
    decreases |ps|
  {
    if ps != [] {
      StaffNoOffice(ps[..|ps| - 1]);
    }
  }
}
