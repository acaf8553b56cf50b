# Verified model of the court-case scraper and ETL

The system collects corruption cases from the public search pages of the Argentine federal criminal courts and turns them into normalised tables. This project is a Dafny model of its core, in the system's own terms:

- **Scrapers.** Each result page holds one block per case.
  - Each block is parsed into a map of labelled fields (`Expediente`, `Carátula`, `Delitos`, …), a filing history (`radicaciones`, numbered `orden` 1, 2, …), party lists by role (imputados, denunciados, denunciantes, querellantes) and resolutions.
  - Records are de-duplicated by case number, or by case number and tab in the database variant.
  - The page loop walks result pages until a missing "Siguiente" control. On a page without results, `scrape_tab` stops, while the other three scrapers time out waiting for a result and end without exporting.
  - The kept records are flattened into CSV rows: one party row per counsel, one row per filing, one row per resolution.
- **Database loader** (6_scrapper_con_db.py). It looks up or creates dimension rows (forum, jurisdiction, court, secretariat, state). It stores each case once, splits the `Delitos` field into offence types, and cuts resolution texts to 95 characters.
- **ETL** (etl_expedientes.py). It normalises the exported rows:
  - it parses `DD/MM/YYYY` dates into `YYYY-MM-DD`, collapses whitespace, and infers the forum, jurisdiction, chamber and year from the case number;
  - it splits the "Radicación del expediente" summary;
  - it de-duplicates resolutions by their four-field key;
  - it builds the forum, jurisdiction, court and judge dimension tables with dense ids in sorted name order, and lets contacts read from a "responsables" text fill only the judge fields that are still empty.

Modules, one file each:

| file | module | models |
|---|---|---|
| strings.dfy | `Optional`, `Strings` | `None`, the Python `str` operations the code relies on (`split`, `strip`, `join`, `upper`, `startswith`, `in`, slicing, `int()`) |
| sorting.dfy | `Sorting` | Python string order, `sorted(set(...))`, `{n: i + 1 for i, n in enumerate(...)}` |
| normalize.dfy | `EtlText` | `parse_date`, `limpiar_texto`, `inferir_fuero_por_camara`, `inferir_jurisdiccion_por_radicacion`, `extraer_camara_y_ano`, `desarmar_radicacion` and the two chamber tables |
| etl_cases.dfy | `EtlCases` | `procesar_expedientes`, `procesar_resoluciones`, `generar_dim_fueros`, `generar_dim_jurisdicciones` |
| etl_courts.dfy | `EtlCourts` | `generar_dim_tribunales` |
| responsables.dfy | `Responsables` | `parsear_responsables` |
| etl_judges.dfy | `EtlJudges` | `procesar_jueces_y_relaciones` |
| html.dfy | `Html` | the parsed page as a tree, the few queries the scrapers make, and the removal of the toggle controls |
| block.dfy | `BlockParser` | `procesar_bloque` of scraper_completas.py and the same parse inlined in 5_scraper_completo.py |
| pages.dfy | `Pages` | the `while True` page loop and the `vistos` admit step |
| runs.dfy | `CaseRuns` | `run` of scraper_completas.py and of 5_scraper_completo.py |
| export.dfy | `CaseExport` | `exportar_resultados` and the CSV blocks of 5_scraper_completo.py |
| roles.dfy | `RolesScraper` | the parse, dedup and export of 4_1_scraper_roles.py |
| tabs.dfy | `TabScraper` | `scrape_tab` of 6_scrapper_con_db.py |
| store.dfy | `CaseStore` | `obtener_o_crear_id` and `guardar_en_db`, as a class holding the tables in memory |
| tabexport.dfy | `TabExport` | `guardar_csv` of 6_scrapper_con_db.py |

## Model

| member | source | states |
|---|---|---|
| Strings.Words | etl_expedientes.py:81 | `str.split()` yields non-empty words without whitespace |
| Strings.WordsEmpty | etl_expedientes.py:81-82 | a text has no words exactly when it is all whitespace, which is when `limpiar_texto` gives `None` |
| Strings.WordsOfJoin | etl_expedientes.py:81 | splitting a single-space join of words gives the same words back |
| Strings.JoinCollapsed | etl_expedientes.py:81 | a single-space join of words has single spaces between words and none at either end |
| Strings.Strip | etl_expedientes.py:114 | `str.strip()` leaves no whitespace at either end and never grows the text |
| Strings.StripEmpty | etl_expedientes.py:80-82 | a text strips to nothing exactly when it is all whitespace |
| Strings.StripPadded | etl_expedientes.py:75 | stripping removes exactly the whitespace around a text that is trimmed itself |
| Strings.Split | etl_expedientes.py:114 | `str.split(c)` gives at least one piece, no piece holds `c`, and joining the pieces with `c` gives the text back |
| Strings.SplitThree | scraper_completas.py:189 | three separator-free pieces joined by the separator split back into the same three pieces |
| Strings.SplitFirst | scraper_completas.py:235-238 | `s.split(c, 1)` when `c` occurs: the text before the first `c`, which holds none, and everything after it |
| Strings.IndexOf | scraper_completas.py:235-236 | the first occurrence of a character, or none exactly when it does not occur |
| Strings.RemoveAll | scraper_completas.py:140 | `s.replace(p, "")` with a one-character `p` leaves no `p` and never grows the text |
| Strings.Truncate | 6_scrapper_con_db.py:187 | `s[:n]` is a prefix of `s` of at most `n` characters, and `s` itself when it is that short |
| Strings.Upper | etl_expedientes.py:89 | `str.upper()` keeps the length, and `UpperAt` shows it works character by character |
| Strings.UpperAppend | etl_expedientes.py:89 | upper-casing distributes over concatenation |
| Strings.Pad2 | etl_expedientes.py:75 | `%02d` gives two digits that read back as the number |
| Strings.Pad4 | etl_expedientes.py:75 | `%04d` gives four digits that read back as the number |
| Strings.FourDigitBound | etl_expedientes.py:102-106 | the year group `\d{4}` read with `int()` is below 10000 |
| Strings.Lower | scraper_completas.py:295 | `str.lower()` keeps the length and lower-cases each character |
| Strings.Capitalize | scraper_completas.py:295 | `str.capitalize()` keeps the length, upper-cases the first character and lower-cases the rest |
| Sorting.LessTransitive | etl_expedientes.py:465 | Python's string order is transitive |
| Sorting.LessTotal | etl_expedientes.py:465 | any two different strings are ordered one way or the other |
| Sorting.LessAsymmetric | etl_expedientes.py:465 | no two strings are each less than the other |
| Sorting.Insert | etl_expedientes.py:369 | inserting into a strictly sorted list keeps it strictly sorted and adds exactly the new value |
| Sorting.SortedDistinct | etl_expedientes.py:369 | `sorted(set(values))` is strictly increasing and holds exactly the values |
| Sorting.SortedUnique | etl_expedientes.py:369 | two strictly sorted lists with the same members are equal, so the sorted listing does not depend on how it is computed |
| Sorting.NumberNames | etl_expedientes.py:466 | the numbering has exactly the listed names as keys and gives the name at position i the id i + 1 |
| Sorting.NumberingOrder | etl_expedientes.py:465-466 | ids run from 1 to the number of names, and a name's id is smaller exactly when the name sorts first |
| EtlText.TablesAgree | etl_expedientes.py:12-52 | CAMARAS and FUERO_POR_CAMARA know the same codes, every forum is one of six, and no table value is a fallback |
| EtlText.Find | etl_expedientes.py:91 | a dictionary lookup finds the entry of a present key and nothing for an absent one |
| EtlText.ParseDayMonthYear | etl_expedientes.py:75 | `strptime(..., "%d/%m/%Y")` only accepts digits and slashes and only yields real calendar days |
| EtlText.IsoText | etl_expedientes.py:75 | `strftime("%Y-%m-%d")` writes `YYYY-MM-DD` naming the same valid day |
| EtlText.ParseDate | etl_expedientes.py:70-77 | the result is either empty or a well-formed ISO date of a real day |
| EtlText.ParseDateAccepts | etl_expedientes.py:70-77 | every spelling that `%d/%m/%Y` accepts, with any whitespace around it, gives the ISO text of that day |
| EtlText.ParseDateRoundTrip | etl_expedientes.py:70-77 | a day written as `DD/MM/YYYY` is parsed back as the same day |
| EtlText.ParseDateRejectsOtherChars | etl_expedientes.py:70-77 | a text holding any character other than a digit, a slash or whitespace gives the empty text |
| EtlText.CleanText | etl_expedientes.py:79-83 | the result is `None` exactly when the input is `None` or all whitespace |
| EtlText.CleanTextCollapsed | etl_expedientes.py:79-83 | a cleaned text has single spaces between words, none at the ends, and the same words as the input |
| EtlText.CleanTextIdempotent | etl_expedientes.py:79-83 | cleaning a cleaned text changes nothing |
| EtlText.CleanTextFixes | etl_expedientes.py:79-83 | a text that is already collapsed is its own cleaning |
| EtlText.InferForum | etl_expedientes.py:87-91 | the result is "Desconocido" or one of the six forums; a blank but non-empty number is excluded because `split()[0]` raises on it |
| EtlText.InferForumKnown | etl_expedientes.py:87-91 | the forum is known exactly when the upper-cased first word of the number is a code in the table |
| EtlText.InferJurisdiction | etl_expedientes.py:93-98 | "Federal" exactly when the upper-cased filing text contains "FEDERAL", otherwise "Nacional", also for an absent or empty text |
| EtlText.FederalAnyCase | etl_expedientes.py:93-98 | "federal" in any letter case anywhere in the text makes it federal |
| EtlText.WordRun | etl_expedientes.py:102 | `\w+` taken greedily: the longest prefix of word characters |
| EtlText.MatchCaseNumber | etl_expedientes.py:102 | `re.match(r"(\w+)\s+\d+/(\d{4})")`: the text matches exactly when it starts with a word-character code, a run of whitespace, digits, "/" and four digits; the match gives that code and the value of those four digits |
| EtlText.MatchYear | etl_expedientes.py:102 | the tail `\d+/(\d{4})` matches exactly when the text starts with digits, "/" and four digits, and gives the value of those four digits, below 10000 |
| EtlText.ExtractChamberAndYear | etl_expedientes.py:100-108 | an empty number or one that does not match gives ("Desconocida", None); one that matches gives the chamber `CAMARAS` lists for its upper-cased code, else "Desconocida", and `int(anio)` of its four year digits |
| EtlText.ChamberKnown | etl_expedientes.py:100-108 | the chamber is known exactly when the number matches the pattern and its upper-cased code is in CAMARAS |
| EtlText.CaseNumberRoundTrip | etl_expedientes.py:100-108 | a number built as code, any whitespace run, digits, "/", a four-digit year and any tail gives back the chamber of its code and its year |
| EtlText.MatchOfParts | etl_expedientes.py:102 | the pattern splits code, any whitespace run, digits, "/" and a four-digit year back into the code and the year |
| EtlText.MatchComplete | etl_expedientes.py:102 | every way of reading the text as code, whitespace, digits, "/" and year gives the longest word run as the code, the whole whitespace run, and the year the tail match yields |
| EtlText.CodeSpaceParts | etl_expedientes.py:102 | a word run and a whitespace run followed by a year part make the whole text a match of the pattern |
| EtlText.YearPartsOf | etl_expedientes.py:102 | a digit run followed by "/" and four digits is a match of the tail `\d+/(\d{4})` |
| EtlText.ChamberImpliesForum | etl_expedientes.py:87-108 | whenever the chamber is recognised, so is the forum |
| EtlText.FirstWordIsCode | etl_expedientes.py:89 | the code the pattern matches is the first word `split()[0]` of the number |
| EtlText.FilingParts | etl_expedientes.py:114 | the parts are the `|`-separated pieces of the text, each stripped, and there is at least one |
| EtlText.AfterColon | etl_expedientes.py:121 | `p.split(":", 1)[-1].strip()` has no whitespace at its ends |
| EtlText.SplitFiling | etl_expedientes.py:110-124 | desarmar_radicacion: date and court are the first two parts, and prosecutor and office are what the loop over the later parts leaves |
| EtlText.ReadStaff | etl_expedientes.py:117-123 | the loop over `partes[2:]` computes the left fold in which a later part overwrites an earlier one |
| EtlText.StaffLastProsecutor | etl_expedientes.py:119-121 | the prosecutor is the text after the colon of the last part starting with "FISCAL:" in any case |
| EtlText.StaffNoProsecutor | etl_expedientes.py:117-121 | without such a part the prosecutor is empty |
| EtlText.StaffLastOffice | etl_expedientes.py:122-123 | the office comes from the last part starting with FISCALIA or FISCALÍA that is not a prosecutor part |
| EtlText.StaffNoOffice | etl_expedientes.py:117-123 | without such a part the office is empty |
| EtlText.UnknownNotForum | etl_expedientes.py:87-91 | "Desconocido" is not one of the six forums, so an unknown forum can never be taken for a known one |
| EtlText.TableValues | etl_expedientes.py:12-52 | every forum in the chamber table is one of the six, and no chamber is named "Desconocida" |
| EtlText.ChamberOfMatch | etl_expedientes.py:103-106 | the chamber is the one the table gives the upper-cased matched code, or "Desconocida" |
| EtlText.ForumOfFirstWord | etl_expedientes.py:89-91 | a number whose upper-cased first word is a known code has that code's forum |
| EtlCases.NormalizeCaseFacts | etl_expedientes.py:141-168 | every normalised row has the given state, collapsed number and court, empty-or-ISO dates, a known forum or "Desconocido" (a known one when the chamber is known), "Desconocida" without a year, and a Federal or Nacional jurisdiction |
| EtlCases.NormalizeAll | etl_expedientes.py:139-171 | one record per CSV row, each carrying the reader's state id |
| EtlCases.ProcessCaseReader | etl_expedientes.py:139-171 | procesar_reader appends the normalised rows in order and counts them |
| EtlCases.ProcesarExpedientes | etl_expedientes.py:130-199 | in-progress rows (state 1) first, then finished ones (state 2); a row has state 1 exactly when it comes from the first file; a missing file contributes no rows |
| EtlCases.Process | etl_expedientes.py:282-297 | `process(reader)` appends what the de-duplication fold keeps and records the kept keys in `seen` |
| EtlCases.DedupRows | etl_expedientes.py:283-297 | the row loop computes the de-duplication fold for any way of computing a row's key |
| EtlCases.DedupSnoc | etl_expedientes.py:289-297 | one more row is kept exactly when it has a case number and its key is new |
| EtlCases.DedupSound | etl_expedientes.py:282-297 | kept rows have a case number and distinct keys that were not seen before, and `seen` grows by exactly their keys |
| EtlCases.DedupComplete | etl_expedientes.py:282-297 | every row with a case number ends up with its key in `seen`, so none is lost |
| EtlCases.ProcesarResoluciones | etl_expedientes.py:272-317 | the in-progress file then the finished one, sharing one `seen` set; each counter is the number of new rows that file contributed |
| EtlCases.ResolutionsDistinct | etl_expedientes.py:272-317 | the combined table has no two rows with the same `(expediente, fecha, nombre, link)` key |
| EtlCases.NonEmpty | etl_expedientes.py:369 | `[v for v in values if v]` keeps exactly the non-empty values |
| EtlCases.DimForums | etl_expedientes.py:367-375 | with no case rows the column is missing and `.tolist()` raises AttributeError (None); otherwise one row per distinct non-empty forum, ids 1, 2, … in string order, and every case's forum has a row |
| EtlCases.DimJurisdictions | etl_expedientes.py:377-391 | with no case rows `.tolist()` raises AttributeError (None); otherwise one row per distinct non-empty jurisdiction, ids 1, 2, … in string order, no province, district "Comodoro Py" |
| EtlCourts.FieldReadings | etl_expedientes.py:439-441 | `get(row, key)` as written and as intended agree on every cell holding text; on an empty (NaN) cell the code yields "nan" where `None` is meant |
| EtlCourts.NaNPhoneAsWritten | etl_expedientes.py:439-461 | as written, an empty phone cell of a directory row gives the contact "Tel: nan" |
| EtlCourts.NaNPhoneCorrected | etl_expedientes.py:439-461 | with an empty cell read as missing, it adds nothing to the contact, and a row with neither phone nor e-mail leaves the contact unset |
| EtlCourts.ContactOf | etl_expedientes.py:458 | the contact is empty exactly when there is neither phone nor e-mail, and is "Tel: …", "Email: …" or both joined by " \| " |
| EtlCourts.InsertFacts | etl_expedientes.py:398-461 | one update keeps the dictionary well formed, adds at most the row's non-empty name, and leaves every other court as it was |
| EtlCourts.InsertAllKeys | etl_expedientes.py:398-461 | after the updates the keys are the old keys and the non-empty names of the rows |
| EtlCourts.InsertAllValid | etl_expedientes.py:398-461 | the updates keep every key listed and every court filed under its own name |
| EtlCourts.InsertAllOthers | etl_expedientes.py:398-461 | rows naming other courts leave a court as it is |
| EtlCourts.InsertAllKeepsFields | etl_expedientes.py:402-445 | once a court exists, later rows change only its contact |
| EtlCourts.FirstRowWins | etl_expedientes.py:402-453 | the first row naming a new court decides all of its fields but the contact |
| EtlCourts.InsertAllAbsent | etl_expedientes.py:398-461 | a name no row mentions stays absent |
| EtlCourts.LastContactWins | etl_expedientes.py:458-461 | the contact of a court is the last non-empty contact among the rows that name it |
| EtlCourts.NoContactKept | etl_expedientes.py:460-461 | a court that no row gives a contact keeps the one it had |
| EtlCourts.InsertAllNoNew | etl_expedientes.py:407-461 | a court that gets no contact from any row ends without one if it had none |
| EtlCourts.CaseCourtsHaveNoContact | etl_expedientes.py:396-410 | the courts the cases name carry no contact |
| EtlCourts.CourtsOfKeys | etl_expedientes.py:393-461 | the courts are exactly the cleaned court names of the cases and the non-empty names of the directory rows as the code reads them, an empty name cell giving the court "nan" |
| EtlCourts.CaseCourtFields | etl_expedientes.py:402-445 | a court first named by a case is a "Primera Instancia" court with that case's forum and jurisdiction, whatever the directory says besides its contact |
| EtlCourts.DirectoryCourtFields | etl_expedientes.py:445-453 | a court only the directory names takes the seat, forum and jurisdiction of its first row there as the code reads them (an empty cell gives "nan"), its instance cell when that reads as non-empty text, and "N/D" otherwise |
| EtlCourts.CourtContact | etl_expedientes.py:455-461 | a court's contact is the one its last directory row with a phone or e-mail gives, an empty cell counting as the text "nan", and none when no such row names it |
| EtlCourts.CourtNoContact | etl_expedientes.py:455-461 | a court none of whose directory rows builds a contact, with cells read as written (an empty cell reads as "nan" and so builds one), has no contact |
| EtlCourts.CourtLastContact | etl_expedientes.py:455-461 | a court's contact comes from its last directory row that has a phone or e-mail cell, empty cells included, as the code reads them |
| EtlCourts.JurisdictionIdsOfDim | etl_expedientes.py:473-477 | read over the table generar_dim_jurisdicciones writes, `juris_map` gives each scope the id of its own row |
| EtlCourts.JurisdictionIdOf | etl_expedientes.py:487-488 | a court's jurisdiction id is its scope's id, or the id of "Federal" when it has no scope; when that name is not in `juris_map` the id is 1 |
| EtlCourts.SortedNames | etl_expedientes.py:465 | `sorted(tribunales.keys())` is strictly increasing and lists exactly the courts |
| EtlCourts.CourtTableRows | etl_expedientes.py:465-498 | row i is the court of the i-th sorted name with id i + 1, the same id `nombre_to_id` gives that name |
| EtlCourts.CourtTableOrder | etl_expedientes.py:465-498 | the rows follow the name order and every court has one |
| EtlCourts.CourtTableAt | etl_expedientes.py:485-498 | the table has one row per sorted name, each built from that name's court |
| EtlCourts.AddCaseCourts | etl_expedientes.py:396-410 | the first loop performs one dictionary update per case |
| EtlCourts.AddDirectoryCourts | etl_expedientes.py:443-461 | the second loop performs one dictionary update per directory row, each cell read as written |
| EtlCourts.ReadJurisdictionIds | etl_expedientes.py:473-477 | reading etl_jurisdicciones.csv builds `juris_map`, a later row overwriting an earlier one |
| EtlCourts.WriteCourtTable | etl_expedientes.py:479-498 | the output loop writes the court table in sorted name order |
| EtlCourts.GenerarDimTribunales | etl_expedientes.py:393-500 | the dictionary both loops build, with directory cells read as written, is well formed, the table is written in name order, and the returned ids number the sorted names from 1; a missing directory file contributes no rows |
| EtlCourts.PhoneOnly | etl_expedientes.py:458-461 | a row with a phone and no e-mail gives the contact "Tel: " and the phone |
| EtlCourts.NanIsClean | etl_expedientes.py:79-83 | `limpiar_texto` keeps the text "nan", so the as-written cell reading survives cleaning |
| EtlCourts.NaNCellsAsWritten | etl_expedientes.py:439-461 | as written, an empty name, instance or seat cell becomes the text "nan", and empty phone and e-mail cells give the contact "Tel: nan \| Email: nan" |
| EtlCourts.NaNCellsCorrected | etl_expedientes.py:439-461 | read as missing, an empty name cell adds no court, an empty instance gives "N/D", an empty seat none and empty phone and e-mail no contact; on rows without empty cells both readings agree |
| EtlCourts.NaNCourtAsWritten | etl_expedientes.py:443-453 | a directory row with an empty name cell puts a court "nan" in the dictionary |
| Responsables.PrefixCIAt | etl_expedientes.py:550-554 | under `re.I`, a label that matches fixes every character of it that has no case, such as the colon |
| Responsables.SpaceRun | etl_expedientes.py:550 | `\s*` takes the longest whitespace run |
| Responsables.PipeRun | etl_expedientes.py:550 | `[^|]+` takes the longest run without a bar, which ends at a bar or at the end |
| Responsables.Group | etl_expedientes.py:550-554 | the captured group is non-empty and holds no bar |
| Responsables.FirstLabel | etl_expedientes.py:553 | the first alternative that matches at a position, or none exactly when no alternative matches there |
| Responsables.MatchGroup | etl_expedientes.py:550-554 | a group is captured at a position exactly when some alternative matches there |
| Responsables.SearchNone | etl_expedientes.py:550-555 | `re.search` finds nothing exactly when no alternative matches at any position |
| Responsables.SearchLeftmost | etl_expedientes.py:550-555 | a successful search returns the group of the leftmost match |
| Responsables.ColonOfMatch | etl_expedientes.py:550-554 | a label ending in a colon only matches where the text has that colon |
| Responsables.CapturedClean | etl_expedientes.py:555-562 | every captured field is a cleaned text: non-empty, trimmed and single-spaced |
| Responsables.MagistrateOfName | etl_expedientes.py:550-556 | a block yields a magistrate exactly when the name pattern matches with a non-blank group, and the name is then a cleaned text |
| Responsables.Pieces | etl_expedientes.py:547 | `re.split(r";|\n", texto)` gives at least one piece, and no piece holds a separator |
| Responsables.PiecesNone | etl_expedientes.py:547 | a text without separators is one piece |
| Responsables.PiecesSplit | etl_expedientes.py:547 | a separator ends a piece: `a`, a separator, then `b` gives `a` followed by the pieces of `b` |
| Responsables.Blocks | etl_expedientes.py:547 | the blocks are stripped and non-empty, and there are no more of them than pieces |
| Responsables.MagistratesOfBlocksNames | etl_expedientes.py:549-563 | every magistrate comes from a block of the text and has a cleaned, non-empty name |
| Responsables.ParseResponsables | etl_expedientes.py:544-564 | a blank text gives no magistrates; otherwise the result is the magistrates of its blocks, in block order |
| Responsables.ReadBlocks | etl_expedientes.py:548-564 | the loop over the blocks appends a magistrate for each block with a non-blank name |
| Responsables.NameRoundTrip | etl_expedientes.py:544-564 | the text "Nombre: " followed by a cleaned name without colons, bars or separators reads back as that magistrate alone, with no other field |
| Responsables.NameBlockIsOneBlock | etl_expedientes.py:545-547 | such a text is not blank and is a single block |
| Responsables.NameBlockMagistrate | etl_expedientes.py:550-563 | such a block describes exactly that magistrate |
| Responsables.NameOfBlock | etl_expedientes.py:550-555 | the name pattern captures the name of such a block |
| Responsables.NoOtherField | etl_expedientes.py:551-554 | a pattern whose label cannot end at the block's only colon captures nothing |
| Responsables.OtherLabelsMiss | etl_expedientes.py:551-554 | in a block that opens with "Nombre: ", none of the role, e-mail, phone or status labels can end at the colon in position 6 |
| Responsables.NameBlockPrefix | etl_expedientes.py:550 | a block "Nombre: " plus a name opens with the name label and one space before the name |
| EtlJudges.Apply | etl_expedientes.py:579-599 | a field a row does not touch keeps its value, and a fill-if-empty update never replaces a value that is set |
| EtlJudges.RecordFacts | etl_expedientes.py:579-601 | one mention keeps the dictionary well formed, adds its judge and its relation, and leaves every other judge as it was |
| EtlJudges.RecordAllFacts | etl_expedientes.py:569-601 | after the loop the judges are exactly the mentioned ones and the relations exactly the recorded ones, and every relation names a judge |
| EtlJudges.RecordAllValid | etl_expedientes.py:569-601 | the loop keeps every judge listed and every relation pointing at a judge |
| EtlJudges.RecordAllKeys | etl_expedientes.py:579-594 | after the loop the judges are the old ones and the mentioned ones, and no others |
| EtlJudges.RecordAllRelations | etl_expedientes.py:586-601 | after the loop the relations are the old ones and those the mentions add, and no others |
| EtlJudges.ListedKeepsContact | etl_expedientes.py:594-599 | a "responsables" mention never replaces a contact field that is already set, and fills an empty one only with a non-empty value |
| EtlJudges.ListedRunKeepsContact | etl_expedientes.py:594-599 | over any run of "responsables" mentions, an e-mail that is set stays as it is |
| EtlJudges.ExplicitOverwrites | etl_expedientes.py:577-584 | a judge-column mention sets a field whose cell holds text, to `None` when that text is blank, and keeps the field otherwise |
| EtlJudges.ListedNewJudge | etl_expedientes.py:594 | a judge first seen in a "responsables" text starts with that text's contact |
| EtlJudges.ListedMentions | etl_expedientes.py:590-601 | one mention per magistrate of the text |
| EtlJudges.MentionsWellFormed | etl_expedientes.py:569-601 | every mention's relation names its own non-empty judge at a court of the court dimension |
| EtlJudges.RowMentionsWellFormed | etl_expedientes.py:570-601 | the mentions of one row are well formed, whichever of the two cases applies |
| EtlJudges.JudgesOfRelations | etl_expedientes.py:569-601 | every relation links a court of the court dimension to a non-empty judge of the judge table |
| EtlJudges.MagistratesNames | etl_expedientes.py:555-556 | every magistrate read from a "responsables" text has a cleaned name |
| EtlJudges.StatusOr | etl_expedientes.py:630 | `situacion or "Efectivo"` is never empty and is the status when that is set |
| EtlJudges.RelationRowsResolve | etl_expedientes.py:624-631 | when the relation file is written, every row carries a judge id that the judge table lists, and a non-empty status |
| EtlJudges.JudgeTableFacts | etl_expedientes.py:604-618 | the judge table lists every judge once, in name order, numbered from 1, with its contact |
| EtlJudges.RecordRow | etl_expedientes.py:569-601 | the body of the row loop records the row's mentions in order |
| EtlJudges.RecordMentions | etl_expedientes.py:590-601 | the loop over the magistrates of a row performs one dictionary update per mention, in order |
| EtlJudges.ReadJudges | etl_expedientes.py:569-601 | the loop over the rows leaves the dictionary and the relation set that recording all the rows' mentions gives |
| EtlJudges.RecordAllAppend | etl_expedientes.py:569-601 | recording two runs of mentions one after the other is recording their concatenation |
| EtlJudges.NaNCourtCellAsWritten | etl_expedientes.py:569-573 | a row whose court cell is empty is read as the court "nan": it is skipped unless the court dimension has a court "nan", and otherwise recorded at that court |
| EtlJudges.CompareOptions | etl_expedientes.py:625 | two `cargo` or `situacion` values are equal only when they are, fail to compare exactly when they differ and one is None, and come first only as the lesser text |
| EtlJudges.CompareFlip | etl_expedientes.py:625 | comparing relation tuples the other way round swaps before and after, and only a tuple equals itself |
| EtlJudges.CompareTransitive | etl_expedientes.py:625 | tuple order is transitive |
| EtlJudges.LeastExists | etl_expedientes.py:625 | a non-empty set of relations any two of which compare has a least one |
| EtlJudges.SortedRelations | etl_expedientes.py:625 | `sorted(relaciones)`, when it raises nothing, lists every relation once, in strictly increasing tuple order |
| EtlJudges.InOrderUnique | etl_expedientes.py:625 | there is only one strictly increasing listing of a set of relations |
| EtlJudges.SortRelations | etl_expedientes.py:625 | sorting fails exactly when two relations meet at a None against a text, and otherwise gives the one increasing listing |
| EtlJudges.RelationFileFails | etl_expedientes.py:621-631 | etl_tribunal_juez.csv gets no rows exactly when two relations meet at a None against a text |
| EtlJudges.RelationFileAt | etl_expedientes.py:621-631 | otherwise it has one row per relation, row i built from the i-th relation in tuple order |
| EtlJudges.RelationFileOrder | etl_expedientes.py:625 | its rows come in non-decreasing court id |
| EtlJudges.RelationFileComplete | etl_expedientes.py:621-631 | every relation has its row |
| EtlJudges.RoleAgainstNone | etl_expedientes.py:584-601 | a judge recorded at one court once without a role and once with one makes the sort raise TypeError |
| EtlJudges.WriteRelations | etl_expedientes.py:621-631 | writing the relation file sorts the relations and maps each to its row, or fails with TypeError |
| EtlJudges.ProcesarJueces | etl_expedientes.py:506-632 | a missing or empty directory returns before any file is written; otherwise the loop over the rows builds a well-formed dictionary, the judge table is written from it, and the relation file is its relations in tuple order or, when `sorted` raises TypeError, no rows |
| Html.StripEach | scraper_completas.py:203-206 | `[t.strip() for t in ts]` strips every text in place |
| Html.GetTextTrimmed | scraper_completas.py:140-145 | what `get_text(strip=True)` returns never starts or ends with whitespace |
| Html.ConcatTrimmed | scraper_completas.py:145 | joining texts trimmed at their ends gives a text trimmed at its ends |
| Html.WalkElements | scraper_completas.py:132 | a walk of the tree visits only elements |
| Html.FilterFacts | scraper_completas.py:170-202 | `select` keeps exactly the matching elements, and its first result is the first match in document order |
| Html.FilterMembers | scraper_completas.py:170-202 | an element is selected exactly when it is below the scope and matches |
| Html.FilterFirst | scraper_completas.py:152-157 | the first selected element is preceded by no match |
| Html.SelectOneFirst | scraper_completas.py:149-157 | `select_one` gives the first match in document order, and `None` exactly when nothing below the scope matches |
| Html.PruneRemovesToggles | scraper_completas.py:131-133 | after the toggle controls are decomposed, none is left inside any list item |
| Html.PruneKeepsClean | scraper_completas.py:131-133 | removing toggle controls from a tree that has none inside its list items leaves it as it is |
| Html.PruneIdempotent | scraper_completas.py:131-133 | removing the toggle controls twice is removing them once |
| Html.ReplaceAtAt | scraper_completas.py:133 | after an in-place replacement the new node sits where the old one was |
| Html.WalkAt | scraper_completas.py:124 | a walk finds every element at the path it reports |
| Html.PruneBlockFacts | scraper_completas.py:124-133 | the pruned block holds the pruned info list where the original was, and no toggle control is left in its items |
| BlockParser.Entries | scraper_completas.py:135-146 | one entry per info item: none for an item without a `span`, otherwise its key and value |
| BlockParser.FieldsOfKeys | scraper_completas.py:135-146 | a key is in `datos` exactly when some labelled item gave it |
| BlockParser.FieldsOfLastWins | scraper_completas.py:143-146 | a later item with the same key overwrites an earlier one, so the last value given is kept |
| BlockParser.InfoKeysHaveNoColon | scraper_completas.py:140 | no key read from a caption holds a colon |
| BlockParser.ReadFields | scraper_completas.py:135-146 | the loop over `info_items` fills `datos` with the entries in order |
| BlockParser.WithDefaultsFacts | scraper_completas.py:248-254 | after `setdefault` every key of interest is present, values already there are kept, added keys map to "", and no other key is added |
| BlockParser.SetDefaults | scraper_completas.py:253-254 | the loop over `claves_interes` performs the `setdefault`s in order |
| BlockParser.FilingAtTrimmed | scraper_completas.py:154-183 | every position of a scraped filing entry is a stripped text, "" when the position is missing |
| BlockParser.Numbered | scraper_completas.py:172-185 | one history entry per panel entry, numbered in document order |
| BlockParser.FilingsNumbered | scraper_completas.py:149-185 | the `orden` numbers are consecutive; they start at 1 exactly when the first-item entry is present, and at 2 otherwise |
| BlockParser.NumberedAfter | scraper_completas.py:160-172 | an optional entry numbered 1 followed by entries numbered from 2 gives a consecutive numbering |
| BlockParser.ReadHistory | scraper_completas.py:172-185 | the loop over the history panel appends its entries numbered from 2 |
| BlockParser.ReadFilings | scraper_completas.py:149-185 | the first entry, then the history panel |
| BlockParser.SplitFour | scraper_completas.py:189 | four bar-free parts joined by bars split back into the same four parts |
| BlockParser.SummarySplit | scraper_completas.py:189 | when no position holds a bar, the summary has exactly three separators and splits into one part per position |
| BlockParser.FilingDateCourt | etl_expedientes.py:114-116 | the date and court of a filing string are its first two parts, stripped |
| BlockParser.SummaryRoundTrip | scraper_completas.py:189 | the ETL reading the summary written by the scraper gets back its date and court |
| BlockParser.FirstRoleFromFacts | scraper_completas.py:217-224 | the search from a role on finds the first role word the title contains, and none when it contains none |
| BlockParser.RoleOfFirstMatch | scraper_completas.py:199-224 | a section goes to the first of IMPUTADO, DENUNCIADO, DENUNCIANTE, QUERELLANTE its upper-cased title contains, and to none when it contains none |
| BlockParser.NonBlank | scraper_completas.py:203-207 | every kept text piece is non-empty |
| BlockParser.NonBlankTrimmed | scraper_completas.py:203-207 | every kept text piece is non-empty and stripped |
| BlockParser.NonBlankEmpty | scraper_completas.py:203-207 | nothing is kept exactly when every piece is blank |
| BlockParser.JoinTrimmed | scraper_completas.py:208 | joining non-empty stripped pieces by spaces gives a stripped text, empty only when there are no pieces |
| BlockParser.PartyNameFacts | scraper_completas.py:203-208 | a party name has no whitespace at its ends, and is empty exactly when all of the item's own text nodes are blank |
| BlockParser.Parties | scraper_completas.py:202-215 | one party per `ul li` item |
| BlockParser.ReadSection | scraper_completas.py:196-215 | the loop over a section's items reads its role and parties, and nothing for a section without a title |
| BlockParser.NoParties | scraper_completas.py:126 | the four role lists start empty |
| BlockParser.AddSection | scraper_completas.py:217-224 | `extend` of the role list the section selects keeps four lists |
| BlockParser.RolesOfPartition | scraper_completas.py:192-224 | each role list holds exactly the parties of the sections that select that role, in order, so a section's parties reach one list at most |
| BlockParser.ReadRoles | scraper_completas.py:192-224 | the loop over the intervener sections fills the role lists |
| BlockParser.ResolutionOfFacts | scraper_completas.py:230-245 | an empty text gives no resolution; a text with a colon is split at its first colon into a stripped date and name; one without has no date and the whole text as its name; the link is stripped |
| BlockParser.StripSubstring | scraper_completas.py:237-238 | stripping adds no character, so a date cut before the first colon holds none |
| BlockParser.ReadResolutions | scraper_completas.py:227-245 | the loop over the resolution links keeps a resolution for every link with a non-empty text, in order |
| BlockParser.ParseBlockFacts | scraper_completas.py:122-263 | the parsed map holds every key of interest and no key beyond those and the labels read; the filing field is the first entry's summary when the history is non-empty and "" when there is no history and no such label; there are four role lists |
| BlockParser.ProcesarBloque | scraper_completas.py:122-263 | `procesar_bloque` removes the toggle controls, then reads fields, filings, roles and resolutions, and fills the defaults |
| Pages.VisitedFacts | scraper_completas.py:28-112 | the loop processes a prefix of the pages: every page processed has blocks, every one but the last leads on, and it stops early only at a page without blocks or after one whose "next" control does not lead on |
| Pages.ProcessedCons | scraper_completas.py:62-108 | a page with blocks that leads on, followed by a processed prefix, is itself a processed prefix |
| Pages.AllBlocksAppend | scraper_completas.py:60-67 | the blocks of two runs of pages are the blocks of the first then those of the second |
| Pages.PageInRun | scraper_completas.py:60-67 | every block of a processed page is offered to the loop |
| Pages.AdmitAllAppend | scraper_completas.py:67-73 | admitting two sequences of records is admitting the first, then the second from the state it left |
| Pages.AdmitAllSeen | scraper_completas.py:69-73 | afterwards `vistos` holds the keys held before and the key of every record offered, and nothing else |
| Pages.AdmitAllFacts | scraper_completas.py:69-73 | the records held before are kept in front; each record appended has a key that was not seen before; no two appended records share a key |
| Pages.AdmitAllFirst | scraper_completas.py:69-73 | each record appended is the first record offered with its key |
| Pages.AdmitAllComplete | scraper_completas.py:69-73 | every record offered with a key not seen before has that key appended |
| Pages.AdmitAllOut | scraper_completas.py:69-73 | every key added to `vistos` belongs to an appended record |
| Pages.Records | scraper_completas.py:67-68 | one parsed record per block |
| Pages.RecordsAt | scraper_completas.py:67-68 | the record at a position is the parse of the block at that position |
| Pages.RecordsAppend | scraper_completas.py:67-68 | parsing two runs of blocks is parsing the first, then the second |
| Pages.ParsableAppend | scraper_completas.py:67-68 | blocks the parser accepts stay accepted when put together |
| Pages.RunFacts | scraper_completas.py:28-112 | a run keeps the records held before, then records whose keys are present, new and distinct, each the parse of the first processed block with that key, and one for every new key a processed block offers |
| Pages.RunStep | scraper_completas.py:60-73 | processing page `i` extends the run over the earlier pages by that page's blocks |
| Pages.AdmitBlocks | scraper_completas.py:67-73 | the loop over one page's blocks admits their parses in order through `vistos` |
| Pages.ProcessPage | scraper_completas.py:60-73 | one turn of the page loop admits the blocks of page `i` after those of the pages before |
| Pages.RunPages | 6_scrapper_con_db.py:45-124 | the page loop of `scrape_tab`, which waits for results only before its first turn, leaves `vistos` and the results as the run over the processed pages defines them |
| Pages.InsideRun | scraper_completas.py:62-108 | a page with blocks reached after pages that all lead on is processed |
| Pages.StopsAtEnd | 6_scrapper_con_db.py:52-54 | the loop of `scrape_tab` ends at a page without blocks |
| Pages.StopsAfter | scraper_completas.py:79-112 | the loop ends after a page whose "next" control does not lead on |
| Pages.BlankPageReachedFacts | scraper_completas.py:28-112 | the loop comes to a page without blocks exactly when it does not end after a page whose "next" control does not lead on |
| Pages.RunPagesWaiting | scraper_completas.py:28-117 | with `wait_for_selector` at the top of every turn, a page without blocks raises TimeoutError and the run ends without its results reaching the export (`None`); otherwise the loop ends after a page that does not lead on, with the run over the processed pages |
| CaseRuns.TaggedKey | scraper_completas.py:69-71 | the tag sets `Estado_General` to "TERMINADA" and keeps every other field, so the case key is the same before and after tagging |
| CaseRuns.RunTerminadas | scraper_completas.py:27-117 | the finished-cases loop aborts before `exportar_resultados` when it comes to a page without blocks, and otherwise returns the run of its tagged parses from an empty `vistos` |
| CaseRuns.RunCompleto | 5_scraper_completo.py:16-205 | the listing loop aborts before the export when it comes to a page without blocks, and otherwise returns the run of its parses from an empty `vistos` |
| CaseRuns.RunKeysDistinct | scraper_completas.py:69-73 | every kept record has a non-empty `Expediente`, and no two kept records share one |
| CaseRuns.RunKeepsFirsts | scraper_completas.py:69-73 | each kept record is the parse of the first processed block with its case number |
| CaseRuns.RunKeepsEvery | scraper_completas.py:69-73 | every processed block with a non-empty case number has a kept record with that number |
| CaseRuns.TerminadasTagged | scraper_completas.py:71 | every record the finished-cases run keeps is tagged "TERMINADA" |
| CaseExport.ConcatFacts | scraper_completas.py:290-325 | writing piece after piece gives every piece's rows and nothing else, as many rows as the pieces hold together |
| CaseExport.TotalLengthSame | scraper_completas.py:303-325 | pieces of equal lengths give files of equal lengths |
| CaseExport.CaseRows | scraper_completas.py:279-284 | one row per record |
| CaseExport.RunCaseRows | scraper_completas.py:274-284 | the case file of a run has one row per kept record; each row has one cell per column, and its first cell is the record's case number, non-empty and different from every other row's |
| CaseExport.WriteCases | scraper_completas.py:279-284 | the `DictWriter` loop writes `r.get(k, "")` for each column of each record |
| CaseExport.RoleLabels | scraper_completas.py:291-297 | the labels written for the four role lists are Imputado, Denunciado, Denunciante and Querellante |
| CaseExport.LowerOfLowercase | scraper_completas.py:295 | `capitalize` leaves the tail of a lower-case ASCII word as it is |
| CaseExport.ImputadoLabel | scraper_completas.py:295 | `"imputados"[:-1].capitalize()` is "Imputado" |
| CaseExport.DenunciadoLabel | scraper_completas.py:295 | `"denunciados"[:-1].capitalize()` is "Denunciado" |
| CaseExport.DenuncianteLabel | scraper_completas.py:295 | `"denunciantes"[:-1].capitalize()` is "Denunciante" |
| CaseExport.QuerellanteLabel | scraper_completas.py:295 | `"querellantes"[:-1].capitalize()` is "Querellante" |
| CaseExport.PartyRowsFacts | scraper_completas.py:292-297 | a party with k > 0 counsel gives k rows, one per counsel in order; a party with none gives exactly one row, with an empty counsel |
| CaseExport.WritePartyRows | scraper_completas.py:293-297 | the loop over a party's counsel writes its rows |
| CaseExport.RoleRowsFacts | scraper_completas.py:292-297 | a role list's rows are exactly the rows of its parties, under the role's label |
| CaseExport.RecordPartyRowsFacts | scraper_completas.py:291-297 | a record's party rows are exactly the rows of its four role lists, and a missing list gives none |
| CaseExport.WriteRole | scraper_completas.py:292-297 | the loop over one role's parties writes their rows in order |
| CaseExport.WriteRecordParties | scraper_completas.py:291-297 | the loop over the four roles writes the record's party rows |
| CaseExport.PartyExportFacts | scraper_completas.py:286-297 | a row is in the interveners file exactly when it is a party row of some record |
| CaseExport.WriteParties | scraper_completas.py:290-297 | the loop over the records writes the interveners file |
| CaseExport.ResolutionPiecesAt | scraper_completas.py:303-310 | record `i` contributes one row per resolution, in order, under its case number |
| CaseExport.FilingPiecesAt | scraper_completas.py:316-325 | record `i` contributes one row per filing entry, in order, under its case number |
| CaseExport.ResolutionExportFacts | scraper_completas.py:299-310 | one row per stored resolution: the file is as long as all resolution lists together, and a row is in it exactly when it is some record's resolution under that record's case number |
| CaseExport.FilingExportFacts | scraper_completas.py:312-325 | one row per filing entry of each record, carrying its `orden`, and no other row |
| CaseExport.WriteResolutions | scraper_completas.py:303-310 | the loop writes the resolutions file |
| CaseExport.WriteFilings | scraper_completas.py:316-325 | the loop writes the filing-history file |
| CaseExport.RunExportable | scraper_completas.py:69-73 | every record a run keeps has the case number the export reads with `r["Expediente"]` |
| CaseExport.ExportarResultados | scraper_completas.py:266-325 | nothing is written for an empty result list; otherwise the four files as the functions above define them |
| RolesScraper.Parts | 4_1_scraper_roles.py:55-60 | four positions t1a ... t4a, each found or not |
| RolesScraper.PresentFacts | 4_1_scraper_roles.py:61 | the texts kept are exactly those of the positions found: a missing position is dropped, not written as an empty text; with all found they are all kept in order, and with none nothing is kept |
| RolesScraper.Join4 | 4_1_scraper_roles.py:61 | joining four texts puts the separator between each pair |
| RolesScraper.AllPresent | 4_1_scraper_roles.py:61 | with all four positions found, all four texts are kept in order |
| RolesScraper.CompleteSummary | 4_1_scraper_roles.py:53-61 | with all four positions found, the summary is the one the full parser writes |
| RolesScraper.SplitBars | 4_1_scraper_roles.py:61 | bar-free texts joined by " \| " split back at "\|" into one part per text |
| RolesScraper.PresentSummaryParts | 4_1_scraper_roles.py:61 | when no position holds a bar, the summary splits into exactly one part per position found, and it is empty when none is found |
| RolesScraper.ItemTexts | 4_1_scraper_roles.py:103-105 | the stripped text of each resolution item, in order |
| RolesScraper.NonEmptyFacts | 4_1_scraper_roles.py:106-107 | a text is kept exactly when it is one of the texts and is non-empty |
| RolesScraper.RawTextsFacts | 4_1_scraper_roles.py:101-107 | a resolution is kept exactly when it is some item's whole stripped text and is non-empty; nothing is split at a colon, and every kept text is stripped |
| RolesScraper.ReadRawResolutions | 4_1_scraper_roles.py:103-107 | the loop over the resolution items keeps those texts in order |
| RolesScraper.ParseRolesFacts | 4_1_scraper_roles.py:30-116 | the record holds every key of interest; its filing field is the present-positions summary when there is a first filing box; it reads the same role lists as the full parser, and every other field as the full parser does |
| RolesScraper.ProcesarBloqueRoles | 4_1_scraper_roles.py:30-116 | the block loop's steps, toggles removed first, give the parse of the block |
| RolesScraper.RunRoles | 4_1_scraper_roles.py:17-142 | the page loop aborts before the export when it comes to a page without blocks, and otherwise returns the run of its parses from an empty `vistos` |
| RolesScraper.RolesRunKeeps | 4_1_scraper_roles.py:118-126 | kept records have distinct, non-empty case numbers; each is the parse of the first processed block with its number; every processed block with a non-empty number has its number kept |
| RolesScraper.AllAsParsed | 4_1_scraper_roles.py:152-167 | one record for the shared case and party exports per record |
| RolesScraper.TextExportFacts | 4_1_scraper_roles.py:170-175 | one (Expediente, text) row per stored resolution: the file is as long as all resolution lists together, and a row is in it exactly when it is a record's resolution under its case number |
| RolesScraper.WriteTexts | 4_1_scraper_roles.py:173-175 | the loop writes the resolutions file |
| RolesScraper.RolesPartyRows | 4_1_scraper_roles.py:157-167 | the party file holds exactly the party rows of each record under its case number, with the role labels of the full export |
| RolesScraper.ExportRoles | 4_1_scraper_roles.py:142-175 | nothing is written for an empty result list; otherwise the case, party and resolution files |
| Strings.Mapped | 6_scrapper_con_db.py:91-94 | a list comprehension gives one result per element (one person per party item) |
| Strings.MappedAt | 6_scrapper_con_db.py:91-94 | the result at a position is the function applied to the element at that position |
| Strings.MappedSnoc | 6_scrapper_con_db.py:91-94 | one more element appends one more result, which the party loop and the key dedup loop follow |
| TabScraper.AccusedAt | 6_scrapper_con_db.py:91-94 | the person at a position is read from the party item at that position |
| TabScraper.AccusedFacts | 6_scrapper_con_db.py:88-94 | one person per party item, in order; every name and counsel is a stripped text, and each counsel is the text of a `div.item` inside the person's item |
| TabScraper.AccusedNameSingle | 6_scrapper_con_db.py:92 | with a single own text node, the name is the one the role parsers read (with several, they run together with no space) |
| TabScraper.ReadAccused | 6_scrapper_con_db.py:91-94 | the loop over the party items reads the persons in order |
| TabScraper.ParseTabFacts | 6_scrapper_con_db.py:56-114 | the record carries the tab's label and every key of interest, and apart from the label its fields are those the roles parser reads |
| TabScraper.ProcesarBloqueTab | 6_scrapper_con_db.py:57-112 | the block loop's steps, toggles removed first, give the tagged parse of the block |
| TabScraper.ScrapeTab | 6_scrapper_con_db.py:39-124 | `scrape_tab` extends the caller's `vistos` and `resultados` by the run of the tab's pages |
| TabScraper.ParserTags | 6_scrapper_con_db.py:112 | the tab's parser labels every block it reads with the tab |
| TabScraper.TabRunTagged | 6_scrapper_con_db.py:108-114 | every record a tab appends carries the tab's label |
| TabScraper.TabRunKeys | 6_scrapper_con_db.py:108-114 | the records held before are kept in front; every record a tab appends has a non-empty case number not seen under this tab before, and no two of them have the same case number |
| TabScraper.SeenLabels | 6_scrapper_con_db.py:109-114 | a tab scanned from an empty `vistos` leaves only keys with that tab's label |
| TabScraper.TwoTabsFacts | 6_scrapper_con_db.py:236-237 | the first tab's records come first with its label, then the second tab's with its own, and every one has a case number |
| TabScraper.TwoTabsDistinct | 6_scrapper_con_db.py:108-114 | with two different labels, no two records share both case number and tab |
| TabScraper.TabsRunFacts | 6_scrapper_con_db.py:226-237 | the finished-cases records come first tagged "Terminadas", then the in-progress ones tagged "En trámite"; every one has a case number, and a case number appears at most once per tab |
| TabScraper.RunCovers | 6_scrapper_con_db.py:108-114 | every processed block whose key is present and not seen before has a record with that key among those appended |
| TabScraper.TabsRunComplete | 6_scrapper_con_db.py:108-114 | every processed in-progress block with a case number has a record in the in-progress part, even when that case was already kept from the finished-cases tab |
| TabScraper.RunTabs | 6_scrapper_con_db.py:226-237 | `run` scrapes both tabs through one `vistos` and one `resultados` |
| CaseStore.StoredValueFacts | 6_scrapper_con_db.py:17-18 | a missing value, or one that strips to nothing, is looked up as "Desconocido"; any other value is looked up as given |
| CaseStore.StoredValueNotBlank | 6_scrapper_con_db.py:17-18 | the value looked up never strips to nothing |
| CaseStore.GetOrCreateFacts | 6_scrapper_con_db.py:12-36 | the value ends up in the table with the returned id; a value already there keeps its id and leaves the table unchanged; a new one gets an id no other value has; no other value changes id; the table stays valid |
| CaseStore.GetOrCreateTwice | 6_scrapper_con_db.py:20-22 | asking twice for the same value gives the same id and inserts nothing the second time |
| CaseStore.DimTable.ObtenerOCrearId | 6_scrapper_con_db.py:12-36 | the table in place afterwards, and the id returned, are those of the lookup-or-create |
| CaseStore.StripInside | 6_scrapper_con_db.py:148 | stripping adds no character, so an offence holds no comma |
| CaseStore.NonBlankMembers | 6_scrapper_con_db.py:148 | a text is kept exactly when it is non-empty and the stripped form of some piece |
| CaseStore.NonBlankSource | 6_scrapper_con_db.py:148 | every kept text is the stripped form of some piece |
| CaseStore.NonBlankKeeps | 6_scrapper_con_db.py:148 | every piece that does not strip to nothing is kept, stripped |
| CaseStore.OffencesFacts | 6_scrapper_con_db.py:147-148 | every offence is a non-empty stripped text without a comma, and the offences are exactly the non-empty stripped comma-separated pieces |
| CaseStore.ExtendsTrans | 6_scrapper_con_db.py:129 | keeping every earlier row and id carries over from one record to the next |
| CaseStore.SavedStill | 6_scrapper_con_db.py:129 | a record's rows stay stored when the database only grows |
| CaseStore.SaveRecordFacts | 6_scrapper_con_db.py:129-187 | saving a record keeps every earlier row and id, never overwrites the row of a case number already stored, and leaves all of the record's rows in the database |
| CaseStore.StoreCaseFacts | 6_scrapper_con_db.py:130-144 | the lookups and the `expediente` insert keep every earlier row and id, store "Desconocido" in the four fixed dimensions and the record's state, store the case number, and add no offence, party or deadline row |
| CaseStore.StoreRowsFacts | 6_scrapper_con_db.py:146-187 | the offence, party and deadline inserts keep every earlier row, add the record's rows, and leave the dimensions and cases alone |
| CaseStore.SaveRecordValid | 6_scrapper_con_db.py:130-135 | saving a record keeps the dimension tables valid |
| CaseStore.SaveRecordAgain | 6_scrapper_con_db.py:142-186 | a record whose rows are all stored already changes nothing |
| CaseStore.SaveAllExtends | 6_scrapper_con_db.py:127-187 | saving a list keeps every earlier row and id |
| CaseStore.SaveAllFacts | 6_scrapper_con_db.py:127-187 | after saving a list, every record's rows are in the database |
| CaseStore.SaveAllStep | 6_scrapper_con_db.py:129 | after one more record, it and all the records before it are saved |
| CaseStore.SavedAfter | 6_scrapper_con_db.py:129 | a record saved before another one is still saved after it |
| CaseStore.SaveAllValid | 6_scrapper_con_db.py:127-187 | saving a list keeps the dimension tables valid |
| CaseStore.SaveAllAgain | 6_scrapper_con_db.py:127-187 | a list whose records are all stored already changes nothing |
| CaseStore.SaveAllTwice | 6_scrapper_con_db.py:127-187 | saving the same records twice stores what saving them once does |
| CaseStore.SaveAllKeepsCases | 6_scrapper_con_db.py:138-144 | a case row stored before is never replaced (`ON CONFLICT DO NOTHING`), and every record's case number ends up stored |
| CaseStore.SaveAllRows | 6_scrapper_con_db.py:146-187 | every stored offence type is a non-empty stripped text without a comma, and every stored deadline type is at most 95 characters long and a prefix of a resolution text |
| CaseStore.SaveRecordRows | 6_scrapper_con_db.py:146-187 | saving one record adds only its own offence types and its own deadline rows |
| CaseStore.OffencesSnoc | 6_scrapper_con_db.py:158-162 | one more offence adds its (case, offence) pair |
| CaseStore.PartiesSnoc | 6_scrapper_con_db.py:165-170 | one more person adds its party row |
| CaseStore.DeadlinesSnoc | 6_scrapper_con_db.py:182-187 | one more resolution adds its deadline row |
| CaseStore.DimTable.constructor | 6_scrapper_con_db.py:12-36 | an empty, valid table |
| CaseStore.Database.constructor | 6_scrapper_con_db.py:127-128 | an empty database with five distinct, valid dimension tables |
| CaseStore.Database.GuardarCaso | 6_scrapper_con_db.py:130-144 | the five lookups and the `expediente` insert leave the database as `StoreCase` says |
| CaseStore.Database.GuardarDelitos | 6_scrapper_con_db.py:149-162 | the offence loop adds each offence and its (case, offence) pair |
| CaseStore.Database.GuardarDelitosDe | 6_scrapper_con_db.py:147-162 | a record without a truthy offence field adds nothing; otherwise its offences |
| CaseStore.Database.GuardarPartes | 6_scrapper_con_db.py:165-170 | the party loop adds one `parte` row per accused person |
| CaseStore.Database.GuardarPlazos | 6_scrapper_con_db.py:182-187 | the resolution loop adds one deadline row per resolution, cut to 95 characters |
| CaseStore.Database.GuardarRegistro | 6_scrapper_con_db.py:129-187 | the body of the record loop leaves the database as `SaveRecord` says |
| CaseStore.Database.GuardarEnDb | 6_scrapper_con_db.py:127-187 | `guardar_en_db` leaves the database as saving every record in order does |
| TabExport.TabCaseRows | 6_scrapper_con_db.py:192-198 | one case row per record |
| TabExport.WriteTabCases | 6_scrapper_con_db.py:192-198 | the `DictWriter` loop writes `r.get(k, "")` for each column of each record |
| TabExport.AccusedExportFacts | 6_scrapper_con_db.py:200-206 | one row per accused person: the file is as long as all accused lists together, and a row is in it exactly when it names a record's accused person under that record's case number and tab |
| TabExport.WriteAccused | 6_scrapper_con_db.py:204-206 | the loop writes the accused file |
| TabExport.TextExportFacts | 6_scrapper_con_db.py:217-223 | one row per stored resolution, under its record's case number and tab, and nothing else |
| TabExport.WriteTexts | 6_scrapper_con_db.py:221-223 | the loop writes the resolutions file |
| TabExport.RecordCounselFacts | 6_scrapper_con_db.py:213-215 | a record's counsel rows are its accused persons' counsel, one row each, under the person's name |
| TabExport.CounselExportFacts | 6_scrapper_con_db.py:208-215 | one row per counsel of each accused person, and nothing else: a person without counsel has no row |
| TabExport.WriteRecordCounsel | 6_scrapper_con_db.py:213-215 | the counsel loop of one record writes its rows |
| TabExport.WriteCounsel | 6_scrapper_con_db.py:212-215 | the loop over the records writes the counsel file |
| TabExport.GuardarCsv | 6_scrapper_con_db.py:190-223 | `guardar_csv` writes all four files, even when there are no records |
| TabExport.ParseTabReady | 6_scrapper_con_db.py:104-112 | a tab's parser fills in the case number, caption and last update (their defaults included) and the tab's label |
| TabExport.StorableKeys | 6_scrapper_con_db.py:104-106 | the fields `guardar_en_db` reads with `r[...]` are among the keys of interest |
| TabExport.ParserReady | 6_scrapper_con_db.py:104-112 | every record the tab's parser makes of blocks with an info list is ready to be saved |
| TabExport.TwoTabsReady | 6_scrapper_con_db.py:236-237 | when both parsers make only ready records, so does the two-tab run |
| TabExport.TabsRunStorable | 6_scrapper_con_db.py:236-251 | every record of the two-tab run can be saved and exported without a missing key |
| TabExport.RunConDb | 6_scrapper_con_db.py:226-251 | `run` scrapes both tabs, saves every record in order, and writes the four files of the records kept |

## Left out

- Browser work is not modelled. This covers Playwright navigation, clicks, waits, visibility checks, the "Ver más" expansion clicks and `asyncio`. A result page is a value `Pages.Page`: the blocks it shows, and whether its "Siguiente" control leads on. That one flag stands for the control being present, visible, clicked and waited on without an exception, so the loop's exits on a missing control, a hidden one or a raised exception are one exit in the model (those exceptions are caught, for instance at scraper_completas.py:110-112). The one wait the model keeps is `wait_for_selector` for a result block, which no `try` surrounds: in scraper_completas.py, 5_scraper_completo.py and 4_1_scraper_roles.py it opens every turn, so a page without blocks raises TimeoutError and the run ends before its export (Pages.RunPagesWaiting). The timeout's length is not modelled: a page whose blocks appear late counts as having them.
- TabScraper.ScrapeTab: `scrape_tab` waits for a result block once, before its first page (6_scrapper_con_db.py:41). When a tab's first page shows no blocks, that wait raises TimeoutError and the run ends before anything is saved or written. The model treats such a tab as one that yields no records.
- The container lookups are left out: `soup.find("div", id="solapa-2")` in scraper_completas.py and the tab container selectors of 6_scrapper_con_db.py. A page whose container is missing is a page without blocks.
- BeautifulSoup is replaced by the tree of `Html`, with only the query shapes the scrapers use. HTML parsing itself, entity decoding and the general CSS selector engine are not part of this model. `select` and `select_one` are given for the class, tag and descendant shapes the code runs.
- A block without an `ul.info` list makes the scrapers raise `AttributeError`, so every parser requires one (`InfoList(b).Some?`). The crash itself is not modelled.
- File and database I/O are not modelled. This covers `open`, `csv.DictReader`/`DictWriter`, pandas `read_csv`/`to_csv`/`concat`, the printed progress messages, asyncpg and the SQL text. CSV files are sequences of rows. The database is the in-memory `CaseStore.Database`.
- The `CURRENT_DATE` columns of `expediente` and `plazo` are left out: the clock is not modelled.
- The counsel loop of `guardar_en_db` (6_scrapper_con_db.py:172-179) is not modelled. It looks up or creates a `letrado` row and then inserts into `representacion` with `parte_id`, a name that is never defined. The first accused person with counsel therefore raises `NameError` and ends the run. The model stores no `letrado` or `representacion` rows and does not model that abort.
- The heuristic column mapping of the court directory is not modelled: `col_map` at etl_expedientes.py:418-438 and `pick` at etl_expedientes.py:520-542. A directory row is given with its columns already resolved, and a column the file lacks reads as missing.
- `procesar_intervinientes` (etl_expedientes.py:205-267) and `procesar_radicaciones` (etl_expedientes.py:324-361) are not modelled. They are pandas column renames, `dropna` and `drop_duplicates` over whole tables, with no logic beyond `limpiar_texto` and `parse_date`, which are modelled.
- `main` and `cargar_etl.py` are not modelled: the first sequences the stages, the second is a plain SQL loader.
- scraper_jueces.py, scraper_jueces3.py, web_scraper_solo1pagina.py, test_html.py and the files under "cosas viejas" are not part of this model. They fetch pages or print for debugging, and scraper_jueces3.py holds unresolved merge-conflict markers.
- Strings.Upper: `str.upper()` and `str.lower()` are modelled for ASCII and Latin-1 letters only. Every other character is kept, and "ß" stays one character where Python gives "SS".
- EtlText.WordRun: the regular-expression class `\w` is modelled for ASCII and Latin-1 letters, digits and "_" only, and `\d` for ASCII digits only. Python also accepts other Unicode letters and digits.
- EtlText.IsoText: years are always written with four digits. For a year below 1000, the padding of `strftime("%Y")` depends on the platform's C library.
- EtlText.ParseDayMonthYear: `strptime`'s calendar check is modelled with integer arithmetic (Gregorian leap years). Its locale handling and its other directives are not modelled.
- Pages.RunPages: the loop is modelled over a finite sequence of pages, and reading past the last page finds no blocks. A site that never stops offering a "next" page is not modelled.
- CaseStore.Db: the tables `expediente_delito`, `parte` and `plazo` are modelled as sets of whole rows, so a row inserted twice is stored once. The SQL says only `ON CONFLICT DO NOTHING` (6_scrapper_con_db.py:158-162, 166-170 and 183-187) and names no conflict target. The model therefore assumes a unique constraint over the whole row in the database schema, which is not part of this model. Without such a constraint, a second save of the same record adds duplicate `parte` and `plazo` rows.
- CaseStore.SaveRecordAgain, CaseStore.SaveAllAgain and CaseStore.SaveAllTwice hold under that assumed whole-row constraint only.
- CaseStore.DimTable.ObtenerOCrearId: the `extra` columns passed to `obtener_o_crear_id` (6_scrapper_con_db.py:131-134) are not stored. These are the province and judicial district of a jurisdiction, the jurisdiction of a court and the court of a secretariat. A dimension row holds only its value and its id.
- EtlJudges.SortRelations: Python's sort is not modelled step by step. The model relies on the fact that a sort which raises nothing has compared every pair it leaves next to each other. A set holding two tuples that meet at a None against a text therefore always makes `sorted(relaciones)` raise TypeError, whatever order the comparisons run in.
- EtlJudges.RelationFile: when `sorted(relaciones)` raises, etl_tribunal_juez.csv keeps the header it was opened with and no rows, and the exception ends the run. The model gives `None` for the file and does not model the aborted run beyond it.
- Where the documented design of the system and the code differ, the model follows the code:
  - party and counsel names are not title-cased;
  - no name stoplist ("OTROS", "NN", …) is applied;
  - the default labels are "Desconocido", "Desconocida" and "Nacional", not "Unknown" and "National";
  - `guardar_en_db` has no per-record error recovery, so a failing record ends the run.

## Findings

| source | as written | input that shows it | evidently intended | confidence | as-written member | corrected member |
|---|---|---|---|---|---|---|
| etl_expedientes.py:439-461 | `get(row, key)` passes a cell straight to `limpiar_texto`. pandas reads an empty CSV cell as NaN, which is not `None`, so `str(nan)` gives the text "nan", and that text is truthy. Every cell of the court directory read this way takes it as a value. The judge stage reads its court cell the same way at etl_expedientes.py:570. | a tribunales_full.csv row with an empty `nombre` cell adds a court named "nan"; one with an empty `instancia` cell gets instance "nan" instead of "N/D"; one with empty `telefono` and `email` cells gets the contact "Tel: nan \| Email: nan" | an empty cell reads as missing: no court for an empty name, "N/D" for an empty instance, nothing added to the contact, as the judge stage does for its other columns by testing `pd.notna` first (etl_expedientes.py:577-585) | not executed | EtlCourts.NaNCellsAsWritten | EtlCourts.NaNCellsCorrected |

The court and judge stages of the model (EtlCourts.SourceEntry and everything built on it, and EtlJudges.RowMentions) read cells as the code is written. EtlCourts.Field and EtlCourts.SourceEntryIntended give the intended reading, and EtlCourts.NaNCellsCorrected relates the two.
