/** The page loops of `scraper_completas.run` (finished-cases tab, records
    tagged `Estado_General = "TERMINADA"`) and of 5_scraper_completo.py (one
    listing, no tag): every block of every processed page is parsed, and the
    parse is kept when its Expediente is non-empty and new. */
module CaseRuns {
  import opened Optional
  import opened Html
  import opened Pages
  import opened BlockParser

  const CaseField: string := "Expediente"
  const StateField: string := "Estado_General"

  /** `datos.get("Expediente")` when it is truthy. */
  function CaseKey(p: Parsed): Option<string> {
    if CaseField in p.fields && p.fields[CaseField] != [] then Some(p.fields[CaseField]) else None
  }

  /** The tag scraper_completas puts on every record it keeps. */
  function Tagged(p: Parsed): Parsed {
    p.(fields := p.fields[StateField := "TERMINADA"])
  }

  /** Tagging sets the state field and leaves every other field, so the case
      key is the same whether the tag goes on before or after the admission
      test. */
  lemma TaggedKey(p: Parsed)
    ensures CaseKey(Tagged(p)) == CaseKey(p)
    ensures StateField in Tagged(p).fields && Tagged(p).fields[StateField] == "TERMINADA"
    ensures forall k :: k in p.fields && k != StateField ==> k in Tagged(p).fields && Tagged(p).fields[k] == p.fields[k]
  {
    assert CaseField != StateField;
  }

  /** A block of the finished-cases tab, parsed and tagged. */
  function ParseTerminada(b: Node): Parsed
    requires InfoList(b).Some?
  {
    Tagged(ParseBlock(b))
  }

  /** `scraper_completas.run`: the finished-cases tab, from an empty
      `vistos`; `None` when the loop comes to a page without blocks, where
      its wait raises before the export. */
  method RunTerminadas(pages: seq<Page>) returns (resultados: Option<seq<Parsed>>)
    requires Parsable(AllBlocks(Visited(pages)), ParseTerminada)
    ensures resultados.None? <==> BlankPageReached(pages)
    ensures resultados.Some? ==> resultados.value == Run(Admitted({}, []), pages, ParseTerminada, CaseKey).out
  {
    resultados := RunPagesWaiting(pages, ParseTerminada, CaseKey);
  }

  /** The page loop of 5_scraper_completo.py, from an empty `vistos`, with
      the same abort. */
  method RunCompleto(pages: seq<Page>) returns (resultados: Option<seq<Parsed>>)
    requires Parsable(AllBlocks(Visited(pages)), ParseBlock)
    ensures resultados.None? <==> BlankPageReached(pages)
    ensures resultados.Some? ==> resultados.value == Run(Admitted({}, []), pages, ParseBlock, CaseKey).out
  {
    resultados := RunPagesWaiting(pages, ParseBlock, CaseKey);
  }

  /** What a run keeps: records with distinct, non-empty case numbers. */
  lemma RunKeysDistinct(pages: seq<Page>, parse: Node --> Parsed)
    requires Parsable(AllBlocks(Visited(pages)), parse)
    ensures var out := Run(Admitted({}, []), pages, parse, CaseKey).out;
      (forall i :: 0 <= i < |out| ==> CaseField in out[i].fields && out[i].fields[CaseField] != []) &&
      (forall i, j :: 0 <= i < j < |out| ==> out[i].fields[CaseField] != out[j].fields[CaseField])
  {
    RunFacts(Admitted({}, []), pages, parse, CaseKey);
  }

  /** Each kept record is the parse of the first processed block with its
      case number. */
  lemma RunKeepsFirsts(pages: seq<Page>, parse: Node --> Parsed)
    requires Parsable(AllBlocks(Visited(pages)), parse)
    ensures var out := Run(Admitted({}, []), pages, parse, CaseKey).out; var rs := Records(AllBlocks(Visited(pages)), parse);
      forall i :: 0 <= i < |out| ==>
        exists j :: (0 <= j < |rs| && out[i] == rs[j] && forall l :: 0 <= l < j ==> CaseKey(rs[l]) != CaseKey(rs[j]))
  {
    RunFacts(Admitted({}, []), pages, parse, CaseKey);
  }

  /** Every processed block whose case number is non-empty has a kept
      record with that number. */
  lemma RunKeepsEvery(pages: seq<Page>, parse: Node --> Parsed)
    requires Parsable(AllBlocks(Visited(pages)), parse)
    ensures var out := Run(Admitted({}, []), pages, parse, CaseKey).out; var rs := Records(AllBlocks(Visited(pages)), parse);
      forall j :: 0 <= j < |rs| && CaseKey(rs[j]).Some? ==> exists i :: 0 <= i < |out| && CaseKey(out[i]) == CaseKey(rs[j])
  {
    var st: Admitted<string, Parsed> := Admitted({}, []);
    var bs := AllBlocks(Visited(pages));
    var rs := Records(bs, parse);
    RunFacts(st, pages, parse, CaseKey);
    var out := Run(st, pages, parse, CaseKey).out;
    forall j | 0 <= j < |rs| && CaseKey(rs[j]).Some?
      ensures exists i :: 0 <= i < |out| && CaseKey(out[i]) == CaseKey(rs[j])
    {
      RecordsAt(bs, parse, j);
    }
  }

  /** Every record the finished-cases run keeps carries the tag. */
  lemma TerminadasTagged(pages: seq<Page>)
    requires Parsable(AllBlocks(Visited(pages)), ParseTerminada)
    ensures var out := Run(Admitted({}, []), pages, ParseTerminada, CaseKey).out;
      forall i :: 0 <= i < |out| ==> StateField in out[i].fields && out[i].fields[StateField] == "TERMINADA"
  {
    var bs := AllBlocks(Visited(pages));
    var rs := Records(bs, ParseTerminada);
    RunKeepsFirsts(pages, ParseTerminada);
    var out := Run(Admitted({}, []), pages, ParseTerminada, CaseKey).out;
    forall i | 0 <= i < |out|
      ensures StateField in out[i].fields && out[i].fields[StateField] == "TERMINADA"
    {
      var j :| 0 <= j < |rs| && out[i] == rs[j];
      RecordsAt(bs, ParseTerminada, j);
      TaggedKey(ParseBlock(bs[j]));
    }
  }
}
