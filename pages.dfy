/** The page loop and the `vistos` seen-set that every scraper shares: which
    pages get processed, and which parsed blocks get appended. */
module Pages {
  import opened Optional
  import opened Html

  /** What one visit of the results shows: its result blocks, and whether the
      "next" control leads on (it exists, it is visible, and the click and the
      wait after it succeed). A page whose results container is missing shows
      no blocks. */
  datatype Page = Page(blocks: seq<Node>, advances: bool)

  /** The pages the loop processes, in order: it stops before the first page
      without blocks, and after the first page whose "next" control does not
      lead on. Past the pages given, no blocks are found. */
  function Visited(pages: seq<Page>): (v: seq<Page>)
    ensures |v| <= |pages|
    decreases |pages|
  {
    if pages == [] || pages[0].blocks == [] then []
    else if !pages[0].advances then [pages[0]]
    else [pages[0]] + Visited(pages[1..])
  }

  /** `v` is a prefix of the pages; every page in it has blocks; every one
      but the last leads on; and it stops early only at a page without
      blocks or after a page that does not lead on. */
  predicate ProcessedPrefix(pages: seq<Page>, v: seq<Page>) {
    |v| <= |pages| && v == pages[..|v|] &&
    (forall i :: 0 <= i < |v| ==> v[i].blocks != []) &&
    (forall i :: 0 <= i < |v| - 1 ==> v[i].advances) &&
    (|v| < |pages| ==> pages[|v|].blocks == [] || (v != [] && !v[|v| - 1].advances))
  }

  /** The loop processes a prefix of the pages, as `ProcessedPrefix` says. */
  lemma {:induction false} VisitedFacts(pages: seq<Page>)
    ensures ProcessedPrefix(pages, Visited(pages))
    decreases |pages|
  {
    if pages != [] && pages[0].blocks != [] {
      if pages[0].advances {
        VisitedFacts(pages[1..]);
        assert pages == [pages[0]] + pages[1..];
        ProcessedCons(pages[0], pages[1..], Visited(pages[1..]));
      } else {
        assert pages[..1] == [pages[0]];
      }
    }
  }

  /** A page with blocks that leads on, in front of a processed prefix. */
  lemma ProcessedCons(p: Page, rest: seq<Page>, w: seq<Page>)
    requires ProcessedPrefix(rest, w) && p.blocks != [] && p.advances
    ensures ProcessedPrefix([p] + rest, [p] + w)
  {
    var v := [p] + w;
    assert forall i :: 1 <= i < |v| ==> v[i] == w[i - 1];
    assert ([p] + rest)[..|v|] == [p] + rest[..|w|];
  }

  /** The blocks of the pages, page after page. */
  function AllBlocks(pages: seq<Page>): seq<Node>
    decreases |pages|
  {
    if pages == [] then [] else AllBlocks(pages[..|pages| - 1]) + pages[|pages| - 1].blocks
  }

  lemma {:induction false} AllBlocksAppend(a: seq<Page>, b: seq<Page>)
    ensures AllBlocks(a + b) == AllBlocks(a) + AllBlocks(b)
    decreases |b|
  {
    if b == [] {
      assert a + b == a;
    } else {
      var init := b[..|b| - 1];
      AllBlocksAppend(a, init);
      assert (a + b)[..|a + b| - 1] == a + init;
    }
  }

  /** The blocks of a processed page belong to the run. */
  lemma PageInRun(pages: seq<Page>, i: nat)
    requires i < |Visited(pages)| <= |pages|
    ensures forall b :: b in pages[i].blocks ==> b in AllBlocks(Visited(pages))
  {
    VisitedFacts(pages);
    var n := |Visited(pages)|;
    assert pages[..n] == pages[..i + 1] + pages[i + 1..n];
    AllBlocksAppend(pages[..i + 1], pages[i + 1..n]);
    assert pages[..i + 1][..i] == pages[..i];
  }

  // ---------------------------------------------------------------------
  // The seen-set
  // ---------------------------------------------------------------------

  /** `vistos` and `resultados`. */
  datatype Admitted<K, R> = Admitted(seen: set<K>, out: seq<R>)

  /** A record is appended when it has a key (a non-empty Expediente) not yet
      seen; its key is then added to the seen-set. */
  function Admit<K(==), R>(st: Admitted<K, R>, r: R, key: R -> Option<K>): Admitted<K, R> {
    match key(r)
    case None => st
    case Some(k) => if k in st.seen then st else Admitted(st.seen + {k}, st.out + [r])
  }

  function AdmitAll<K(==), R>(st: Admitted<K, R>, rs: seq<R>, key: R -> Option<K>): Admitted<K, R>
    decreases |rs|
  {
    if rs == [] then st else Admit(AdmitAll(st, rs[..|rs| - 1], key), rs[|rs| - 1], key)
  }

  lemma {:induction false} AdmitAllAppend<K, R>(st: Admitted<K, R>, a: seq<R>, b: seq<R>, key: R -> Option<K>)
    ensures AdmitAll(st, a + b, key) == AdmitAll(AdmitAll(st, a, key), b, key)
    decreases |b|
  {
    if b == [] {
      assert a + b == a;
    } else {
      AdmitAllAppend(st, a, b[..|b| - 1], key);
      assert (a + b)[..|a + b| - 1] == a + b[..|b| - 1];
    }
  }

  /** The seen-set afterwards holds the keys held before and the key of every
      record offered, and nothing else. */
  lemma {:induction false} AdmitAllSeen<K, R>(st: Admitted<K, R>, rs: seq<R>, key: R -> Option<K>)
    ensures st.seen <= AdmitAll(st, rs, key).seen
    ensures forall i :: 0 <= i < |rs| && key(rs[i]).Some? ==> key(rs[i]).value in AdmitAll(st, rs, key).seen
    ensures forall k :: k in AdmitAll(st, rs, key).seen ==>
      k in st.seen || exists i :: 0 <= i < |rs| && key(rs[i]) == Some(k)
    decreases |rs|
  {
    if rs != [] {
      var init := rs[..|rs| - 1];
      AdmitAllSeen(st, init, key);
      var acc := AdmitAll(st, init, key);
      var r := AdmitAll(st, rs, key);
      assert forall i :: 0 <= i < |init| ==> init[i] == rs[i];
      forall k | k in r.seen
        ensures k in st.seen || exists i :: 0 <= i < |rs| && key(rs[i]) == Some(k)
      {
        if k !in acc.seen {
          assert key(rs[|rs| - 1]) == Some(k);
        } else if k !in st.seen {
          assert exists i :: 0 <= i < |init| && key(init[i]) == Some(k);
          var i :| 0 <= i < |init| && key(init[i]) == Some(k);
          assert rs[i] == init[i];
        }
      }
    }
  }

  /** The records appended after the ones held before each have a key that
      was not seen before, and no two of them share a key. */
  lemma {:induction false} AdmitAllFacts<K, R>(st: Admitted<K, R>, rs: seq<R>, key: R -> Option<K>)
    ensures var r := AdmitAll(st, rs, key);
      |r.out| >= |st.out| && r.out[..|st.out|] == st.out &&
      (forall i :: |st.out| <= i < |r.out| ==> key(r.out[i]).Some? && key(r.out[i]).value in r.seen - st.seen) &&
      (forall i, j :: |st.out| <= i < j < |r.out| ==> key(r.out[i]) != key(r.out[j]))
    decreases |rs|
  {
    if rs != [] {
      var init := rs[..|rs| - 1];
      var last := rs[|rs| - 1];
      AdmitAllFacts(st, init, key);
      AdmitAllSeen(st, init, key);
      var acc := AdmitAll(st, init, key);
      var r := AdmitAll(st, rs, key);
      if r != acc {
        assert r.out == acc.out + [last];
        assert r.out[..|st.out|] == acc.out[..|st.out|];
      }
    }
  }

  /** The record appended for a key is the first record offered with that key. */
  lemma {:induction false} AdmitAllFirst<K, R>(st: Admitted<K, R>, rs: seq<R>, key: R -> Option<K>)
    ensures var r := AdmitAll(st, rs, key);
      forall i :: |st.out| <= i < |r.out| && i < |r.out| ==>
        exists j :: 0 <= j < |rs| && rs[j] == r.out[i] && forall l :: 0 <= l < j ==> key(rs[l]) != key(rs[j])
    decreases |rs|
  {
    if rs != [] {
      var init := rs[..|rs| - 1];
      var last := rs[|rs| - 1];
      AdmitAllFirst(st, init, key);
      AdmitAllSeen(st, init, key);
      AdmitAllFacts(st, init, key);
      var acc := AdmitAll(st, init, key);
      var r := AdmitAll(st, rs, key);
      forall i | |st.out| <= i < |r.out|
        ensures exists j :: 0 <= j < |rs| && rs[j] == r.out[i] && forall l :: 0 <= l < j ==> key(rs[l]) != key(rs[j])
      {
        if i < |acc.out| {
          assert r.out[i] == acc.out[i];
          var j :| 0 <= j < |init| && init[j] == acc.out[i] && forall l :: 0 <= l < j ==> key(init[l]) != key(init[j]);
          assert rs[j] == init[j];
          assert forall l :: 0 <= l < j ==> rs[l] == init[l];
        } else {
          assert r.out == acc.out + [last] && r.out[i] == last;
          var k := key(last).value;
          assert key(last) == Some(k) && k !in acc.seen;
          forall l | 0 <= l < |rs| - 1
            ensures key(rs[l]) != key(last)
          {
            assert rs[l] == init[l];
            assert key(init[l]) != Some(k);
          }
        }
      }
    }
  }

  /** Every record offered with a key not seen before has that key appended
      exactly once. */
  lemma AdmitAllComplete<K, R>(st: Admitted<K, R>, rs: seq<R>, key: R -> Option<K>, j: nat)
    requires j < |rs| && key(rs[j]).Some? && key(rs[j]).value !in st.seen
    ensures exists i :: |st.out| <= i < |AdmitAll(st, rs, key).out| && key(AdmitAll(st, rs, key).out[i]) == key(rs[j])
  {
    AdmitAllOut(st, rs, key);
    AdmitAllSeen(st, rs, key);
    var k := key(rs[j]).value;
    assert k in AdmitAll(st, rs, key).seen;
  }

  /** Every key in the seen-set belongs to a record appended, or to one held before. */
  lemma {:induction false} AdmitAllOut<K, R>(st: Admitted<K, R>, rs: seq<R>, key: R -> Option<K>)
    ensures var r := AdmitAll(st, rs, key);
      forall k :: k in r.seen && k !in st.seen ==> exists i :: |st.out| <= i < |r.out| && key(r.out[i]) == Some(k)
    decreases |rs|
  {
    if rs != [] {
      var init := rs[..|rs| - 1];
      AdmitAllOut(st, init, key);
      AdmitAllFacts(st, init, key);
      var acc := AdmitAll(st, init, key);
      var r := AdmitAll(st, rs, key);
      forall k | k in r.seen && k !in st.seen
        ensures exists i :: |st.out| <= i < |r.out| && key(r.out[i]) == Some(k)
      {
        if k in acc.seen {
          var i :| |st.out| <= i < |acc.out| && key(acc.out[i]) == Some(k);
          assert r.out[..|acc.out|] == acc.out;
          assert r.out[i] == acc.out[i];
        } else {
          assert r.out == acc.out + [rs[|rs| - 1]];
          assert key(r.out[|acc.out|]) == Some(k);
        }
      }
    }
  }

  // ---------------------------------------------------------------------
  // A run: the page loop with the seen-set, over any block parser
  // ---------------------------------------------------------------------

  /** The parser is defined on every block (the scrapers fail on a block
      without an info list). */
  ghost predicate Parsable<R>(bs: seq<Node>, parse: Node --> R) {
    forall b :: b in bs ==> parse.requires(b)
  }

  /** The parse of each block, in order. */
  function Records<R>(bs: seq<Node>, parse: Node --> R): (rs: seq<R>)
    requires Parsable(bs, parse)
    ensures |rs| == |bs|
    decreases |bs|
  {
    if bs == [] then [] else Records(bs[..|bs| - 1], parse) + [parse(bs[|bs| - 1])]
  }

  lemma {:induction false} RecordsAt<R>(bs: seq<Node>, parse: Node --> R, i: nat)
    requires Parsable(bs, parse) && i < |bs|
    ensures Records(bs, parse)[i] == parse(bs[i])
    decreases |bs|
  {
    if i < |bs| - 1 {
      RecordsAt(bs[..|bs| - 1], parse, i);
    }
  }

  lemma {:induction false} RecordsAppend<R>(a: seq<Node>, b: seq<Node>, parse: Node --> R)
    requires Parsable(a, parse) && Parsable(b, parse)
    ensures Parsable(a + b, parse)
    ensures Records(a + b, parse) == Records(a, parse) + Records(b, parse)
    decreases |b|
  {
    ParsableAppend(a, b, parse);
    if b == [] {
      assert a + b == a;
    } else {
      var init := b[..|b| - 1];
      assert Parsable(init, parse);
      RecordsAppend(a, init, parse);
      assert (a + b)[..|a + b| - 1] == a + init;
      assert (a + b)[|a + b| - 1] == b[|b| - 1];
      assert Records(a + b, parse) == Records(a + init, parse) + [parse(b[|b| - 1])];
    }
  }

  lemma ParsableAppend<R>(a: seq<Node>, b: seq<Node>, parse: Node --> R)
    requires Parsable(a, parse) && Parsable(b, parse)
    ensures Parsable(a + b, parse)
  {
  }

  /** The seen-set and the kept records after a run over the pages that
      starts from `st`. */
  function Run<K(==), R>(st: Admitted<K, R>, pages: seq<Page>, parse: Node --> R, key: R -> Option<K>): Admitted<K, R>
    requires Parsable(AllBlocks(Visited(pages)), parse)
  {
    AdmitAll(st, Records(AllBlocks(Visited(pages)), parse), key)
  }

  /** What a run keeps: the records held before, then records whose keys are
      present, new and distinct, each the parse of the first processed block
      with that key; and a record for every processed block whose key is
      present and new. */
  lemma RunFacts<K, R>(st: Admitted<K, R>, pages: seq<Page>, parse: Node --> R, key: R -> Option<K>)
    requires Parsable(AllBlocks(Visited(pages)), parse)
    ensures var out := Run(st, pages, parse, key).out;
      |out| >= |st.out| && out[..|st.out|] == st.out &&
      (forall i :: |st.out| <= i < |out| ==> key(out[i]).Some? && key(out[i]).value !in st.seen) &&
      (forall i, j :: |st.out| <= i < j < |out| ==> key(out[i]) != key(out[j]))
    ensures Run(st, pages, parse, key) == AdmitAll(st, Records(AllBlocks(Visited(pages)), parse), key)
    ensures forall i :: |st.out| <= i < |Run(st, pages, parse, key).out| ==>
      exists j :: (0 <= j < |AllBlocks(Visited(pages))| &&
        Run(st, pages, parse, key).out[i] == Records(AllBlocks(Visited(pages)), parse)[j] &&
        forall l :: 0 <= l < j ==>
          key(Records(AllBlocks(Visited(pages)), parse)[l]) != key(Records(AllBlocks(Visited(pages)), parse)[j]))
    ensures var out := Run(st, pages, parse, key).out; var bs := AllBlocks(Visited(pages));
      forall j :: 0 <= j < |bs| && key(parse(bs[j])).Some? && key(parse(bs[j])).value !in st.seen ==>
        exists i :: |st.out| <= i < |out| && key(out[i]) == key(parse(bs[j]))
  {
    var bs := AllBlocks(Visited(pages));
    var rs := Records(bs, parse);
    var out := Run(st, pages, parse, key).out;
    AdmitAllFacts(st, rs, key);
    AdmitAllFirst(st, rs, key);
    forall j | 0 <= j < |bs| && key(parse(bs[j])).Some? && key(parse(bs[j])).value !in st.seen
      ensures exists i :: |st.out| <= i < |out| && key(out[i]) == key(parse(bs[j]))
    {
      RecordsAt(bs, parse, j);
      AdmitAllComplete(st, rs, key, j);
    }
  }

  /** Processing page `i` extends the run over the pages before it by the
      page's blocks. */
  lemma RunStep<K, R>(st: Admitted<K, R>, pages: seq<Page>, i: nat, parse: Node --> R, key: R -> Option<K>)
    requires i < |Visited(pages)| <= |pages|
    requires Parsable(AllBlocks(Visited(pages)), parse) && Parsable(AllBlocks(pages[..i]), parse)
    ensures Parsable(pages[i].blocks, parse) && Parsable(AllBlocks(pages[..i + 1]), parse)
    ensures AdmitAll(st, Records(AllBlocks(pages[..i + 1]), parse), key) ==
      AdmitAll(AdmitAll(st, Records(AllBlocks(pages[..i]), parse), key), Records(pages[i].blocks, parse), key)
  {
    PageInRun(pages, i);
    assert AllBlocks(pages[..i + 1]) == AllBlocks(pages[..i]) + pages[i].blocks by {
      assert pages[..i + 1][..i] == pages[..i];
    }
    RecordsAppend(AllBlocks(pages[..i]), pages[i].blocks, parse);
    AdmitAllAppend(st, Records(AllBlocks(pages[..i]), parse), Records(pages[i].blocks, parse), key);
  }

  /** The loop over one page's blocks: each is parsed, and kept when its key
      is present and not yet seen. */
  method AdmitBlocks<K(==), R>(vistos: set<K>, resultados: seq<R>, bloques: seq<Node>, parse: Node --> R, key: R -> Option<K>)
    returns (vistos': set<K>, resultados': seq<R>)
    requires Parsable(bloques, parse)
    ensures Admitted(vistos', resultados') == AdmitAll(Admitted(vistos, resultados), Records(bloques, parse), key)
  {
    vistos', resultados' := vistos, resultados;
    for j := 0 to |bloques|
      invariant Admitted(vistos', resultados') == AdmitAll(Admitted(vistos, resultados), Records(bloques[..j], parse), key)
    {
      assert bloques[..j + 1][..j] == bloques[..j];
      var datos := parse(bloques[j]);
      var id := key(datos);
      if id.Some? && id.value !in vistos' {
        resultados' := resultados' + [datos];
        vistos' := vistos' + {id.value};
      }
    }
    assert bloques[..|bloques|] == bloques;
  }

  /** One turn of the page loop: the blocks of page `i` go through the
      seen-set. */
  method ProcessPage<K(==), R>(vistos: set<K>, resultados: seq<R>, ghost st: Admitted<K, R>, pages: seq<Page>, i: nat,
                               parse: Node --> R, key: R -> Option<K>)
    returns (vistos': set<K>, resultados': seq<R>)
    requires i < |Visited(pages)| <= |pages|
    requires Parsable(AllBlocks(Visited(pages)), parse) && Parsable(AllBlocks(pages[..i]), parse)
    requires Admitted(vistos, resultados) == AdmitAll(st, Records(AllBlocks(pages[..i]), parse), key)
    ensures Parsable(AllBlocks(pages[..i + 1]), parse)
    ensures Admitted(vistos', resultados') == AdmitAll(st, Records(AllBlocks(pages[..i + 1]), parse), key)
  {
    RunStep(st, pages, i, parse, key);
    vistos', resultados' := AdmitBlocks(vistos, resultados, pages[i].blocks, parse, key);
  }

  /** The page loop: the blocks of each page, until a page has none or its
      "next" control does not lead on. `vistos` and `resultados` come from
      the caller and are handed back. */
  method RunPages<K(==), R>(vistos: set<K>, resultados: seq<R>, pages: seq<Page>, parse: Node --> R, key: R -> Option<K>)
    returns (vistos': set<K>, resultados': seq<R>)
    requires Parsable(AllBlocks(Visited(pages)), parse)
    ensures Admitted(vistos', resultados') == Run(Admitted(vistos, resultados), pages, parse, key)
  {
    ghost var n := |Visited(pages)|;
    vistos', resultados' := vistos, resultados;
    var i := 0;
    var sigue := true;
    while sigue && i < |pages| && pages[i].blocks != []
      invariant i <= n && i <= |pages|
      invariant sigue == (i == 0 || pages[i - 1].advances)
      invariant Parsable(AllBlocks(pages[..i]), parse)
      invariant Admitted(vistos', resultados') == AdmitAll(Admitted(vistos, resultados), Records(AllBlocks(pages[..i]), parse), key)
    {
      InsideRun(pages, i);
      vistos', resultados' := ProcessPage(vistos', resultados', Admitted(vistos, resultados), pages, i, parse, key);
      sigue := pages[i].advances;
      i := i + 1;
    }
    assert Visited(pages) == pages[..i] by {
      if !sigue {
        StopsAfter(pages, i);
      } else {
        StopsAtEnd(pages, i);
      }
    }
  }

  /** Whether the loop comes to a page without result blocks: no page was
      processed, or the last one processed led on. Either the next page shows
      no blocks or it lies past the pages given. */
  predicate BlankPageReached(pages: seq<Page>) {
    var n := |Visited(pages)|;
    n == 0 || pages[n - 1].advances
  }

  /** The loop comes to a page without blocks exactly when it does not end
      after a page whose "next" control does not lead on. */
  lemma BlankPageReachedFacts(pages: seq<Page>)
    ensures BlankPageReached(pages) ==>
      |Visited(pages)| == |pages| || pages[|Visited(pages)|].blocks == []
    ensures !BlankPageReached(pages) <==>
      exists i :: 0 < i <= |pages| && Visited(pages) == pages[..i] && !pages[i - 1].advances
  {
    VisitedFacts(pages);
    var n := |Visited(pages)|;
    if !BlankPageReached(pages) {
      assert 0 < n <= |pages| && Visited(pages) == pages[..n] && !pages[n - 1].advances;
    }
  }

  /** The page loop of the scrapers that wait for a result block at the top
      of every turn, outside any `try`: on a page without blocks the wait
      raises TimeoutError, which leaves the run before the export (`None`).
      Otherwise the loop ends after a page whose "next" control does not lead
      on, with the run over the processed pages. */
  method RunPagesWaiting<K(==), R>(pages: seq<Page>, parse: Node --> R, key: R -> Option<K>)
    returns (resultados: Option<seq<R>>)
    requires Parsable(AllBlocks(Visited(pages)), parse)
    ensures resultados.None? <==> BlankPageReached(pages)
    ensures resultados.Some? ==> resultados.value == Run(Admitted({}, []), pages, parse, key).out
  {
    ghost var st: Admitted<K, R> := Admitted({}, []);
    var vistos: set<K> := {};
    var out: seq<R> := [];
    var i := 0;
    var sigue := true;
    while sigue
      invariant i <= |Visited(pages)| && i <= |pages|
      invariant sigue == (i == 0 || pages[i - 1].advances)
      invariant Parsable(AllBlocks(pages[..i]), parse)
      invariant Admitted(vistos, out) == AdmitAll(st, Records(AllBlocks(pages[..i]), parse), key)
      decreases |pages| - i + (if sigue then 1 else 0)
    {
      if i == |pages| || pages[i].blocks == [] {
        StopsAtEnd(pages, i);
        return None;
      }
      InsideRun(pages, i);
      vistos, out := ProcessPage(vistos, out, st, pages, i, parse, key);
      sigue := pages[i].advances;
      i := i + 1;
    }
    StopsAfter(pages, i);
    resultados := Some(out);
  }

  /** A page with blocks reached after pages that all lead on is processed. */
  lemma InsideRun(pages: seq<Page>, i: nat)
    requires i < |pages| && pages[i].blocks != [] && i <= |Visited(pages)|
    requires 0 < i ==> pages[i - 1].advances
    ensures i < |Visited(pages)| <= |pages|
  {
    VisitedFacts(pages);
  }

  /** The loop ends at the last page or at a page without blocks. */
  lemma StopsAtEnd(pages: seq<Page>, i: nat)
    requires i <= |Visited(pages)| && i <= |pages|
    requires i == |pages| || pages[i].blocks == []
    ensures Visited(pages) == pages[..i]
  {
    VisitedFacts(pages);
  }

  /** The loop ends after a page that does not lead on. */
  lemma StopsAfter(pages: seq<Page>, i: nat)
    requires 0 < i <= |Visited(pages)| && i <= |pages| && !pages[i - 1].advances
    ensures Visited(pages) == pages[..i]
  {
    VisitedFacts(pages);
  }
}
