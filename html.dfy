/** A parsed result page as a tree of elements and text nodes, the query
    shapes the scrapers run on it (`find`, `select`, `select_one`, the text
    getters) and the removal of the toggle controls from the info list. */
module Html {
  import opened Optional
  import opened Strings

  /** A node of the parsed page: a text node, or an element with its tag name,
      its class tokens, its other attributes and its children in document order. */
  datatype Node =
    | Text(text: string)
    | Element(tag: string, classes: set<string>, attrs: map<string, string>, children: seq<Node>)

  /** A simple selector `tag.class1.class2`. */
  datatype Selector = Selector(tag: string, classes: set<string>)

  predicate Is(n: Node, s: Selector) {
    n.Element? && n.tag == s.tag && s.classes <= n.classes
  }

  /** `el.get(key)` on an element; a text node has no attributes. */
  function Attr(n: Node, key: string): Option<string> {
    match n
    case Text(_) => None
    case Element(_, _, attrs, _) => if key in attrs then Some(attrs[key]) else None
  }

  // ---------------------------------------------------------------------
  // Text
  // ---------------------------------------------------------------------

  /** Every text node below `n`, in document order. */
  function Texts(n: Node): seq<string>
    decreases n
  {
    match n
    case Text(t) => [t]
    case Element(_, _, _, cs) => TextsOf(cs)
  }

  function TextsOf(cs: seq<Node>): seq<string>
    decreases cs
  {
    if cs == [] then [] else TextsOf(cs[..|cs| - 1]) + Texts(cs[|cs| - 1])
  }

  /** `find_all(string=True, recursive=False)`: the text children of `n`. */
  function DirectTexts(n: Node): seq<string> {
    match n
    case Text(_) => []
    case Element(_, _, _, cs) => TextChildren(cs)
  }

  function TextChildren(cs: seq<Node>): seq<string>
    decreases |cs|
  {
    if cs == [] then []
    else TextChildren(cs[..|cs| - 1]) + (match cs[|cs| - 1] case Text(t) => [t] case Element(_, _, _, _) => [])
  }

  /** `get_text()`: every text node joined. */
  function AllText(n: Node): string {
    Concat(Texts(n))
  }

  /** `[t.strip() for t in ts]`. */
  function StripEach(ts: seq<string>): (r: seq<string>)
    ensures |r| == |ts|
    ensures forall i :: 0 <= i < |r| ==> r[i] == Strip(ts[i])
  {
    seq(|ts|, i requires 0 <= i < |ts| => Strip(ts[i]))
  }

  /** `get_text(strip=True)`: every text node stripped, the pieces joined with
      nothing in between. */
  function GetText(n: Node): string {
    Concat(StripEach(Texts(n)))
  }

  /** Joining texts with no whitespace at their ends gives a text with no
      whitespace at its ends. */
  lemma {:induction false} ConcatTrimmed(ss: seq<string>)
    requires forall i :: 0 <= i < |ss| ==> Trimmed(ss[i])
    ensures Trimmed(Concat(ss))
    decreases |ss|
  {
    if ss != [] {
      var init := ss[..|ss| - 1];
      ConcatTrimmed(init);
      var a, b := Concat(init), ss[|ss| - 1];
      assert Concat(ss) == a + b;
      if a != [] && b != [] {
        assert (a + b)[0] == a[0];
        assert (a + b)[|a + b| - 1] == b[|b| - 1];
      } else if a == [] {
        assert a + b == b;
      } else {
        assert a + b == a;
      }
    }
  }

  /** What `get_text(strip=True)` returns never starts or ends with whitespace. */
  lemma GetTextTrimmed(n: Node)
    ensures Trimmed(GetText(n))
  {
    ConcatTrimmed(StripEach(Texts(n)));
  }

  // ---------------------------------------------------------------------
  // Walking the tree
  // ---------------------------------------------------------------------

  /** An element reached from the root of a query: the child indices that lead
      to it, its ancestors from the root down to its parent, and the element. */
  datatype Visit = Visit(path: seq<nat>, ancestors: seq<Node>, node: Node)

  /** The result block itself, where every query of the parser starts. */
  function Root(n: Node): Visit {
    Visit([], [], n)
  }

  /** The elements strictly below `v`, in document order. */
  function Walk(v: Visit): seq<Visit>
    decreases v.node
  {
    match v.node
    case Text(_) => []
    case Element(_, _, _, cs) => WalkChildren(v, cs)
  }

  /** The children `cs` of `v` (a prefix of its children) and everything below them. */
  function WalkChildren(v: Visit, cs: seq<Node>): seq<Visit>
    decreases cs
  {
    if cs == [] then []
    else
      var i := |cs| - 1;
      var c := Visit(v.path + [i], v.ancestors + [v.node], cs[i]);
      WalkChildren(v, cs[..i]) + (if cs[i].Element? then [c] + Walk(c) else [])
  }

  /** Every visit of a walk is an element. */
  lemma {:induction false} WalkElements(v: Visit)
    ensures forall w :: w in Walk(v) ==> w.node.Element?
    decreases v.node, 1
  {
    match v.node
    case Text(_) =>
    case Element(_, _, _, cs) => WalkChildrenElements(v, cs);
  }

  lemma {:induction false} WalkChildrenElements(v: Visit, cs: seq<Node>)
    ensures forall w :: w in WalkChildren(v, cs) ==> w.node.Element?
    decreases cs, 0
  {
    if cs != [] {
      var i := |cs| - 1;
      var c := Visit(v.path + [i], v.ancestors + [v.node], cs[i]);
      WalkChildrenElements(v, cs[..i]);
      if cs[i].Element? {
        WalkElements(c);
      }
    }
  }

  // ---------------------------------------------------------------------
  // Queries
  // ---------------------------------------------------------------------

  /** The pseudo-classes the scrapers use: none, `:has(sel:contains(text))`
      and `:-soup-contains(text)` (the same test as `:contains`). */
  datatype Pseudo =
    | Plain
    | Has(inner: Selector, text: string)
    | ContainsText(text: string)

  datatype Compound = Compound(sel: Selector, pseudo: Pseudo)

  /** `c1 c2 ... target` with descendant combinators, or `parent > target`. */
  datatype Query =
    | Descendant(context: seq<Compound>, target: Compound)
    | ChildOf(parent: Selector, child: Selector)

  /** `tag.class1.class2` as a query. */
  function Q(tag: string, classes: set<string>): Query {
    Descendant([], Compound(Selector(tag, classes), Plain))
  }

  predicate HoldsAt(n: Node, c: Compound) {
    Is(n, c.sel) &&
    match c.pseudo
    case Plain => true
    case Has(inner, t) => exists w :: w in Walk(Root(n)) && Is(w.node, inner) && Contains(AllText(w.node), t)
    case ContainsText(t) => Contains(AllText(n), t)
  }

  /** The context compounds match ancestors in order, nearest ancestor last;
      each compound takes the nearest ancestor that fits it. */
  predicate ChainIn(ancestors: seq<Node>, chain: seq<Compound>)
    decreases |ancestors|
  {
    if chain == [] then true
    else if ancestors == [] then false
    else if HoldsAt(ancestors[|ancestors| - 1], chain[|chain| - 1]) then
      ChainIn(ancestors[..|ancestors| - 1], chain[..|chain| - 1])
    else ChainIn(ancestors[..|ancestors| - 1], chain)
  }

  predicate Matches(v: Visit, q: Query) {
    match q
    case Descendant(context, target) => HoldsAt(v.node, target) && ChainIn(v.ancestors, context)
    case ChildOf(parent, child) =>
      Is(v.node, child) && v.ancestors != [] && Is(v.ancestors[|v.ancestors| - 1], parent)
  }

  function Filter(vs: seq<Visit>, q: Query): (r: seq<Visit>)
    decreases |vs|
  {
    if vs == [] then []
    else Filter(vs[..|vs| - 1], q) + (if Matches(vs[|vs| - 1], q) then [vs[|vs| - 1]] else [])
  }

  /** `scope.select(q)`: the matching elements below `scope`, in document order. */
  function Select(scope: Visit, q: Query): seq<Visit> {
    Filter(Walk(scope), q)
  }

  /** `scope.select_one(q)`, and `scope.find(...)` for a plain selector. */
  function SelectOne(scope: Visit, q: Query): Option<Visit> {
    var r := Select(scope, q);
    if r == [] then None else Some(r[0])
  }

  /** Filtering keeps exactly the matching visits, in their order. */
  lemma FilterFacts(vs: seq<Visit>, q: Query)
    ensures forall w :: w in Filter(vs, q) <==> w in vs && Matches(w, q)
    ensures Filter(vs, q) != [] ==>
      (exists i :: 0 <= i < |vs| && vs[i] == Filter(vs, q)[0] &&
         forall j :: 0 <= j < i ==> !Matches(vs[j], q))
  {
    FilterMembers(vs, q);
    FilterFirst(vs, q);
  }

  lemma {:induction false} FilterMembers(vs: seq<Visit>, q: Query)
    ensures forall w :: w in Filter(vs, q) <==> w in vs && Matches(w, q)
    decreases |vs|
  {
    if vs != [] {
      var init := vs[..|vs| - 1];
      FilterMembers(init, q);
      assert vs == init + [vs[|vs| - 1]];
    }
  }

  lemma {:induction false} FilterFirst(vs: seq<Visit>, q: Query)
    ensures Filter(vs, q) != [] ==>
      (exists i :: 0 <= i < |vs| && vs[i] == Filter(vs, q)[0] &&
         forall j :: 0 <= j < i ==> !Matches(vs[j], q))
    decreases |vs|
  {
    if vs != [] {
      var init := vs[..|vs| - 1];
      FilterFirst(init, q);
      if Filter(init, q) != [] {
        var i :| 0 <= i < |init| && init[i] == Filter(init, q)[0] && forall j :: 0 <= j < i ==> !Matches(init[j], q);
        assert vs[i] == init[i];
        assert forall j :: 0 <= j < i ==> vs[j] == init[j];
      } else if Matches(vs[|vs| - 1], q) {
        FilterMembers(init, q);
        forall j | 0 <= j < |init|
          ensures !Matches(vs[j], q)
        {
          assert vs[j] == init[j] && init[j] in init;
        }
      }
    }
  }

  /** `select_one` gives the first match in document order, and None exactly
      when nothing below the scope matches. */
  lemma SelectOneFirst(scope: Visit, q: Query)
    ensures SelectOne(scope, q).None? <==> forall w :: w in Walk(scope) ==> !Matches(w, q)
    ensures SelectOne(scope, q).Some? ==>
      (exists i :: 0 <= i < |Walk(scope)| &&
         Walk(scope)[i] == SelectOne(scope, q).value && Matches(Walk(scope)[i], q) &&
         forall j :: 0 <= j < i ==> !Matches(Walk(scope)[j], q))
  {
    var r := Filter(Walk(scope), q);
    FilterFacts(Walk(scope), q);
    if r != [] {
      assert r[0] in r;
    }
  }

  // ---------------------------------------------------------------------
  // Toggle controls
  // ---------------------------------------------------------------------

  /** The controls removed from info items before anything is read. */
  const ToggleClasses: set<string> := {"ver-todos", "ver-menos", "ver-todos-2", "ver-menos-2"}

  /** `div.ver-todos, div.ver-menos, div.ver-todos-2, div.ver-menos-2`. */
  predicate IsToggle(n: Node) {
    n.Element? && n.tag == "div" && n.classes * ToggleClasses != {}
  }

  /** `n` with every toggle control that lies inside a list item removed;
      `inLi` says whether `n` already lies inside one. */
  function Prune(n: Node, inLi: bool): Node
    decreases n
  {
    match n
    case Text(_) => n
    case Element(tag, classes, attrs, cs) => Element(tag, classes, attrs, PruneChildren(cs, inLi || tag == "li"))
  }

  function PruneChildren(cs: seq<Node>, inLi: bool): seq<Node>
    decreases cs
  {
    if cs == [] then []
    else
      var c := cs[|cs| - 1];
      PruneChildren(cs[..|cs| - 1], inLi) + (if inLi && IsToggle(c) then [] else [Prune(c, inLi)])
  }

  /** No toggle control lies inside a list item of `n`. */
  predicate NoToggle(n: Node, inLi: bool)
    decreases n
  {
    match n
    case Text(_) => true
    case Element(tag, _, _, cs) => NoToggleIn(cs, inLi || tag == "li")
  }

  predicate NoToggleIn(cs: seq<Node>, inLi: bool)
    decreases cs
  {
    forall i :: 0 <= i < |cs| ==> !(inLi && IsToggle(cs[i])) && NoToggle(cs[i], inLi)
  }

  /** After pruning no toggle control is left inside any list item. */
  lemma {:induction false} PruneRemovesToggles(n: Node, inLi: bool)
    ensures NoToggle(Prune(n, inLi), inLi)
    decreases n, 1
  {
    match n
    case Text(_) =>
    case Element(tag, _, _, cs) => PruneChildrenRemovesToggles(cs, inLi || tag == "li");
  }

  lemma {:induction false} PruneChildrenRemovesToggles(cs: seq<Node>, inLi: bool)
    ensures NoToggleIn(PruneChildren(cs, inLi), inLi)
    decreases cs, 0
  {
    if cs != [] {
      var c := cs[|cs| - 1];
      PruneChildrenRemovesToggles(cs[..|cs| - 1], inLi);
      if !(inLi && IsToggle(c)) {
        PruneRemovesToggles(c, inLi);
        assert Prune(c, inLi).Element? <==> c.Element?;
      }
    }
  }

  /** Pruning leaves a tree without toggle controls as it is, so pruning twice
      is pruning once. */
  lemma {:induction false} PruneKeepsClean(n: Node, inLi: bool)
    requires NoToggle(n, inLi)
    ensures Prune(n, inLi) == n
    decreases n, 1
  {
    match n
    case Text(_) =>
    case Element(tag, _, _, cs) => PruneChildrenKeepsClean(cs, inLi || tag == "li");
  }

  lemma {:induction false} PruneChildrenKeepsClean(cs: seq<Node>, inLi: bool)
    requires NoToggleIn(cs, inLi)
    ensures PruneChildren(cs, inLi) == cs
    decreases cs, 0
  {
    if cs != [] {
      var init := cs[..|cs| - 1];
      assert NoToggleIn(init, inLi) by {
        forall i | 0 <= i < |init|
          ensures !(inLi && IsToggle(init[i])) && NoToggle(init[i], inLi)
        {
          assert init[i] == cs[i];
        }
      }
      var c := cs[|cs| - 1];
      assert !(inLi && IsToggle(c)) && NoToggle(c, inLi);
      assert PruneChildren(cs, inLi) == PruneChildren(init, inLi) + [Prune(c, inLi)];
      PruneChildrenKeepsClean(init, inLi);
      PruneKeepsClean(c, inLi);
      assert cs == init + [c];
    }
  }

  lemma PruneIdempotent(n: Node, inLi: bool)
    ensures Prune(Prune(n, inLi), inLi) == Prune(n, inLi)
  {
    PruneRemovesToggles(n, inLi);
    PruneKeepsClean(Prune(n, inLi), inLi);
  }

  /** The node at a path of child indices. */
  function At(n: Node, path: seq<nat>): Option<Node>
    decreases |path|
  {
    if path == [] then Some(n)
    else
      match n
      case Text(_) => None
      case Element(_, _, _, cs) => if path[0] < |cs| then At(cs[path[0]], path[1..]) else None
  }

  /** `n` with the node at `path` replaced by `m`. */
  function ReplaceAt(n: Node, path: seq<nat>, m: Node): Node
    decreases |path|
  {
    if path == [] then m
    else
      match n
      case Text(_) => n
      case Element(tag, classes, attrs, cs) =>
        if path[0] < |cs| then Element(tag, classes, attrs, cs[path[0] := ReplaceAt(cs[path[0]], path[1..], m)])
        else n
  }

  /** After a replacement the new node sits where the old one was. */
  lemma {:induction false} ReplaceAtAt(n: Node, path: seq<nat>, m: Node)
    requires At(n, path).Some?
    ensures At(ReplaceAt(n, path, m), path) == Some(m)
    decreases |path|
  {
    if path != [] {
      ReplaceAtAt(n.children[path[0]], path[1..], m);
    }
  }

  /** A walk finds every element at the path it reports. */
  lemma {:induction false} WalkAt(root: Node, v: Visit)
    requires At(root, v.path) == Some(v.node)
    ensures forall w :: w in Walk(v) ==> At(root, w.path) == Some(w.node)
    decreases v.node, 1
  {
    match v.node
    case Text(_) =>
    case Element(_, _, _, cs) => WalkChildrenAt(root, v, cs);
  }

  lemma {:induction false} WalkChildrenAt(root: Node, v: Visit, cs: seq<Node>)
    requires At(root, v.path) == Some(v.node)
    requires v.node.Element? && cs <= v.node.children
    ensures forall w :: w in WalkChildren(v, cs) ==> At(root, w.path) == Some(w.node)
    decreases cs, 0
  {
    if cs != [] {
      var i := |cs| - 1;
      var c := Visit(v.path + [i], v.ancestors + [v.node], cs[i]);
      WalkChildrenAt(root, v, cs[..i]);
      AtExtend(root, v.path, v.node, i);
      if cs[i].Element? {
        WalkAt(root, c);
      }
    }
  }

  lemma {:induction false} AtExtend(root: Node, path: seq<nat>, n: Node, i: nat)
    requires At(root, path) == Some(n) && n.Element? && i < |n.children|
    ensures At(root, path + [i]) == Some(n.children[i])
    decreases |path|
  {
    if path != [] {
      var c := root.children[path[0]];
      assert (path + [i])[1..] == path[1..] + [i];
      AtExtend(c, path[1..], n, i);
    }
  }

  // ---------------------------------------------------------------------
  // The info list
  // ---------------------------------------------------------------------

  /** `bloque.find("ul", class_="info")`. */
  function InfoList(b: Node): Option<Visit> {
    SelectOne(Root(b), Q("ul", {"info"}))
  }

  /** The block after the toggle controls inside the info list's items were
      removed in place. */
  function PruneBlock(b: Node): Node {
    match InfoList(b)
    case None => b
    case Some(v) => ReplaceAt(b, v.path, Prune(v.node, false))
  }

  /** `info_items`: the list items of the pruned info list. */
  function InfoItems(b: Node): seq<Visit>
    requires InfoList(b).Some?
  {
    var v := InfoList(b).value;
    Select(Visit(v.path, v.ancestors, Prune(v.node, false)), Q("li", {}))
  }

  /** The pruned block holds the pruned info list where the original one was,
      and no toggle control is left in its items. */
  lemma PruneBlockFacts(b: Node)
    requires InfoList(b).Some?
    ensures var v := InfoList(b).value;
      At(PruneBlock(b), v.path) == Some(Prune(v.node, false)) && NoToggle(Prune(v.node, false), false)
  {
    var v := InfoList(b).value;
    SelectOneFirst(Root(b), Q("ul", {"info"}));
    WalkAt(b, Root(b));
    ReplaceAtAt(b, v.path, Prune(v.node, false));
    PruneRemovesToggles(v.node, false);
  }
}
