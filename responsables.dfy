/**
 * parsear_responsables (etl_expedientes.py): the magistrates listed in a
 * "responsables" cell. The cell is cut into blocks at every `;` and every
 * newline; each block is searched with case-insensitive patterns of the form
 * `Label:\s*([^|]+)` and keeps a magistrate when its name is not blank.
 */
module Responsables {
  import opened Optional
  import opened Strings
  import opened EtlText

  // ---------------------------------------------------------------------
  // The pieces of one regular expression
  // ---------------------------------------------------------------------

  /** `s` begins with the lower-case `label`, letters compared as `re.I` does. */
  predicate PrefixCI(s: string, tag: string)
    decreases |tag|
  {
    tag == [] || (s != [] && LowerChar(s[0]) == tag[0] && PrefixCI(s[1..], tag[1..]))
  }

  /** A case-insensitive prefix fixes every character of the label that has
      no case, such as the colon. */
  lemma {:induction false} PrefixCIAt(s: string, tag: string, j: nat)
    requires PrefixCI(s, tag) && j < |tag|
    ensures j < |s| && LowerChar(s[j]) == tag[j]
    decreases |tag|
  {
    if j > 0 {
      PrefixCIAt(s[1..], tag[1..], j - 1);
    }
  }

  /** The length of the leading whitespace run: what a greedy `\s*` takes. */
  function SpaceRun(s: string): (k: nat)
    ensures k <= |s|
    ensures forall i :: 0 <= i < k ==> IsSpace(s[i])
    ensures k < |s| ==> !IsSpace(s[k])
    decreases |s|
  {
    if s != [] && IsSpace(s[0]) then 1 + SpaceRun(s[1..]) else 0
  }

  /** The longest prefix without a `|`: what a greedy `[^|]+` takes. */
  function PipeRun(s: string): (r: string)
    ensures |r| <= |s| && r == s[..|r|]
    ensures '|' !in r
    ensures |r| < |s| ==> s[|r|] == '|'
    decreases |s|
  {
    if s == [] || s[0] == '|' then []
    else
      var t := PipeRun(s[1..]);
      assert [s[0]] + t == s[..|t| + 1];
      [s[0]] + t
  }

  lemma {:induction false} PipeRunAll(s: string)
    requires '|' !in s
    ensures PipeRun(s) == s
  {
  }

  /** `label\s*([^|]+)` matches at position `i`: the label, then at least one
      character that is not `|` (whitespace included). */
  predicate MatchAt(b: string, i: nat, tag: string) {
    i + |tag| < |b| && PrefixCI(b[i..], tag) && b[i + |tag|] != '|'
  }

  /** The captured group after the label: a greedy `\s*`, then `[^|]+`. When
      only a `|` or the end follows the whitespace, `\s*` gives back its last
      character and the group is that one whitespace character. */
  function Group(rest: string): (g: string)
    requires rest != [] && rest[0] != '|'
    ensures g != [] && '|' !in g
  {
    var k := SpaceRun(rest);
    if k < |rest| && rest[k] != '|' then PipeRun(rest[k..]) else rest[k - 1..k]
  }

  /** The first alternative of the pattern that matches at `i`. */
  function FirstLabel(b: string, i: nat, labels: seq<string>): (r: Option<string>)
    ensures r.Some? ==> r.value in labels && MatchAt(b, i, r.value)
    ensures r.None? ==> forall l :: l in labels ==> !MatchAt(b, i, l)
    decreases |labels|
  {
    if labels == [] then None
    else if MatchAt(b, i, labels[0]) then Some(labels[0])
    else FirstLabel(b, i, labels[1..])
  }

  /** The group the pattern captures when it matches at `i`. */
  function MatchGroup(b: string, i: nat, labels: seq<string>): (r: Option<string>)
    ensures r.None? <==> FirstLabel(b, i, labels).None?
  {
    match FirstLabel(b, i, labels)
    case Some(l) => Some(Group(b[i + |l|..]))
    case None => None
  }

  /** `re.search`: the group of the leftmost match at or after `i`. */
  function SearchFrom(b: string, labels: seq<string>, i: nat): Option<string>
    decreases |b| - i
  {
    if i >= |b| then None
    else if MatchGroup(b, i, labels).Some? then MatchGroup(b, i, labels)
    else SearchFrom(b, labels, i + 1)
  }

  /** The search finds nothing exactly when no alternative matches anywhere
      at or after `i`. */
  lemma {:induction false} SearchNone(b: string, labels: seq<string>, i: nat)
    ensures SearchFrom(b, labels, i).None? <==> forall j :: i <= j < |b| ==> FirstLabel(b, j, labels).None?
    decreases |b| - i
  {
    if i < |b| {
      if MatchGroup(b, i, labels).None? {
        SearchNone(b, labels, i + 1);
        assert FirstLabel(b, i, labels).None?;
      } else {
        assert FirstLabel(b, i, labels).Some?;
      }
    }
  }

  /** A search that succeeds returns the group of the leftmost match. */
  lemma {:induction false} SearchLeftmost(b: string, labels: seq<string>, i: nat)
    requires SearchFrom(b, labels, i).Some?
    ensures exists j :: (i <= j < |b| && SearchFrom(b, labels, i) == MatchGroup(b, j, labels)
      && forall j' :: i <= j' < j ==> MatchGroup(b, j', labels).None?)
    decreases |b| - i
  {
    if MatchGroup(b, i, labels).None? {
      SearchLeftmost(b, labels, i + 1);
      var j :| i + 1 <= j < |b| && SearchFrom(b, labels, i + 1) == MatchGroup(b, j, labels)
        && forall j' :: i + 1 <= j' < j ==> MatchGroup(b, j', labels).None?;
      assert forall j' :: i <= j' < j ==> MatchGroup(b, j', labels).None?;
    }
  }

  /** A label ending in a colon matches only where the text has that colon. */
  lemma ColonOfMatch(b: string, i: nat, tag: string)
    requires MatchAt(b, i, tag) && tag != [] && tag[|tag| - 1] == ':'
    ensures b[i + |tag| - 1] == ':'
  {
    PrefixCIAt(b[i..], tag, |tag| - 1);
  }

  // ---------------------------------------------------------------------
  // One block
  // ---------------------------------------------------------------------

  const NameLabels: seq<string> := ["nombre:"]
  const RoleLabels: seq<string> := ["cargo:"]
  const EmailLabels: seq<string> := ["email:"]
  /** `(Tel|Teléfono):`, the shorter alternative tried first. */
  const PhoneLabels: seq<string> := ["tel:", "teléfono:"]
  const StatusLabels: seq<string> := ["situación:"]

  /** `limpiar_texto(m.group(...)) if m else None`. */
  function Captured(b: string, labels: seq<string>): Option<string> {
    match SearchFrom(b, labels, 0)
    case None => None
    case Some(g) => CleanText(Some(g))
  }

  datatype Magistrate = Magistrate(
    name: string,
    role: Option<string>,
    email: Option<string>,
    phone: Option<string>,
    status: Option<string>)

  /** The magistrate a block describes, when its name is not blank. */
  function MagistrateOf(b: string): Option<Magistrate> {
    var name := Captured(b, NameLabels);
    if name.Some? then
      Some(Magistrate(name.value, Captured(b, RoleLabels), Captured(b, EmailLabels),
                      Captured(b, PhoneLabels), Captured(b, StatusLabels)))
    else None
  }

  /** Every captured field is a cleaned text: non-empty, trimmed, single-spaced. */
  lemma CapturedClean(b: string, labels: seq<string>)
    ensures Captured(b, labels).Some? ==> Collapsed(Captured(b, labels).value)
  {
    match SearchFrom(b, labels, 0)
    case None =>
    case Some(g) => CleanTextCollapsed(Some(g));
  }

  /** A block yields a magistrate exactly when the name pattern matches and
      its group is not blank; the name is then a cleaned text. */
  lemma MagistrateOfName(b: string)
    ensures MagistrateOf(b).Some? <==>
      SearchFrom(b, NameLabels, 0).Some? && !AllSpace(SearchFrom(b, NameLabels, 0).value)
    ensures MagistrateOf(b).Some? ==> Collapsed(MagistrateOf(b).value.name)
  {
    CapturedClean(b, NameLabels);
  }

  // ---------------------------------------------------------------------
  // Blocks
  // ---------------------------------------------------------------------

  predicate IsSeparator(c: char) {
    c == ';' || c == '\n'
  }

  predicate NoSeparator(s: string) {
    forall i :: 0 <= i < |s| ==> !IsSeparator(s[i])
  }

  /** `re.split(r";|\n", texto)`: the pieces between separators, empty ones included. */
  function Pieces(s: string): (ps: seq<string>)
    ensures |ps| >= 1
    ensures forall k :: 0 <= k < |ps| ==> NoSeparator(ps[k])
    decreases |s|
  {
    if s == [] then [[]]
    else
      var rest := Pieces(s[1..]);
      if IsSeparator(s[0]) then [[]] + rest
      else [[s[0]] + rest[0]] + rest[1..]
  }

  /** A text without separators is one piece. */
  lemma {:induction false} PiecesNone(s: string)
    requires NoSeparator(s)
    ensures Pieces(s) == [s]
    decreases |s|
  {
    if s != [] {
      PiecesNone(s[1..]);
      assert [s[0]] + s[1..] == s;
    }
  }

  /** A separator ends a piece: splitting `a` + separator + `b` gives `a`,
      then the pieces of `b`. */
  lemma {:induction false} PiecesSplit(a: string, c: char, b: string)
    requires NoSeparator(a) && IsSeparator(c)
    ensures Pieces(a + [c] + b) == [a] + Pieces(b)
    decreases |a|
  {
    var s := a + [c] + b;
    if a == [] {
      assert s[1..] == b;
    } else {
      assert s[1..] == a[1..] + [c] + b;
      PiecesSplit(a[1..], c, b);
      assert [a[0]] + a[1..] == a;
    }
  }

  /** `[b.strip() for b in pieces if b.strip()]`. */
  function Blocks(ps: seq<string>): (bs: seq<string>)
    ensures |bs| <= |ps|
    ensures IsBlockList(bs)
    decreases |ps|
  {
    if ps == [] then []
    else
      var rest := Blocks(ps[1..]);
      var b := Strip(ps[0]);
      if b != [] then BlockListCons(b, rest); [b] + rest else rest
  }

  /** Blocks are stripped and not empty. */
  predicate IsBlockList(bs: seq<string>) {
    forall k :: 0 <= k < |bs| ==> bs[k] != [] && Trimmed(bs[k])
  }

  lemma BlockListCons(b: string, bs: seq<string>)
    requires b != [] && Trimmed(b) && IsBlockList(bs)
    ensures IsBlockList([b] + bs)
  {
    forall k | 0 <= k < |[b] + bs| ensures ([b] + bs)[k] != [] && Trimmed(([b] + bs)[k]) {
      if k > 0 {
        assert ([b] + bs)[k] == bs[k - 1];
      }
    }
  }

  /** The magistrates of the blocks, in block order. */
  function MagistratesOfBlocks(bs: seq<string>): seq<Magistrate>
    decreases |bs|
  {
    if bs == [] then []
    else
      Keep(MagistratesOfBlocks(bs[..|bs| - 1]), MagistrateOf(bs[|bs| - 1]))
  }

  /** `if nombre: mags.append(...)`. */
  function Keep(mags: seq<Magistrate>, m: Option<Magistrate>): seq<Magistrate> {
    if m.Some? then mags + [m.value] else mags
  }

  /** parsear_responsables: nothing for a blank text (one whose `strip()` is
      empty, see `StripEmpty`), otherwise the magistrates of its blocks. */
  function Magistrates(texto: string): seq<Magistrate> {
    if AllSpace(texto) then [] else MagistratesOfBlocks(Blocks(Pieces(texto)))
  }

  /** Every magistrate comes from a block and has a cleaned, non-empty name. */
  lemma {:induction false} MagistratesOfBlocksNames(bs: seq<string>)
    ensures forall k :: 0 <= k < |MagistratesOfBlocks(bs)| ==>
      Collapsed(MagistratesOfBlocks(bs)[k].name)
      && exists i :: 0 <= i < |bs| && MagistrateOf(bs[i]) == Some(MagistratesOfBlocks(bs)[k])
    decreases |bs|
  {
    if bs != [] {
      var init := bs[..|bs| - 1];
      MagistratesOfBlocksNames(init);
      MagistrateOfName(bs[|bs| - 1]);
      var ms := MagistratesOfBlocks(bs);
      forall k | 0 <= k < |ms|
        ensures Collapsed(ms[k].name) && exists i :: 0 <= i < |bs| && MagistrateOf(bs[i]) == Some(ms[k])
      {
        if k < |MagistratesOfBlocks(init)| {
          var i :| 0 <= i < |init| && MagistrateOf(init[i]) == Some(MagistratesOfBlocks(init)[k]);
          assert bs[i] == init[i];
        } else {
          assert MagistrateOf(bs[|bs| - 1]) == Some(ms[k]);
        }
      }
    }
  }

  /** parsear_responsables with its loop over the blocks. */
  method ParseResponsables(texto: string) returns (mags: seq<Magistrate>)
    ensures mags == Magistrates(texto)
  {
    mags := [];
    if AllSpace(texto) {
      return;
    }
    mags := ReadBlocks(Blocks(Pieces(texto)));
  }

  /** The loop of parsear_responsables over the blocks. */
  method ReadBlocks(bs: seq<string>) returns (mags: seq<Magistrate>)
    ensures mags == MagistratesOfBlocks(bs)
  {
    mags := [];
    for k := 0 to |bs|
      invariant mags == MagistratesOfBlocks(bs[..k])
    {
      assert bs[..k + 1][..k] == bs[..k];
      mags := Keep(mags, MagistrateOf(bs[k]));
    }
    assert bs[..|bs|] == bs;
  }

  // ---------------------------------------------------------------------
  // A block that holds only a name
  // ---------------------------------------------------------------------

  /** `"Nombre: " + x` reads back as the magistrate `x` with no other field,
      for a cleaned name without colons, bars or separators. */
  lemma NameRoundTrip(x: string)
    requires Collapsed(x) && ':' !in x && '|' !in x && NoSeparator(x)
    ensures Magistrates("Nombre: " + x) == [Magistrate(x, None, None, None, None)]
  {
    var b := "Nombre: " + x;
    NameBlockIsOneBlock(x);
    NameBlockMagistrate(x);
    assert MagistratesOfBlocks([b]) == Keep(MagistratesOfBlocks([]), MagistrateOf(b));
  }

  lemma NameBlockIsOneBlock(x: string)
    requires Collapsed(x) && NoSeparator(x)
    ensures !AllSpace("Nombre: " + x) && Blocks(Pieces("Nombre: " + x)) == ["Nombre: " + x]
  {
    var b := "Nombre: " + x;
    assert !IsSpace(b[0]);
    assert NoSeparator(b) by {
      forall i | 0 <= i < |b| ensures !IsSeparator(b[i]) {
        if i >= 8 {
          assert b[i] == x[i - 8];
        }
      }
    }
    PiecesNone(b);
    assert Trimmed(b) by {
      assert b[|b| - 1] == x[|x| - 1];
    }
    StripTrimmed(b);
    assert Blocks([b]) == [b];
  }

  lemma NameBlockMagistrate(x: string)
    requires Collapsed(x) && ':' !in x && '|' !in x
    ensures MagistrateOf("Nombre: " + x) == Some(Magistrate(x, None, None, None, None))
  {
    var b := "Nombre: " + x;
    ColonOnlyAt6(x);
    NameOfBlock(x);
    OtherLabelsMiss(b);
    NoOtherField(b, RoleLabels);
    NoOtherField(b, EmailLabels);
    NoOtherField(b, PhoneLabels);
    NoOtherField(b, StatusLabels);
  }

  /** A label ending in a colon that could end at position 6 does not start
      where the block's text would have it start. */
  predicate MissesColonAt6(b: string, tag: string) {
    tag != [] && tag[|tag| - 1] == ':' && (|tag| <= 7 ==> 7 - |tag| < |b| && LowerChar(b[7 - |tag|]) != tag[0])
  }

  /** Every other label of the pattern misses a block that opens with "Nombre: ". */
  lemma OtherLabelsMiss(b: string)
    requires |b| >= 8 && b[..8] == "Nombre: "
    ensures forall l :: l in RoleLabels ==> MissesColonAt6(b, l)
    ensures forall l :: l in EmailLabels ==> MissesColonAt6(b, l)
    ensures forall l :: l in PhoneLabels ==> MissesColonAt6(b, l)
    ensures forall l :: l in StatusLabels ==> MissesColonAt6(b, l)
  {
    assert b[1] == 'o' && b[3] == 'b';
  }

  lemma ColonOnlyAt6(x: string)
    requires ':' !in x
    ensures forall i :: 0 <= i < |"Nombre: " + x| && ("Nombre: " + x)[i] == ':' ==> i == 6
  {
  }

  lemma NameOfBlock(x: string)
    requires Collapsed(x) && '|' !in x
    ensures Captured("Nombre: " + x, NameLabels) == Some(x)
  {
    var b := "Nombre: " + x;
    NameBlockPrefix(x);
    var rest := b[7..];
    assert MatchAt(b, 0, "nombre:");
    assert FirstLabel(b, 0, NameLabels) == Some("nombre:");
    assert rest[1..] == x;
    assert SpaceRun(rest) == 1;
    PipeRunAll(x);
    assert Group(rest) == x;
    assert SearchFrom(b, NameLabels, 0) == Some(x);
    CleanTextFixes(x);
  }

  /** The block opens with the name label, then one space and the name. */
  lemma NameBlockPrefix(x: string)
    requires x != []
    ensures var b := "Nombre: " + x;
      |b| > 8 && PrefixCI(b, "nombre:") && b[7..] == [' '] + x
  {
    var b := "Nombre: " + x;
    assert b[..7] == "Nombre:" && b[7] == ' ' && b[8..] == x;
    assert b[1..][1..][1..][1..][1..][1..][1..] == b[7..];
  }

  /** Only the name label ends at the one colon of the block, so no other
      pattern matches. */
  lemma NoOtherField(b: string, labels: seq<string>)
    requires forall l :: l in labels ==> MissesColonAt6(b, l)
    requires forall i :: 0 <= i < |b| && b[i] == ':' ==> i == 6
    ensures Captured(b, labels) == None
  {
    forall j | 0 <= j < |b| ensures FirstLabel(b, j, labels).None? {
      forall l | l in labels ensures !MatchAt(b, j, l) {
        if MatchAt(b, j, l) {
          ColonOfMatch(b, j, l);
          PrefixCIAt(b[j..], l, 0);
        }
      }
    }
    SearchNone(b, labels, 0);
  }
}
