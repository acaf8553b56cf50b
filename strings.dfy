/** A stock optional value: Python's `None` beside a present value. */
module Optional {
  datatype Option<+T> = None | Some(value: T)
}

/**
 * The handful of Python `str` operations the scrapers and the ETL rely on,
 * over `string` (a sequence of Unicode scalar values, as Python indexes
 * strings by code point).
 */
module Strings {
  import opened Optional

  // ---------------------------------------------------------------------
  // Character classes
  // ---------------------------------------------------------------------

  /** `c.isspace()`: the code points CPython treats as whitespace. `str.split()`,
      `str.strip()` and the regular-expression class `\s` all use this set. */
  predicate IsSpace(c: char) {
    var k := c as int;
    (9 <= k <= 13) || (28 <= k <= 32) || k == 0x85 || k == 0xA0 || k == 0x1680
    || (0x2000 <= k <= 0x200A) || k == 0x2028 || k == 0x2029 || k == 0x202F
    || k == 0x205F || k == 0x3000
  }

  /** The regular-expression class `\d`, restricted to ASCII digits. */
  predicate IsDigit(c: char) {
    '0' <= c <= '9'
  }

  /** The regular-expression class `\w`: letters, digits and `_`, for the
      ASCII and Latin-1 ranges. */
  predicate IsWordChar(c: char) {
    var k := c as int;
    ('a' <= c <= 'z') || ('A' <= c <= 'Z') || IsDigit(c) || c == '_'
    || k == 0xAA || k == 0xB2 || k == 0xB3 || k == 0xB5 || k == 0xB9 || k == 0xBA
    || (0xBC <= k <= 0xBE) || (0xC0 <= k <= 0xD6) || (0xD8 <= k <= 0xF6) || (0xF8 <= k <= 0xFF)
  }

  /** `c.upper()` for ASCII and Latin-1 letters; every other character is kept. */
  function UpperChar(c: char): char {
    var k := c as int;
    if 'a' <= c <= 'z' then (k - 32) as char
    else if 0xE0 <= k <= 0xFE && k != 0xF7 then (k - 32) as char
    else if k == 0xFF then 0x178 as char
    else if k == 0xB5 then 0x39C as char
    else c
  }

  /** `c.lower()` for ASCII and Latin-1 letters, as case-insensitive matching uses it. */
  function LowerChar(c: char): char {
    var k := c as int;
    if 'A' <= c <= 'Z' then (k + 32) as char
    else if 0xC0 <= k <= 0xDE && k != 0xD7 then (k + 32) as char
    else c
  }

  predicate NoSpace(s: string) {
    forall i :: 0 <= i < |s| ==> !IsSpace(s[i])
  }

  predicate AllSpace(s: string) {
    forall i :: 0 <= i < |s| ==> IsSpace(s[i])
  }

  predicate AllDigits(s: string) {
    forall i :: 0 <= i < |s| ==> IsDigit(s[i])
  }

  /** No whitespace at either end. */
  predicate Trimmed(s: string) {
    s == [] || (!IsSpace(s[0]) && !IsSpace(s[|s| - 1]))
  }

  /** `s.lower()`. */
  function Lower(s: string): (r: string)
    ensures |r| == |s| && forall i :: 0 <= i < |s| ==> r[i] == LowerChar(s[i])
  {
    seq(|s|, i requires 0 <= i < |s| => LowerChar(s[i]))
  }

  /** `s.capitalize()`: the first character upper-cased, the rest lower-cased. */
  function Capitalize(s: string): (r: string)
    ensures |r| == |s|
    ensures s != [] ==> r[0] == UpperChar(s[0]) && r[1..] == Lower(s[1..])
  {
    if s == [] then [] else [UpperChar(s[0])] + Lower(s[1..])
  }

  /** `s.upper()`. */
  function Upper(s: string): (r: string)
    ensures |r| == |s|
    decreases |s|
  {
    if s == [] then [] else [UpperChar(s[0])] + Upper(s[1..])
  }

  /** Upper-casing works character by character. */
  lemma {:induction false} UpperAt(s: string)
    ensures forall i :: 0 <= i < |s| ==> Upper(s)[i] == UpperChar(s[i])
    decreases |s|
  {
    if s != [] {
      UpperAt(s[1..]);
    }
  }

  lemma {:induction false} UpperAppend(a: string, b: string)
    ensures Upper(a + b) == Upper(a) + Upper(b)
    decreases |a|
  {
    if a != [] {
      assert (a + b)[1..] == a[1..] + b;
      UpperAppend(a[1..], b);
      assert Upper(a + b) == [UpperChar(a[0])] + Upper(a[1..] + b);
      assert Upper(a) == [UpperChar(a[0])] + Upper(a[1..]);
    } else {
      assert a + b == b;
    }
  }

  // ---------------------------------------------------------------------
  // Prefixes, search and substrings
  // ---------------------------------------------------------------------

  /** `s.startswith(p)`. */
  predicate StartsWith(s: string, p: string) {
    |p| <= |s| && s[..|p|] == p
  }

  /** `t in s`. */
  predicate Contains(s: string, t: string)
    decreases |s|
  {
    StartsWith(s, t) || (s != [] && Contains(s[1..], t))
  }

  lemma {:induction false} ContainsAt(s: string, t: string, i: nat)
    requires i + |t| <= |s| && s[i..i + |t|] == t
    ensures Contains(s, t)
    decreases i
  {
    if i > 0 {
      assert s[1..][i - 1..i - 1 + |t|] == t;
      ContainsAt(s[1..], t, i - 1);
    }
  }

  lemma {:induction false} ContainsMiddle(a: string, t: string, b: string)
    ensures Contains(a + t + b, t)
  {
    var s := a + t + b;
    assert s[|a|..|a| + |t|] == t;
    ContainsAt(s, t, |a|);
  }

  /** The index of the first occurrence of `c` in `s`, if any. */
  function IndexOf(s: string, c: char): (r: Option<nat>)
    ensures r.None? <==> c !in s
    ensures r.Some? ==> r.value < |s| && s[r.value] == c && c !in s[..r.value]
    decreases |s|
  {
    if s == [] then None
    else if s[0] == c then Some(0)
    else match IndexOf(s[1..], c)
      case None => None
      case Some(i) => Some(i + 1)
  }

  lemma {:induction false} IndexOfJoin(a: string, c: char, b: string)
    requires c !in a
    ensures IndexOf(a + [c] + b, c) == Some(|a|)
  {
    var s := a + [c] + b;
    var r := IndexOf(s, c);
    assert s[|a|] == c;
    assert s[..|a|] == a;
    assert forall j :: |a| < j <= |s| ==> s[..j][|a|] == c;
  }

  // ---------------------------------------------------------------------
  // strip()
  // ---------------------------------------------------------------------

  /** `s.lstrip()`: drops leading whitespace only. */
  function LStrip(s: string): (r: string)
    ensures |r| <= |s| && r == s[|s| - |r|..]
    ensures AllSpace(s[..|s| - |r|])
    ensures r == [] || !IsSpace(r[0])
    decreases |s|
  {
    if s != [] && IsSpace(s[0]) then
      var r := LStrip(s[1..]);
      assert s[..|s| - |r|] == [s[0]] + s[1..][..|s[1..]| - |r|];
      r
    else s
  }

  /** `s.rstrip()`: drops trailing whitespace only. */
  function RStrip(s: string): (r: string)
    ensures |r| <= |s| && r == s[..|r|]
    ensures AllSpace(s[|r|..])
    ensures r == [] || !IsSpace(r[|r| - 1])
    decreases |s|
  {
    if s != [] && IsSpace(s[|s| - 1]) then
      var r := RStrip(s[..|s| - 1]);
      assert s[|r|..] == s[..|s| - 1][|r|..] + [s[|s| - 1]];
      r
    else s
  }

  /** `s.strip()`. */
  function Strip(s: string): (r: string)
    ensures Trimmed(r)
    ensures |r| <= |s|
  {
    var l := LStrip(s);
    var r := RStrip(l);
    assert r != [] ==> r[0] == l[0];
    r
  }

  lemma {:induction false} LStripSpaces(lead: string, s: string)
    requires AllSpace(lead)
    requires s == [] || !IsSpace(s[0])
    ensures LStrip(lead + s) == s
    decreases |lead|
  {
    if lead != [] {
      assert (lead + s)[1..] == lead[1..] + s;
      LStripSpaces(lead[1..], s);
    }
  }

  lemma {:induction false} RStripSpaces(s: string, trail: string)
    requires AllSpace(trail)
    requires s == [] || !IsSpace(s[|s| - 1])
    ensures RStrip(s + trail) == s
    decreases |trail|
  {
    if trail != [] {
      assert (s + trail)[..|s + trail| - 1] == s + trail[..|trail| - 1];
      RStripSpaces(s, trail[..|trail| - 1]);
    }
  }

  /** Stripping ignores any whitespace around a text that has none at its ends. */
  lemma {:induction false} StripPadded(lead: string, s: string, trail: string)
    requires AllSpace(lead) && AllSpace(trail) && Trimmed(s)
    ensures Strip(lead + s + trail) == s
  {
    if s == [] {
      assert lead + s + trail == lead + trail;
      assert AllSpace(lead + trail);
      LStripSpaces(lead + trail, []);
      assert lead + trail + [] == lead + trail;
    } else {
      assert lead + s + trail == lead + (s + trail);
      LStripSpaces(lead, s + trail);
      RStripSpaces(s, trail);
    }
  }

  lemma StripTrimmed(s: string)
    requires Trimmed(s)
    ensures Strip(s) == s
  {
    StripPadded([], s, []);
    assert [] + s + [] == s;
  }

  /** A text strips to nothing exactly when it is all whitespace. */
  lemma StripEmpty(s: string)
    ensures Strip(s) == [] <==> AllSpace(s)
  {
    var l := LStrip(s);
    if l != [] {
      assert l[0] == s[|s| - |l|];
    }
    if RStrip(l) == [] {
      assert l[0..] == l;
    }
    if l == [] {
      assert s[..|s|] == s;
    }
  }

  // ---------------------------------------------------------------------
  // split() and join()
  // ---------------------------------------------------------------------

  /** The longest prefix of `t` without whitespace. */
  function Token(t: string): (w: string)
    ensures |w| <= |t| && w == t[..|w|] && NoSpace(w)
    ensures |w| == |t| || IsSpace(t[|w|])
    decreases |t|
  {
    if t == [] || IsSpace(t[0]) then []
    else
      var w := Token(t[1..]);
      assert [t[0]] + w == t[..1 + |w|];
      [t[0]] + w
  }

  lemma {:induction false} TokenOf(w: string, rest: string)
    requires NoSpace(w)
    requires rest == [] || IsSpace(rest[0])
    ensures Token(w + rest) == w
    decreases |w|
  {
    if w != [] {
      assert (w + rest)[1..] == w[1..] + rest;
      TokenOf(w[1..], rest);
    } else {
      assert w + rest == rest;
    }
  }

  /** `s.split()`: the maximal runs of non-whitespace characters, in order. */
  function Words(s: string): (ws: seq<string>)
    ensures IsWordList(ws)
    decreases |s|
  {
    var t := LStrip(s);
    if t == [] then []
    else
      var w := Token(t);
      assert w != [] by {
        assert !IsSpace(t[0]);
      }
      var rest := Words(t[|w|..]);
      WordListCons(w, rest);
      [w] + rest
  }

  lemma WordListCons(w: string, ws: seq<string>)
    requires w != [] && NoSpace(w) && IsWordList(ws)
    ensures IsWordList([w] + ws)
  {
    forall i | 0 <= i < |[w] + ws| ensures ([w] + ws)[i] != [] && NoSpace(([w] + ws)[i]) {
      if i > 0 {
        assert ([w] + ws)[i] == ws[i - 1];
      }
    }
  }

  /** `sep.join(parts)`. */
  function Join(sep: string, parts: seq<string>): string
    decreases |parts|
  {
    if |parts| == 0 then []
    else if |parts| == 1 then parts[0]
    else parts[0] + sep + Join(sep, parts[1..])
  }

  predicate IsWordList(ws: seq<string>) {
    forall i :: 0 <= i < |ws| ==> ws[i] != [] && NoSpace(ws[i])
  }

  /** A text has no words exactly when it is all whitespace. */
  lemma WordsEmpty(s: string)
    ensures Words(s) == [] <==> AllSpace(s)
  {
    var l := LStrip(s);
    if l != [] {
      assert l[0] == s[|s| - |l|];
    }
    if l == [] {
      assert s[..|s|] == s;
    }
  }

  lemma {:induction false} JoinFirst(ws: seq<string>)
    requires IsWordList(ws) && ws != []
    ensures Join(" ", ws) != [] && !IsSpace(Join(" ", ws)[0])
  {
    if |ws| > 1 {
      assert Join(" ", ws) == ws[0] + (" " + Join(" ", ws[1..]));
      assert Join(" ", ws)[0] == ws[0][0];
    }
  }

  /** Leading whitespace does not change the words of a text. */
  lemma WordsLead(rest: string)
    requires rest == [] || !IsSpace(rest[0])
    ensures Words(" " + rest) == Words(rest)
  {
    LStripSpaces(" ", rest);
    LStripSpaces([], rest);
    assert [] + rest == rest;
    assert LStrip(" " + rest) == LStrip(rest);
  }

  /** A word, a space and a text that starts with a word: the first word,
      then the words of the text. */
  lemma WordsCons(w: string, rest: string)
    requires w != [] && NoSpace(w)
    requires rest == [] || !IsSpace(rest[0])
    ensures Words(w + (" " + rest)) == [w] + Words(rest)
  {
    var s := w + (" " + rest);
    assert s[0] == w[0];
    assert LStrip(s) == s;
    TokenOf(w, " " + rest);
    assert s[|w|..] == " " + rest;
    assert Words(s) == [w] + Words(" " + rest);
    WordsLead(rest);
  }

  /** Splitting a single-space join of words gives the words back. */
  lemma {:induction false} WordsOfJoin(ws: seq<string>)
    requires IsWordList(ws)
    ensures Words(Join(" ", ws)) == ws
    decreases |ws|
  {
    if |ws| == 0 {
    } else if |ws| == 1 {
      var w := ws[0];
      assert LStrip(w) == w;
      TokenOf(w, []);
      assert w + [] == w;
      assert w[|w|..] == [];
    } else {
      var rest := Join(" ", ws[1..]);
      assert Join(" ", ws) == ws[0] + (" " + rest);
      JoinFirst(ws[1..]);
      WordsCons(ws[0], rest);
      WordsOfJoin(ws[1..]);
    }
  }

  /** The whitespace in a single-space join of words: single spaces between words. */
  predicate Collapsed(s: string) {
    && s != []
    && !IsSpace(s[0]) && !IsSpace(s[|s| - 1])
    && forall i :: 0 <= i < |s| && IsSpace(s[i]) ==> s[i] == ' ' && (i + 1 < |s| ==> !IsSpace(s[i + 1]))
  }

  lemma {:induction false} JoinCollapsed(ws: seq<string>)
    requires IsWordList(ws) && ws != []
    ensures Collapsed(Join(" ", ws))
    decreases |ws|
  {
    if |ws| > 1 {
      var w := ws[0];
      var rest := Join(" ", ws[1..]);
      var s := Join(" ", ws);
      JoinCollapsed(ws[1..]);
      assert s == w + [' '] + rest;
      assert forall i :: 0 <= i < |w| ==> s[i] == w[i];
      forall i | |w| <= i < |s| && IsSpace(s[i])
        ensures s[i] == ' ' && (i + 1 < |s| ==> !IsSpace(s[i + 1]))
      {
        if i == |w| {
          assert s[i + 1] == rest[0];
        } else {
          assert s[i] == rest[i - |w| - 1];
          if i + 1 < |s| {
            assert s[i + 1] == rest[i - |w|];
          }
        }
      }
      assert s[|s| - 1] == rest[|rest| - 1];
    }
  }

  // ---------------------------------------------------------------------
  // split(sep) for a one-character separator
  // ---------------------------------------------------------------------

  /** `s.split(c)`: the pieces between occurrences of `c`, empty ones included. */
  function Split(s: string, c: char): (parts: seq<string>)
    ensures |parts| >= 1
    ensures forall i :: 0 <= i < |parts| ==> c !in parts[i]
    ensures Join([c], parts) == s
    decreases |s|
  {
    match IndexOf(s, c)
    case None => [s]
    case Some(i) =>
      var rest := Split(s[i + 1..], c);
      assert s == s[..i] + [c] + s[i + 1..];
      [s[..i]] + rest
  }

  lemma {:induction false} SplitJoin(a: string, c: char, b: string)
    requires c !in a
    ensures Split(a + [c] + b, c) == [a] + Split(b, c)
  {
    IndexOfJoin(a, c, b);
    var s := a + [c] + b;
    assert s[..|a|] == a;
    assert s[|a| + 1..] == b;
  }

  lemma {:induction false} SplitNone(s: string, c: char)
    requires c !in s
    ensures Split(s, c) == [s]
  {
  }

  lemma Join2(sep: string, a: string, b: string)
    ensures Join(sep, [a, b]) == a + sep + b
  {
    assert [a, b][1..] == [b];
  }

  lemma Join3(sep: string, ps: seq<string>)
    requires |ps| == 3
    ensures Join(sep, ps) == ps[0] + sep + ps[1] + sep + ps[2]
  {
    var tail := ps[1..];
    assert tail[1..] == ps[2..] && |ps[2..]| == 1 && ps[2..][0] == ps[2];
    assert Join(sep, ps[2..]) == ps[2];
    assert Join(sep, tail) == ps[1] + sep + ps[2];
  }

  /** Splitting three separator-free pieces joined by the separator gives them back. */
  lemma SplitThree(a: string, c: char, b: string, d: string)
    requires c !in a && c !in b && c !in d
    ensures Split(a + [c] + b + [c] + d, c) == [a, b, d]
  {
    assert a + [c] + b + [c] + d == a + [c] + (b + [c] + d);
    SplitJoin(a, c, b + [c] + d);
    SplitJoin(b, c, d);
    SplitNone(d, c);
  }

  /** `s.split(c, 1)` when `c in s`: the text before and after the first `c`. */
  function SplitFirst(s: string, c: char): (r: (string, string))
    requires c in s
    ensures s == r.0 + [c] + r.1 && c !in r.0
  {
    var i := IndexOf(s, c).value;
    assert s == s[..i] + [c] + s[i + 1..];
    (s[..i], s[i + 1..])
  }

  // ---------------------------------------------------------------------
  // replace(p, "") and friends
  // ---------------------------------------------------------------------

  /** `s.replace(p, "")`: every non-overlapping occurrence of `p`, scanned left
      to right, is dropped; an empty `p` leaves `s` as it is. */
  function RemoveAll(s: string, p: string): (r: string)
    ensures |p| == 1 ==> p[0] !in r
    ensures |r| <= |s|
    decreases |s|
  {
    if p == [] || s == [] then s
    else if StartsWith(s, p) then RemoveAll(s[|p|..], p)
    else [s[0]] + RemoveAll(s[1..], p)
  }

  /** The pieces one after another: `"".join(ss)` for texts, and the
      concatenation of row lists. */
  function Concat<T>(ss: seq<seq<T>>): seq<T>
    decreases |ss|
  {
    if ss == [] then [] else Concat(ss[..|ss| - 1]) + ss[|ss| - 1]
  }

  /** `s[:n]`. */
  function Truncate(s: string, n: nat): (r: string)
    ensures |r| <= n && StartsWith(s, r)
    ensures |s| <= n ==> r == s
  {
    if |s| <= n then s else s[..n]
  }

  // ---------------------------------------------------------------------
  // Decimal digits
  // ---------------------------------------------------------------------

  /** `int(s)` for a text of ASCII digits. */
  function Value(s: string): nat
    requires AllDigits(s)
    decreases |s|
  {
    if s == [] then 0 else 10 * Value(s[..|s| - 1]) + (s[|s| - 1] as int - '0' as int)
  }

  function Pow10(n: nat): nat {
    if n == 0 then 1 else 10 * Pow10(n - 1)
  }

  lemma {:induction false} ValueBound(s: string)
    requires AllDigits(s)
    ensures Value(s) < Pow10(|s|)
    decreases |s|
  {
    if s != [] {
      var init := s[..|s| - 1];
      ValueBound(init);
      assert IsDigit(s[|s| - 1]);
      assert s[|s| - 1] as int - '0' as int <= 9;
      assert Value(s) == 10 * Value(init) + (s[|s| - 1] as int - '0' as int);
      assert Pow10(|s|) == 10 * Pow10(|init|);
    }
  }

  /** Four digits read as a number stay below 10000. */
  lemma FourDigitBound(s: string)
    requires |s| == 4 && AllDigits(s)
    ensures Value(s) < 10000
  {
    ValueBound(s);
    assert Pow10(4) == 10 * Pow10(3) && Pow10(3) == 1000 by {
      assert Pow10(1) == 10;
      assert Pow10(2) == 100;
    }
  }

  function Digit(d: nat): (c: char)
    requires d < 10
    ensures IsDigit(c) && c as int - '0' as int == d
  {
    ('0' as int + d) as char
  }

  /** Two decimal digits, zero-padded: `%02d`. */
  function Pad2(n: nat): (r: string)
    requires n < 100
    ensures |r| == 2 && AllDigits(r) && Value(r) == n
  {
    var r := [Digit(n / 10), Digit(n % 10)];
    assert r[..1] == [Digit(n / 10)];
    assert r[..1][..0] == [];
    assert Value(r[..1]) == n / 10;
    r
  }

  /** Four decimal digits, zero-padded: `%04d`. */
  function Pad4(n: nat): (r: string)
    requires n < 10000
    ensures |r| == 4 && AllDigits(r) && Value(r) == n
  {
    var r := [Digit(n / 1000), Digit(n / 100 % 10), Digit(n / 10 % 10), Digit(n % 10)];
    assert r[..3][..2][..1] == [Digit(n / 1000)];
    assert r[..3][..2][..1][..0] == [];
    assert r[..3][..2] == [Digit(n / 1000), Digit(n / 100 % 10)];
    assert r[..3] == [Digit(n / 1000), Digit(n / 100 % 10), Digit(n / 10 % 10)];
    assert Value(r[..3][..2][..1]) == n / 1000;
    assert Value(r[..3][..2]) == n / 100;
    assert Value(r[..3]) == n / 10;
    r
  }

  /** `[f(x) for x in xs]`, built from the front so that a loop appending one
      element per step follows it. */
  function Mapped<A, B>(f: A -> B, xs: seq<A>): (ys: seq<B>)
    ensures |ys| == |xs|
    decreases |xs|
  {
    if xs == [] then [] else Mapped(f, xs[..|xs| - 1]) + [f(xs[|xs| - 1])]
  }

  lemma {:induction false} MappedAt<A, B>(f: A -> B, xs: seq<A>, i: nat)
    requires i < |xs|
    ensures Mapped(f, xs)[i] == f(xs[i])
    decreases |xs|
  {
    if i < |xs| - 1 {
      MappedAt(f, xs[..|xs| - 1], i);
    }
  }

  lemma MappedSnoc<A, B>(f: A -> B, xs: seq<A>, k: nat)
    requires k < |xs|
    ensures Mapped(f, xs[..k + 1]) == Mapped(f, xs[..k]) + [f(xs[k])]
  {
    assert xs[..k + 1][..k] == xs[..k];
  }
}
