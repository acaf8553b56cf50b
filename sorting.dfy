/**
 * Python's ordering of strings (code point by code point, a proper prefix
 * first), `sorted(set(values))`, and the `{name: i + 1 for i, name in
 * enumerate(sorted_names)}` numbering the ETL gives every dimension table.
 */
module Sorting {

  /** `a < b` on Python strings. */
  predicate Less(a: string, b: string)
    decreases |a|
  {
    b != [] && (a == [] || a[0] < b[0] || (a[0] == b[0] && Less(a[1..], b[1..])))
  }

  lemma {:induction false} LessIrreflexive(a: string)
    ensures !Less(a, a)
    decreases |a|
  {
    if a != [] {
      LessIrreflexive(a[1..]);
    }
  }

  lemma {:induction false} LessTransitive(a: string, b: string, c: string)
    requires Less(a, b) && Less(b, c)
    ensures Less(a, c)
    decreases |a|
  {
    if a != [] && a[0] == b[0] && b[0] == c[0] {
      LessTransitive(a[1..], b[1..], c[1..]);
    }
  }

  lemma {:induction false} LessTotal(a: string, b: string)
    requires a != b
    ensures Less(a, b) || Less(b, a)
    decreases |a|
  {
    if a != [] && b != [] && a[0] == b[0] {
      assert a == [a[0]] + a[1..] && b == [b[0]] + b[1..];
      LessTotal(a[1..], b[1..]);
    }
  }

  lemma LessAsymmetric(a: string, b: string)
    requires Less(a, b)
    ensures !Less(b, a)
  {
    if Less(b, a) {
      LessTransitive(a, b, a);
      LessIrreflexive(a);
    }
  }

  /** Strictly increasing, hence without repetitions. */
  predicate StrictlySorted(s: seq<string>) {
    forall i, j :: 0 <= i < j < |s| ==> Less(s[i], s[j])
  }

  /** Adds `x` to a strictly sorted list, keeping it strictly sorted. */
  function Insert(x: string, s: seq<string>): (r: seq<string>)
    requires StrictlySorted(s)
    ensures StrictlySorted(r)
    ensures forall y :: y in r <==> y == x || y in s
    decreases |s|
  {
    if s == [] then [x]
    else if x == s[0] then s
    else if Less(x, s[0]) then
      InsertFront(x, s);
      [x] + s
    else
      LessTotal(x, s[0]);
      var t := Insert(x, s[1..]);
      assert forall y :: y in t ==> Less(s[0], y) by {
        forall y | y in t ensures Less(s[0], y) {
          if y != x {
            var k :| 0 <= k < |s[1..]| && s[1..][k] == y;
            assert s[k + 1] == y;
          }
        }
      }
      [s[0]] + t
  }

  lemma InsertFront(x: string, s: seq<string>)
    requires StrictlySorted(s) && s != [] && Less(x, s[0])
    ensures StrictlySorted([x] + s)
  {
    forall k | 0 <= k < |s| ensures Less(x, s[k]) {
      if k > 0 {
        LessTransitive(x, s[0], s[k]);
      }
    }
    assert forall j :: 1 <= j < |s| + 1 ==> ([x] + s)[j] == s[j - 1];
  }

  /** `sorted(set(values))`: the distinct values in increasing order. */
  function SortedDistinct(values: seq<string>): (r: seq<string>)
    ensures StrictlySorted(r)
    ensures forall y :: y in r <==> y in values
    decreases |values|
  {
    if values == [] then []
    else
      var r := Insert(values[|values| - 1], SortedDistinct(values[..|values| - 1]));
      assert values == values[..|values| - 1] + [values[|values| - 1]];
      r
  }

  /** There is only one strictly sorted listing of a set of strings, so the
      result does not depend on how it was computed. */
  lemma {:induction false} SortedUnique(a: seq<string>, b: seq<string>)
    requires StrictlySorted(a) && StrictlySorted(b)
    requires forall y :: y in a <==> y in b
    ensures a == b
    decreases |a|
  {
    if a != [] {
      assert a[0] in a;
    }
    if b != [] {
      assert b[0] in b;
    }
    if a != [] && b != [] {
      var i :| 0 <= i < |b| && b[i] == a[0];
      var j :| 0 <= j < |a| && a[j] == b[0];
      if i != 0 && j != 0 {
        LessAsymmetric(b[0], b[i]);
      }
      assert a[0] == b[0];
      forall y ensures y in a[1..] <==> y in b[1..] {
        if y in a[1..] {
          TailMember(a, b, y);
        }
        if y in b[1..] {
          TailMember(b, a, y);
        }
      }
      SortedUnique(a[1..], b[1..]);
      assert a == [a[0]] + a[1..] && b == [b[0]] + b[1..];
    }
  }

  lemma TailMember(a: seq<string>, b: seq<string>, y: string)
    requires StrictlySorted(a) && StrictlySorted(b) && a != [] && b != [] && a[0] == b[0]
    requires forall z :: z in a <==> z in b
    requires y in a[1..]
    ensures y in b[1..]
  {
    var k :| 0 <= k < |a[1..]| && a[1..][k] == y;
    assert Less(a[0], a[k + 1]);
    assert y in a;
    var i :| 0 <= i < |b| && b[i] == y;
    LessIrreflexive(y);
    assert i != 0;
    assert b[1..][i - 1] == y;
  }

  /** `{n: i + 1 for i, n in enumerate(names)}`. */
  function NumberNames(names: seq<string>): (ids: map<string, nat>)
    requires StrictlySorted(names)
    ensures ids.Keys == set n | n in names
    ensures forall i :: 0 <= i < |names| ==> ids[names[i]] == i + 1
    decreases |names|
  {
    if names == [] then map[]
    else
      var last := names[|names| - 1];
      var init := names[..|names| - 1];
      assert last !in init by {
        forall k | 0 <= k < |init| ensures init[k] != last {
          LessIrreflexive(last);
        }
      }
      var ids := NumberNames(init)[last := |names|];
      assert names == init + [last];
      ids
  }

  /** The numbering runs from 1 without gaps and follows the string order. */
  lemma NumberingOrder(names: seq<string>, a: string, b: string)
    requires StrictlySorted(names) && a in names && b in names
    ensures 1 <= NumberNames(names)[a] <= |names|
    ensures Less(a, b) <==> NumberNames(names)[a] < NumberNames(names)[b]
  {
    var ids := NumberNames(names);
    var i :| 0 <= i < |names| && names[i] == a;
    var j :| 0 <= j < |names| && names[j] == b;
    assert ids[a] == i + 1 && ids[b] == j + 1;
    if i < j {
      assert Less(a, b);
    } else if i == j {
      LessIrreflexive(a);
    } else {
      assert Less(b, a);
      LessAsymmetric(b, a);
    }
  }
}
