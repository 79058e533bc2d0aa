/**
 * Python's ordering of key values and `sorted(set(values))`: strings compare
 * by code point, lexicographically; integers numerically. A sorted,
 * duplicate-free sequence is determined by its set of elements, which is
 * what makes the predicates independent of the order keys were collected in.
 */
module Ordering {
  import opened Common

  /** Python's `<` on `str`: lexicographic by code point, a proper prefix first. */
  predicate StrLess(a: string, b: string) {
    if a == [] then b != []
    else if b == [] then false
    else if a[0] != b[0] then a[0] < b[0]
    else StrLess(a[1..], b[1..])
  }

  lemma {:induction false} StrLessIrreflexive(a: string)
    ensures !StrLess(a, a)
  {
    if a != [] { StrLessIrreflexive(a[1..]); }
  }

  lemma {:induction false} StrLessTransitive(a: string, b: string, c: string)
    requires StrLess(a, b) && StrLess(b, c)
    ensures StrLess(a, c)
  {
    if a != [] && b != [] && c != [] && a[0] == b[0] && b[0] == c[0] {
      StrLessTransitive(a[1..], b[1..], c[1..]);
    }
  }

  lemma {:induction false} StrLessTotal(a: string, b: string)
    requires a != b
    ensures StrLess(a, b) || StrLess(b, a)
  {
    if a != [] && b != [] && a[0] == b[0] {
      assert a == [a[0]] + a[1..] && b == [b[0]] + b[1..];
      StrLessTotal(a[1..], b[1..]);
    }
  }

  /**
   * The order `sorted` uses. Within one kind it is Python's; Python has no
   * order between `str` and `int` (comparing them raises TypeError, which
   * the predicate builder reports before sorting), so placing integers first
   * only keeps this a total order.
   */
  predicate Less(x: Value, y: Value) {
    match (x, y)
    case (Int(a), Int(b)) => a < b
    case (Str(a), Str(b)) => StrLess(a, b)
    case (Int(_), Str(_)) => true
    case (Str(_), Int(_)) => false
  }

  lemma LessIrreflexive(x: Value)
    ensures !Less(x, x)
  {
    if x.Str? { StrLessIrreflexive(x.s); }
  }

  lemma LessTransitive(x: Value, y: Value, z: Value)
    requires Less(x, y) && Less(y, z)
    ensures Less(x, z)
  {
    if x.Str? && y.Str? && z.Str? { StrLessTransitive(x.s, y.s, z.s); }
  }

  lemma LessTotal(x: Value, y: Value)
    requires x != y
    ensures Less(x, y) || Less(y, x)
  {
    if x.Str? && y.Str? { StrLessTotal(x.s, y.s); }
  }

  /** Every element is strictly smaller than every later one: sorted and duplicate-free. */
  predicate StrictlySorted(s: seq<Value>) {
    forall i, j :: 0 <= i < j < |s| ==> Less(s[i], s[j])
  }

  lemma StrictlySortedDistinct(s: seq<Value>)
    requires StrictlySorted(s)
    ensures Distinct(s)
  {
    forall i, j | 0 <= i < j < |s| ensures s[i] != s[j] {
      LessIrreflexive(s[i]);
    }
  }

  /** Inserts a value into a strictly sorted sequence unless it is already there. */
  function Insert(x: Value, s: seq<Value>): (r: seq<Value>)
    requires StrictlySorted(s)
    ensures StrictlySorted(r)
    ensures Elems(r) == Elems(s) + {x}
  {
    if s == [] then [x]
    else if x == s[0] then s
    else if Less(x, s[0]) then
      InsertFront(x, s);
      [x] + s
    else
      LessTotal(x, s[0]);
      var tail := Insert(x, s[1..]);
      InsertBehind(x, s, tail);
      [s[0]] + tail
  }

  lemma InsertFront(x: Value, s: seq<Value>)
    requires StrictlySorted(s) && s != [] && Less(x, s[0])
    ensures StrictlySorted([x] + s)
    ensures Elems([x] + s) == Elems(s) + {x}
  {
    var r := [x] + s;
    forall i, j | 0 <= i < j < |r| ensures Less(r[i], r[j]) {
      if i == 0 && j > 1 { LessTransitive(x, s[0], s[j - 1]); }
    }
  }

  lemma InsertBehind(x: Value, s: seq<Value>, tail: seq<Value>)
    requires StrictlySorted(s) && s != [] && Less(s[0], x)
    requires StrictlySorted(tail) && Elems(tail) == Elems(s[1..]) + {x}
    ensures StrictlySorted([s[0]] + tail)
    ensures Elems([s[0]] + tail) == Elems(s) + {x}
  {
    assert Elems(s) == {s[0]} + Elems(s[1..]) by { assert s == [s[0]] + s[1..]; }
    forall j | 0 <= j < |tail| ensures Less(s[0], tail[j]) {
      assert tail[j] in Elems(s[1..]) + {x};
      if tail[j] != x {
        var k :| 0 <= k < |s[1..]| && s[1..][k] == tail[j];
        assert s[k + 1] == tail[j];
      }
    }
    var r := [s[0]] + tail;
    forall i, j | 0 <= i < j < |r| ensures Less(r[i], r[j]) {
      if i > 0 { assert r[i] == tail[i - 1] && r[j] == tail[j - 1]; }
      else { assert r[j] == tail[j - 1]; }
    }
    assert Elems(r) == {s[0]} + Elems(tail);
  }

  /** `sorted(set(values))` */
  function SortDedup(xs: seq<Value>): (r: seq<Value>)
    ensures StrictlySorted(r)
    ensures Elems(r) == Elems(xs)
  {
    if xs == [] then []
    else
      assert xs == xs[..|xs| - 1] + [xs[|xs| - 1]];
      assert Elems(xs) == Elems(xs[..|xs| - 1]) + {xs[|xs| - 1]};
      Insert(xs[|xs| - 1], SortDedup(xs[..|xs| - 1]))
  }

  /** A strictly sorted sequence is determined by its elements. */
  lemma {:induction false} StrictlySortedUnique(a: seq<Value>, b: seq<Value>)
    requires StrictlySorted(a) && StrictlySorted(b)
    requires Elems(a) == Elems(b)
    ensures a == b
  {
    assert a != [] ==> a[0] in Elems(a);
    assert b != [] ==> b[0] in Elems(b);
    if a != [] && b != [] {
      var i :| 0 <= i < |a| && a[i] == b[0];
      var j :| 0 <= j < |b| && b[j] == a[0];
      if a[0] != b[0] {
        assert i > 0 && j > 0;
        assert Less(a[0], b[0]) && Less(b[0], a[0]);
        LessTransitive(a[0], b[0], a[0]);
        LessIrreflexive(a[0]);
      }
      assert Elems(a[1..]) == Elems(a) - {a[0]} by {
        assert a == [a[0]] + a[1..];
        forall k | 0 <= k < |a[1..]| ensures a[1..][k] != a[0] {
          LessIrreflexive(a[0]);
        }
      }
      assert Elems(b[1..]) == Elems(b) - {b[0]} by {
        assert b == [b[0]] + b[1..];
        forall k | 0 <= k < |b[1..]| ensures b[1..][k] != b[0] {
          LessIrreflexive(b[0]);
        }
      }
      StrictlySortedUnique(a[1..], b[1..]);
      assert a == [a[0]] + a[1..] && b == [b[0]] + b[1..];
    }
  }

  /** The sorted sequence depends only on the set of input values: any permutation, any repetition. */
  lemma SortDedupCanonical(xs: seq<Value>, ys: seq<Value>)
    requires Elems(xs) == Elems(ys)
    ensures SortDedup(xs) == SortDedup(ys)
  {
    StrictlySortedUnique(SortDedup(xs), SortDedup(ys));
  }

  /** `len(sorted(set(values)))` is the number of distinct values. */
  lemma SortDedupLength(xs: seq<Value>)
    ensures |SortDedup(xs)| == |Elems(xs)|
  {
    StrictlySortedDistinct(SortDedup(xs));
    DistinctCardinality(SortDedup(xs));
  }
}
