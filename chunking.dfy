/**
 * `SelectRelated.chunks`: successive slices of at most `n` elements, the
 * batching that keeps each IN-list under the host engine's size limit.
 */
module Chunking {

  function Min(a: int, b: int): int {
    if a <= b then a else b
  }

  /** The concatenation of a sequence of sequences. */
  function Flatten<T>(ss: seq<seq<T>>): seq<T> {
    if ss == [] then [] else ss[0] + Flatten(ss[1..])
  }

  lemma {:induction false} FlattenAppend<T>(ss: seq<seq<T>>, s: seq<T>)
    ensures Flatten(ss + [s]) == Flatten(ss) + s
  {
    if ss == [] {
      assert ss + [s] == [s];
      assert Flatten([s][1..]) == [];
    } else {
      assert (ss + [s])[1..] == ss[1..] + [s];
      FlattenAppend(ss[1..], s);
    }
  }

  lemma {:induction false} MulAtLeast(n: int, d: int)
    requires n > 0 && d > 0
    ensures n * d >= n
    decreases d
  {
    if d > 1 {
      MulAtLeast(n, d - 1);
      assert n * d == n * (d - 1) + n;
    }
  }

  lemma MulSmall(n: int, d: int)
    requires n > 0 && -n < n * d < n
    ensures d == 0
  {
    if d > 0 {
      MulAtLeast(n, d);
    } else if d < 0 {
      MulAtLeast(n, -d);
    }
  }

  lemma DivStep(a: nat, n: nat)
    requires n > 0
    ensures (a + n) / n == a / n + 1
  {
    var q, r := a / n, a % n;
    var q', r' := (a + n) / n, (a + n) % n;
    var d := q' - (q + 1);
    assert n * q' + r' == n * (q + 1) + r;
    assert n * d == r - r' by {
      assert n * q' == n * (q + 1) + n * d;
    }
    MulSmall(n, d);
  }

  /**
   * `for i in range(0, len(l), n): yield l[i:i + n]`, for a positive `n`.
   * The chunks concatenate back to the input; each is non-empty and at most
   * `n` long, every one but the last exactly `n`, and there are
   * ceil(len(l) / n) of them.
   */
  function Chunks<T>(l: seq<T>, n: nat): (r: seq<seq<T>>)
    requires n > 0
    ensures Flatten(r) == l
    ensures forall i :: 0 <= i < |r| ==> 0 < |r[i]| <= n
    ensures forall i :: 0 <= i < |r| - 1 ==> |r[i]| == n
    ensures |r| == (|l| + n - 1) / n
    decreases |l|
  {
    if l == [] then []
    else
      var k := Min(n, |l|);
      var rest := Chunks(l[k..], n);
      assert l == l[..k] + l[k..];
      if k < n then
        assert |l| < n && rest == [];
        assert (|l| + n - 1) / n == 1;
        [l[..k]] + rest
      else
        DivStep(|l| - n + n - 1, n);
        [l[..k]] + rest
  }
}
