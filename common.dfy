/**
 * Shared vocabulary of the selection-propagation model: optional values,
 * results carrying the Python exception a step would raise, the key values
 * that flow from a selection into a predicate, two small string helpers, and dictionaries built from key-value pairs.
 */
module Common {

  datatype Option<T> = None | Some(value: T)

  /** The exceptions the modelled code can raise; each aborts the invocation. */
  datatype Error =
    | TypeError       // `sorted` over values of incomparable kinds
    | IndexError      // `findall(...)[0]` on a name without a layer id
    | KeyError        // a missing role in relationship metadata, or a missing field column
    | StopIteration   // `next(iter({}.values()))` on an empty key collection
    | FieldNotFound   // a cursor over a field the layer does not have

  datatype Result<T> = Ok(value: T) | Err(error: Error)

  /** A key value read from a row: the model restricts values to strings and integers. */
  datatype Value = Str(s: string) | Int(i: int)

  /** The set of elements of a sequence (Python's `set(values)`). */
  function Elems<T>(s: seq<T>): set<T> {
    set x | x in s
  }

  /** No element occurs twice. */
  predicate Distinct<T(==)>(s: seq<T>) {
    forall i, j :: 0 <= i < j < |s| ==> s[i] != s[j]
  }

  /** Python's `str.startswith`. */
  predicate StartsWith(s: string, prefix: string) {
    |prefix| <= |s| && s[..|prefix|] == prefix
  }

  function LowerChar(c: char): char {
    if 'A' <= c <= 'Z' then (c as int + 32) as char else c
  }

  /** Python's `str.lower`, restricted to ASCII letters. */
  function Lower(s: string): (r: string)
    ensures |r| == |s|
    ensures forall i :: 0 <= i < |s| ==> r[i] == LowerChar(s[i])
  {
    if s == [] then [] else [LowerChar(s[0])] + Lower(s[1..])
  }

  /** `{k: v for (k, v) in pairs}`: the last pair for a key wins. */
  function FromPairs<K, V>(pairs: seq<(K, V)>): map<K, V> {
    if pairs == [] then map[]
    else FromPairs(pairs[..|pairs| - 1])[pairs[|pairs| - 1].0 := pairs[|pairs| - 1].1]
  }

  /** A key is in the dictionary exactly when some pair has it, and maps to the value of the last such pair. */
  lemma {:induction false} FromPairsLookup<K, V>(pairs: seq<(K, V)>, k: K)
    ensures k in FromPairs(pairs) <==> exists i :: 0 <= i < |pairs| && pairs[i].0 == k
    ensures forall i :: 0 <= i < |pairs| && pairs[i].0 == k && (forall j :: i < j < |pairs| ==> pairs[j].0 != k)
                        ==> FromPairs(pairs)[k] == pairs[i].1
  {
    if pairs != [] {
      var init := pairs[..|pairs| - 1];
      FromPairsLookup(init, k);
      if k != pairs[|pairs| - 1].0 {
        if exists i :: 0 <= i < |pairs| && pairs[i].0 == k {
          var i :| 0 <= i < |pairs| && pairs[i].0 == k;
          assert init[i].0 == k;
        }
        forall i | 0 <= i < |pairs| && pairs[i].0 == k && (forall j :: i < j < |pairs| ==> pairs[j].0 != k)
          ensures FromPairs(pairs)[k] == pairs[i].1
        {
          assert init[i] == pairs[i];
        }
      }
    }
  }

  /** A distinct sequence has as many elements as its length. */
  lemma {:induction false} DistinctCardinality<T>(s: seq<T>)
    requires Distinct(s)
    ensures |Elems(s)| == |s|
  {
    if s != [] {
      var t := s[1..];
      assert Distinct(t) by {
        forall i, j | 0 <= i < j < |t| ensures t[i] != t[j] {
          assert t[i] == s[i + 1] && t[j] == s[j + 1];
        }
      }
      DistinctCardinality(t);
      assert s[0] !in Elems(t) by {
        forall k | 0 <= k < |t| ensures t[k] != s[0] {
          assert t[k] == s[k + 1];
        }
      }
      assert Elems(s) == {s[0]} + Elems(t) by {
        assert s == [s[0]] + t;
      }
    }
  }
}
