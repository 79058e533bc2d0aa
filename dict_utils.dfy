/**
 * The two dictionary helpers of `SelectRelated`: `merge_dols`, which merges
 * two dictionaries of lists key by key, and `rows_as_dicts`, which turns the
 * rows of a cursor into dictionaries keyed by the cursor's column names.
 */
module DictUtils {
  import opened Common

  /** `dol.get(k, [])` */
  function Get<K, V>(dol: map<K, seq<V>>, k: K): seq<V> {
    if k in dol then dol[k] else []
  }

  /** `merge_dols(dol1, dol2)`: over the union of the keys, a key's list in `dol1` followed by its list in `dol2`. */
  function MergeDols<K, V>(dol1: map<K, seq<V>>, dol2: map<K, seq<V>>): map<K, seq<V>> {
    map k | k in dol1.Keys + dol2.Keys :: Get(dol1, k) + Get(dol2, k)
  }

  /**
   * The merged dictionary has exactly the keys of either input; each list
   * starts with the first input's list, ends with the second's, and is as
   * long as both together.
   */
  lemma MergeDolsSpec<K, V>(dol1: map<K, seq<V>>, dol2: map<K, seq<V>>)
    ensures var m := MergeDols(dol1, dol2);
      && m.Keys == dol1.Keys + dol2.Keys
      && (forall k :: k in m ==> |m[k]| == |Get(dol1, k)| + |Get(dol2, k)|)
      && (forall k :: k in m ==> m[k][..|Get(dol1, k)|] == Get(dol1, k) && m[k][|Get(dol1, k)|..] == Get(dol2, k))
  {
    var m := MergeDols(dol1, dol2);
    forall k | k in m
      ensures m[k][..|Get(dol1, k)|] == Get(dol1, k) && m[k][|Get(dol1, k)|..] == Get(dol2, k)
    {
      assert m[k] == Get(dol1, k) + Get(dol2, k);
    }
  }

  /** Merging with an empty dictionary, on either side, changes nothing. */
  lemma MergeDolsIdentity<K, V>(dol: map<K, seq<V>>)
    ensures MergeDols(dol, map[]) == dol
    ensures MergeDols(map[], dol) == dol
  {
    assert forall k :: k in dol ==> Get(dol, k) + [] == dol[k];
    assert forall k :: k in dol ==> [] + Get(dol, k) == dol[k];
  }

  /** Merging is associative, so folding `merge_dols` over many dictionaries does not depend on grouping. */
  lemma MergeDolsAssociative<K, V>(a: map<K, seq<V>>, b: map<K, seq<V>>, c: map<K, seq<V>>)
    ensures MergeDols(MergeDols(a, b), c) == MergeDols(a, MergeDols(b, c))
  {
    var ab := MergeDols(a, b);
    var bc := MergeDols(b, c);
    var l := MergeDols(ab, c);
    var r := MergeDols(a, bc);
    MergeKeys(a, b);
    MergeKeys(b, c);
    MergeKeys(ab, c);
    MergeKeys(a, bc);
    forall k | k in l ensures l[k] == r[k] {
      GetMerge(a, b, k);
      GetMerge(b, c, k);
      GetMerge(ab, c, k);
      GetMerge(a, bc, k);
      SeqAssoc(Get(a, k), Get(b, k), Get(c, k));
    }
  }

  lemma MergeKeys<K, V>(a: map<K, seq<V>>, b: map<K, seq<V>>)
    ensures MergeDols(a, b).Keys == a.Keys + b.Keys
  {
  }

  lemma GetMerge<K, V>(a: map<K, seq<V>>, b: map<K, seq<V>>, k: K)
    ensures Get(MergeDols(a, b), k) == Get(a, k) + Get(b, k)
  {
  }

  lemma SeqAssoc<V>(x: seq<V>, y: seq<V>, z: seq<V>)
    ensures (x + y) + z == x + (y + z)
  {
  }

  /** `zip(a, b)`: pairs up to the shorter length. */
  function Zip<A, B>(a: seq<A>, b: seq<B>): (r: seq<(A, B)>)
    ensures |r| == if |a| <= |b| then |a| else |b|
  {
    if a == [] || b == [] then [] else [(a[0], b[0])] + Zip(a[1..], b[1..])
  }

  lemma {:induction false} ZipAt<A, B>(a: seq<A>, b: seq<B>, i: nat)
    requires i < |a| && i < |b|
    ensures Zip(a, b)[i] == (a[i], b[i])
  {
    if i > 0 { ZipAt(a[1..], b[1..], i - 1); }
  }

  /** `dict(zip(col_names, row))` */
  function RowDict<V>(colNames: seq<string>, row: seq<V>): map<string, V> {
    FromPairs(Zip(colNames, row))
  }

  /** `rows_as_dicts(cursor)`: one dictionary per row, in cursor order. */
  function RowsAsDicts<V>(colNames: seq<string>, rows: seq<seq<V>>): (r: seq<map<string, V>>)
    ensures |r| == |rows|
  {
    seq(|rows|, i requires 0 <= i < |rows| => RowDict(colNames, rows[i]))
  }

  /**
   * A row's dictionary has the column names that have a value in the row;
   * each maps to the row's value in the last column of that name.
   */
  lemma RowDictLookup<V>(colNames: seq<string>, row: seq<V>, c: string)
    ensures c in RowDict(colNames, row) <==> exists j :: 0 <= j < |colNames| && j < |row| && colNames[j] == c
    ensures forall j :: 0 <= j < |colNames| && j < |row| && colNames[j] == c
                        && (forall j' :: j < j' < |colNames| && j' < |row| ==> colNames[j'] != c)
                        ==> RowDict(colNames, row)[c] == row[j]
  {
    var z := Zip(colNames, row);
    forall j | 0 <= j < |z| ensures z[j] == (colNames[j], row[j]) {
      ZipAt(colNames, row, j);
    }
    FromPairsLookup(z, c);
  }

  /** With distinct column names and a full row, reading the columns back from the dictionary gives the row. */
  lemma RowDictRoundTrip<V>(colNames: seq<string>, row: seq<V>)
    requires Distinct(colNames) && |row| == |colNames|
    ensures RowDict(colNames, row).Keys == Elems(colNames)
    ensures seq(|colNames|, j requires 0 <= j < |colNames| => RowDict(colNames, row)[colNames[j]]) == row
  {
    var d := RowDict(colNames, row);
    forall c ensures c in d <==> c in Elems(colNames) {
      RowDictLookup(colNames, row, c);
    }
    forall j | 0 <= j < |colNames| ensures d[colNames[j]] == row[j] {
      RowDictLookup(colNames, row, colNames[j]);
    }
  }
}
