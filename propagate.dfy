/**
 * Phase 2 of `SelectRelated.main`, as functions: for every related table in
 * `selection_info`, the rows of `datasource_lookup[k][0]` whose foreign
 * field holds one of the collected ids are added to that layer's selection,
 * one IN-list batch at a time; a table missing from the map is only
 * reported.
 *
 * A batch's cursor is a query over the rows of the related layer: a row
 * matches `field IN (<literals>)` when the literal of its value is one of the
 * batch's literals. Field names are compared in lower case, as the host's
 * field lookup ignores case.
 */
module Propagate {
  import opened Common
  import opened Literals
  import opened Chunking
  import opened SqlBuilder
  import opened Layers
  import opened Scan

  /** `[row[0] for row in SearchCursor(layer, ['objectid'], "<f> IN (<chunk>)")]` over the given rows. */
  function QueryOids(rows: seq<Row>, f: string, chunk: seq<string>): (r: seq<int>)
    ensures |r| <= |rows|
  {
    if rows == [] then []
    else (if f in rows[0].values && Literal(rows[0].values[f]) in chunk then [rows[0].oid] else [])
         + QueryOids(rows[1..], f, chunk)
  }

  /** The reference: the object ids of the rows whose value in `f` is one of `ids`, in row order. */
  function Matching(rows: seq<Row>, f: string, ids: set<Value>): seq<int> {
    if rows == [] then []
    else (if f in rows[0].values && rows[0].values[f] in ids then [rows[0].oid] else [])
         + Matching(rows[1..], f, ids)
  }

  /** An id is matched exactly when some row with that id holds one of the values. */
  lemma {:induction false} MatchingSpec(rows: seq<Row>, f: string, ids: set<Value>)
    ensures forall o :: o in Matching(rows, f, ids) <==>
      exists r :: r in rows && r.oid == o && f in r.values && r.values[f] in ids
  {
    if rows != [] {
      MatchingSpec(rows[1..], f, ids);
      forall o ensures o in Matching(rows, f, ids) <==>
        exists r :: r in rows && r.oid == o && f in r.values && r.values[f] in ids
      {
        if exists r :: r in rows && r.oid == o && f in r.values && r.values[f] in ids {
          var r :| r in rows && r.oid == o && f in r.values && r.values[f] in ids;
          if r != rows[0] {
            assert r in rows[1..];
          }
        }
      }
    }
  }

  /** A query whose literals are exactly those of `ids` returns exactly the matching rows. */
  lemma {:induction false} QueryOidsMatching(rows: seq<Row>, f: string, chunk: seq<string>, ids: set<Value>)
    requires forall v :: Literal(v) in chunk <==> v in ids
    ensures QueryOids(rows, f, chunk) == Matching(rows, f, ids)
  {
    if rows != [] {
      QueryOidsMatching(rows[1..], f, chunk, ids);
    }
  }

  /** A query without literals returns nothing. */
  lemma {:induction false} QueryOidsNoLiterals(rows: seq<Row>, f: string)
    ensures QueryOids(rows, f, []) == []
  {
    if rows != [] {
      QueryOidsNoLiterals(rows[1..], f);
    }
  }

  /** Querying two lists of literals returns the rows of either; when no literal is in both, no row twice. */
  lemma {:induction false} QueryOidsAppend(rows: seq<Row>, f: string, c1: seq<string>, c2: seq<string>)
    ensures Elems(QueryOids(rows, f, c1 + c2)) == Elems(QueryOids(rows, f, c1)) + Elems(QueryOids(rows, f, c2))
    ensures (forall x :: x in c1 ==> x !in c2) ==>
      |QueryOids(rows, f, c1 + c2)| == |QueryOids(rows, f, c1)| + |QueryOids(rows, f, c2)|
  {
    if rows != [] {
      QueryOidsAppend(rows[1..], f, c1, c2);
      var t := QueryOids(rows[1..], f, c1 + c2);
      var t1 := QueryOids(rows[1..], f, c1);
      var t2 := QueryOids(rows[1..], f, c2);
      var h := if f in rows[0].values && Literal(rows[0].values[f]) in c1 + c2 then [rows[0].oid] else [];
      var h1 := if f in rows[0].values && Literal(rows[0].values[f]) in c1 then [rows[0].oid] else [];
      var h2 := if f in rows[0].values && Literal(rows[0].values[f]) in c2 then [rows[0].oid] else [];
      assert QueryOids(rows, f, c1 + c2) == h + t;
      assert QueryOids(rows, f, c1) == h1 + t1;
      assert QueryOids(rows, f, c2) == h2 + t2;
      assert Elems(h + t) == Elems(h) + Elems(t);
      assert Elems(h1 + t1) == Elems(h1) + Elems(t1);
      assert Elems(h2 + t2) == Elems(h2) + Elems(t2);
    }
  }

  /** Concatenation splits at any index. */
  lemma {:induction false} FlattenSplit<T>(ss: seq<seq<T>>, i: nat)
    requires i <= |ss|
    ensures Flatten(ss) == Flatten(ss[..i]) + Flatten(ss[i..])
  {
    if i > 0 {
      assert ss[1..][..i - 1] == ss[1..i];
      assert ss[..i][1..] == ss[1..i];
      assert ss[1..][i - 1..] == ss[i..];
      FlattenSplit(ss[1..], i - 1);
    } else {
      assert ss[i..] == ss;
    }
  }

  /** In the batches of a distinct list, the literals of the first `b` batches are not in batch `b`. */
  lemma BatchesDisjoint(bs: seq<seq<string>>, b: nat)
    requires b < |bs| && Distinct(Flatten(bs))
    ensures forall x :: x in Flatten(bs[..b]) ==> x !in bs[b]
  {
    FlattenSplit(bs, b);
    var before := Flatten(bs[..b]);
    assert Flatten(bs[b..]) == bs[b] + Flatten(bs[b + 1..]);
    var all := Flatten(bs);
    forall x | x in before ensures x !in bs[b] {
      var i :| 0 <= i < |before| && before[i] == x;
      assert all[i] == x;
      forall j | 0 <= j < |bs[b]| ensures bs[b][j] != x {
        assert all[|before| + j] == bs[b][j];
      }
    }
  }

  /** All values are strings, or all are integers: the ids can be sorted. */
  predicate HomogeneousSet(ids: set<Value>) {
    (forall v :: v in ids ==> v.Str?) || (forall v :: v in ids ==> v.Int?)
  }

  lemma HomogeneousEnumeration(vals: seq<Value>, ids: set<Value>)
    requires Elems(vals) == ids
    ensures Homogeneous(vals) <==> HomogeneousSet(ids)
  {
    if HomogeneousSet(ids) {
      if forall v :: v in ids ==> v.Str? {
        assert forall i :: 0 <= i < |vals| ==> vals[i] in ids;
      } else {
        assert forall i :: 0 <= i < |vals| ==> vals[i] in ids;
      }
    }
    if Homogeneous(vals) {
      forall v | v in ids ensures exists i :: 0 <= i < |vals| && vals[i] == v {
        assert v in Elems(vals);
      }
    }
  }

  /**
   * The batches of an enumeration of `ids`, queried one after the other,
   * return together exactly the rows whose value is one of the ids, and
   * each of them once.
   */
  lemma BatchesFindMatches(rows: seq<Row>, f: string, vals: seq<Value>)
    requires vals != [] && Homogeneous(vals)
    ensures Distinct(Flatten(InLists(vals)))
    ensures QueryOids(rows, f, Flatten(InLists(vals))) == Matching(rows, f, Elems(vals))
  {
    InListsShape(vals);
    QueryOidsMatching(rows, f, Flatten(InLists(vals)), Elems(vals));
  }

  /** What phase 2 does for one related table. */
  datatype KeyEffect = Missing | Select(target: LayerRef, oids: seq<int>)

  /** Every lookup list is non-empty and starts with a layer of the map. */
  predicate LookupValid(lookup: map<string, seq<LayerRef>>, n: nat) {
    forall key :: key in lookup ==> lookup[key] != [] && lookup[key][0] < n
  }

  /** Line 229: the one field the phase-2 cursor reads, the object id. */
  const OidField: string := "objectid"

  /**
   * Line 229: `SearchCursor(related_layer, ['objectid'], where_clause)` opens
   * only when the layer has both the cursor's field and the where-clause's.
   */
  predicate Queryable(layer: Layer, f: string) {
    f in layer.fields && OidField in layer.fields
  }

  /**
   * Lines 226-231 on the first layer of a related table: the matching rows'
   * ids. An empty id set yields no query at all; sorting mixed ids raises
   * TypeError; a layer without the foreign field or without an `objectid`
   * field makes the first query fail.
   */
  function SelectOutcome(layer: Layer, v: SelectionInfo): Result<seq<int>> {
    if v.ids == {} then Ok([])
    else if !HomogeneousSet(v.ids) then Err(TypeError)
    else if !Queryable(layer, Lower(v.field)) then Err(FieldNotFound)
    else Ok(Matching(layer.rows, Lower(v.field), v.ids))
  }

  /**
   * The outcome's error cases: FieldNotFound exactly when there is a query to
   * run over ids of one kind and the layer lacks the foreign field or
   * `objectid`; TypeError exactly when the ids mix kinds. Otherwise the
   * matching rows' ids.
   */
  lemma SelectOutcomeCases(layer: Layer, v: SelectionInfo)
    ensures SelectOutcome(layer, v) == Err(FieldNotFound) <==>
      v.ids != {} && HomogeneousSet(v.ids) && (Lower(v.field) !in layer.fields || OidField !in layer.fields)
    ensures SelectOutcome(layer, v) == Err(TypeError) <==> v.ids != {} && !HomogeneousSet(v.ids)
    ensures SelectOutcome(layer, v).Ok? ==>
      forall o :: o in SelectOutcome(layer, v).value <==>
        exists r :: r in layer.rows && r.oid == o && Lower(v.field) in r.values && r.values[Lower(v.field)] in v.ids
  {
    if SelectOutcome(layer, v).Ok? && v.ids != {} {
      MatchingSpec(layer.rows, Lower(v.field), v.ids);
    }
  }

  /** Lines 219-231 for one related table `k`: missing from the map, or the outcome on its first layer. */
  function KeyOutcome(layers: seq<Layer>, lookup: map<string, seq<LayerRef>>, k: string, v: SelectionInfo)
    : Result<KeyEffect>
    requires LookupValid(lookup, |layers|)
  {
    if k !in lookup then Ok(Missing)
    else match SelectOutcome(layers[lookup[k][0]], v)
      case Err(e) => Err(e)
      case Ok(oids) => Ok(Select(lookup[k][0], oids))
  }

  /** The ids table `k` adds to its layer's selection; nothing when it is missing or fails. */
  function KeyOids(layers: seq<Layer>, lookup: map<string, seq<LayerRef>>, info: map<string, SelectionInfo>,
                   k: string): set<int>
    requires LookupValid(lookup, |layers|)
  {
    if k in info && KeyOutcome(layers, lookup, k, info[k]).Ok? && KeyOutcome(layers, lookup, k, info[k]).value.Select?
    then Elems(KeyOutcome(layers, lookup, k, info[k]).value.oids)
    else {}
  }

  /** The count line 232 reports for table `k`. */
  function KeyCount(layers: seq<Layer>, lookup: map<string, seq<LayerRef>>, info: map<string, SelectionInfo>,
                    k: string): nat
    requires LookupValid(lookup, |layers|)
  {
    if k in info && KeyOutcome(layers, lookup, k, info[k]).Ok? && KeyOutcome(layers, lookup, k, info[k]).value.Select?
    then |KeyOutcome(layers, lookup, k, info[k]).value.oids|
    else 0
  }

  /** Table `k` of `done` runs at least one query, so its layer's selection is set. */
  predicate Queried(lookup: map<string, seq<LayerRef>>, info: map<string, SelectionInfo>, k: string) {
    k in info && k in lookup && info[k].ids != {}
  }

  /** The layers whose selection the tables of `done` set. */
  function Targets(layers: seq<Layer>, lookup: map<string, seq<LayerRef>>, info: map<string, SelectionInfo>,
                   done: set<string>): set<LayerRef>
    requires LookupValid(lookup, |layers|)
  {
    set k | k in done && Queried(lookup, info, k) :: lookup[k][0]
  }

  /** The ids the tables of `done` add to layer `t`. */
  function AddedTo(layers: seq<Layer>, lookup: map<string, seq<LayerRef>>, info: map<string, SelectionInfo>,
                   done: set<string>, t: LayerRef): set<int>
    requires LookupValid(lookup, |layers|)
  {
    set k, o | k in done && Queried(lookup, info, k) && lookup[k][0] == t && o in KeyOids(layers, lookup, info, k) :: o
  }

  /** `sets` with the ids of `added` joined in, layer by layer. */
  function Extend(sets: map<LayerRef, set<int>>, added: map<LayerRef, set<int>>): map<LayerRef, set<int>> {
    map t | t in sets.Keys + added.Keys :: Selection(sets, t) + Selection(added, t)
  }

  /** The ids the tables of `done` add, by layer. */
  function Additions(layers: seq<Layer>, lookup: map<string, seq<LayerRef>>, info: map<string, SelectionInfo>,
                     done: set<string>): map<LayerRef, set<int>>
    requires LookupValid(lookup, |layers|)
  {
    map t | t in Targets(layers, lookup, info, done) :: AddedTo(layers, lookup, info, done, t)
  }

  /** The selection store once the tables of `done` have been propagated. */
  function AfterKeys(sets: map<LayerRef, set<int>>, layers: seq<Layer>, lookup: map<string, seq<LayerRef>>,
                     info: map<string, SelectionInfo>, done: set<string>): map<LayerRef, set<int>>
    requires LookupValid(lookup, |layers|)
  {
    Extend(sets, Additions(layers, lookup, info, done))
  }

  /** `missing_related` once the tables of `done` have been propagated. */
  function MissingTables(lookup: map<string, seq<LayerRef>>, info: map<string, SelectionInfo>, done: set<string>)
    : set<string>
  {
    set k | k in done && k in info && k !in lookup
  }

  /** The counts line 232 reports for the tables of `done`. */
  function Reported(layers: seq<Layer>, lookup: map<string, seq<LayerRef>>, info: map<string, SelectionInfo>,
                    done: set<string>): map<string, nat>
    requires LookupValid(lookup, |layers|)
  {
    map k | k in done && k in info && k in lookup :: KeyCount(layers, lookup, info, k)
  }

  /** Both records grow by the one table just propagated. */
  lemma RecordsStep(layers: seq<Layer>, lookup: map<string, seq<LayerRef>>, info: map<string, SelectionInfo>,
                    done: set<string>, k: string)
    requires LookupValid(lookup, |layers|) && k in info
    ensures MissingTables(lookup, info, done + {k}) == MissingTables(lookup, info, done) + (if k in lookup then {} else {k})
    ensures Reported(layers, lookup, info, done + {k})
            == if k in lookup then Reported(layers, lookup, info, done)[k := KeyCount(layers, lookup, info, k)]
               else Reported(layers, lookup, info, done)
  {
  }

  /** Phase 2 runs to the end exactly when no table fails. */
  predicate AllSucceed(layers: seq<Layer>, lookup: map<string, seq<LayerRef>>, info: map<string, SelectionInfo>)
    requires LookupValid(lookup, |layers|)
  {
    forall k :: k in info ==> KeyOutcome(layers, lookup, k, info[k]).Ok?
  }

  lemma TargetsStep(layers: seq<Layer>, lookup: map<string, seq<LayerRef>>, info: map<string, SelectionInfo>,
                    done: set<string>, k: string)
    requires LookupValid(lookup, |layers|)
    ensures Targets(layers, lookup, info, done + {k})
            == Targets(layers, lookup, info, done) + (if Queried(lookup, info, k) then {lookup[k][0]} else {})
  {
  }

  lemma AddedToStep(layers: seq<Layer>, lookup: map<string, seq<LayerRef>>, info: map<string, SelectionInfo>,
                    done: set<string>, k: string, t: LayerRef)
    requires LookupValid(lookup, |layers|)
    ensures AddedTo(layers, lookup, info, done + {k}, t)
            == AddedTo(layers, lookup, info, done, t)
               + (if Queried(lookup, info, k) && lookup[k][0] == t then KeyOids(layers, lookup, info, k) else {})
  {
    var after := AddedTo(layers, lookup, info, done + {k}, t);
    var before := AddedTo(layers, lookup, info, done, t);
    var extra := if Queried(lookup, info, k) && lookup[k][0] == t then KeyOids(layers, lookup, info, k) else {};
    forall o | o in after ensures o in before + extra {
      var k' :| k' in done + {k} && Queried(lookup, info, k') && lookup[k'][0] == t
                && o in KeyOids(layers, lookup, info, k');
      if k' != k { assert o in before; }
    }
    forall o | o in before ensures o in after {
      var k' :| k' in done && Queried(lookup, info, k') && lookup[k'][0] == t && o in KeyOids(layers, lookup, info, k');
      assert k' in done + {k};
    }
    forall o | o in extra ensures o in after {
      assert k in done + {k};
    }
  }

  /** A layer gains exactly the ids the tables of `done` add to it. */
  lemma AdditionsAt(layers: seq<Layer>, lookup: map<string, seq<LayerRef>>, info: map<string, SelectionInfo>,
                    done: set<string>, t: LayerRef)
    requires LookupValid(lookup, |layers|)
    ensures Selection(Additions(layers, lookup, info, done), t) == AddedTo(layers, lookup, info, done, t)
  {
    forall o | o in AddedTo(layers, lookup, info, done, t) ensures t in Targets(layers, lookup, info, done) {
      var k :| k in done && Queried(lookup, info, k) && lookup[k][0] == t && o in KeyOids(layers, lookup, info, k);
    }
  }

  lemma AfterKeysAt(sets: map<LayerRef, set<int>>, layers: seq<Layer>, lookup: map<string, seq<LayerRef>>,
                    info: map<string, SelectionInfo>, done: set<string>, t: LayerRef)
    requires LookupValid(lookup, |layers|)
    ensures Selection(AfterKeys(sets, layers, lookup, info, done), t)
            == Selection(sets, t) + AddedTo(layers, lookup, info, done, t)
  {
    AdditionsAt(layers, lookup, info, done, t);
    ExtendAt(sets, Additions(layers, lookup, info, done), t);
  }

  /** A layer's selection gains what is added to it. */
  lemma ExtendAt(sets: map<LayerRef, set<int>>, added: map<LayerRef, set<int>>, t: LayerRef)
    ensures Selection(Extend(sets, added), t) == Selection(sets, t) + Selection(added, t)
  {
  }

  lemma ExtendNothing(sets: map<LayerRef, set<int>>)
    ensures Extend(sets, map[]) == sets
  {
    var r := Extend(sets, map[]);
    forall t | t in sets ensures r[t] == sets[t] {
      ExtendAt(sets, map[], t);
    }
    assert r.Keys == sets.Keys;
  }

  lemma ExtendUpdate(sets: map<LayerRef, set<int>>, added: map<LayerRef, set<int>>, t: LayerRef, x: set<int>)
    ensures var e := Extend(sets, added);
      Extend(sets, added[t := Selection(added, t) + x]) == e[t := Selection(e, t) + x]
  {
    var e := Extend(sets, added);
    var added' := added[t := Selection(added, t) + x];
    var l := Extend(sets, added');
    var r := e[t := Selection(e, t) + x];
    assert l.Keys == r.Keys;
    forall u | u in l ensures l[u] == r[u] {
      ExtendAt(sets, added', u);
      ExtendAt(sets, added, u);
    }
  }

  lemma ExtendTwice(sets: map<LayerRef, set<int>>, added: map<LayerRef, set<int>>)
    ensures Extend(Extend(sets, added), added) == Extend(sets, added)
  {
    var e := Extend(sets, added);
    var e2 := Extend(e, added);
    assert e2.Keys == e.Keys;
    forall u | u in e2 ensures e2[u] == e[u] {
      ExtendAt(sets, added, u);
      ExtendAt(e, added, u);
    }
  }

  lemma AdditionsSkip(layers: seq<Layer>, lookup: map<string, seq<LayerRef>>, info: map<string, SelectionInfo>,
                      done: set<string>, k: string)
    requires LookupValid(lookup, |layers|) && !Queried(lookup, info, k)
    ensures Additions(layers, lookup, info, done + {k}) == Additions(layers, lookup, info, done)
  {
    TargetsStep(layers, lookup, info, done, k);
    forall t ensures AddedTo(layers, lookup, info, done + {k}, t) == AddedTo(layers, lookup, info, done, t) {
      AddedToStep(layers, lookup, info, done, k, t);
    }
  }

  lemma AdditionsAdd(layers: seq<Layer>, lookup: map<string, seq<LayerRef>>, info: map<string, SelectionInfo>,
                     done: set<string>, k: string)
    requires LookupValid(lookup, |layers|) && Queried(lookup, info, k)
    ensures var a := Additions(layers, lookup, info, done);
      Additions(layers, lookup, info, done + {k}) == a[lookup[k][0] := Selection(a, lookup[k][0]) + KeyOids(layers, lookup, info, k)]
  {
    var a := Additions(layers, lookup, info, done);
    var b := Additions(layers, lookup, info, done + {k});
    var t0 := lookup[k][0];
    var expected := a[t0 := Selection(a, t0) + KeyOids(layers, lookup, info, k)];
    TargetsStep(layers, lookup, info, done, k);
    forall t | t in b ensures b[t] == expected[t] {
      AddedToStep(layers, lookup, info, done, k, t);
      AdditionsAt(layers, lookup, info, done, t);
      assert Selection(b, t) == b[t];
    }
    assert b.Keys == expected.Keys;
  }

  /** Before any table is propagated, the selection is as it was. */
  lemma AfterKeysNone(sets: map<LayerRef, set<int>>, layers: seq<Layer>, lookup: map<string, seq<LayerRef>>,
                      info: map<string, SelectionInfo>)
    requires LookupValid(lookup, |layers|)
    ensures AfterKeys(sets, layers, lookup, info, {}) == sets
  {
    assert Targets(layers, lookup, info, {}) == {};
    assert Additions(layers, lookup, info, {}) == map[];
    ExtendNothing(sets);
  }

  /**
   * Propagating one more table changes at most the selection of its layer,
   * which gains that table's matching ids; a missing table or one without
   * ids changes nothing.
   */
  lemma AfterKeysStep(sets: map<LayerRef, set<int>>, layers: seq<Layer>, lookup: map<string, seq<LayerRef>>,
                      info: map<string, SelectionInfo>, done: set<string>, k: string)
    requires LookupValid(lookup, |layers|)
    ensures var a := AfterKeys(sets, layers, lookup, info, done);
      AfterKeys(sets, layers, lookup, info, done + {k})
      == if Queried(lookup, info, k)
         then a[lookup[k][0] := Selection(a, lookup[k][0]) + KeyOids(layers, lookup, info, k)]
         else a
  {
    if Queried(lookup, info, k) {
      AdditionsAdd(layers, lookup, info, done, k);
      ExtendUpdate(sets, Additions(layers, lookup, info, done), lookup[k][0], KeyOids(layers, lookup, info, k));
    } else {
      AdditionsSkip(layers, lookup, info, done, k);
    }
  }

  /** The selection never shrinks. */
  lemma AfterKeysGrows(sets: map<LayerRef, set<int>>, layers: seq<Layer>, lookup: map<string, seq<LayerRef>>,
                       info: map<string, SelectionInfo>, done: set<string>, t: LayerRef)
    requires LookupValid(lookup, |layers|)
    ensures Selection(sets, t) <= Selection(AfterKeys(sets, layers, lookup, info, done), t)
  {
    AfterKeysAt(sets, layers, lookup, info, done, t);
  }

  /** Propagating more tables selects more; so a run stopped by an exception lies between the old and the full selection. */
  lemma AfterKeysMonotone(sets: map<LayerRef, set<int>>, layers: seq<Layer>, lookup: map<string, seq<LayerRef>>,
                          info: map<string, SelectionInfo>, done: set<string>, all: set<string>, t: LayerRef)
    requires LookupValid(lookup, |layers|) && done <= all
    ensures Selection(AfterKeys(sets, layers, lookup, info, done), t)
            <= Selection(AfterKeys(sets, layers, lookup, info, all), t)
  {
    AfterKeysAt(sets, layers, lookup, info, done, t);
    AfterKeysAt(sets, layers, lookup, info, all, t);
    forall o | o in AddedTo(layers, lookup, info, done, t) ensures o in AddedTo(layers, lookup, info, all, t) {
      var k :| k in done && Queried(lookup, info, k) && lookup[k][0] == t && o in KeyOids(layers, lookup, info, k);
      assert k in all;
    }
  }

  /** A table's ids are exactly the matching rows of its layer, when its propagation succeeds. */
  lemma KeyOidsSpec(layers: seq<Layer>, lookup: map<string, seq<LayerRef>>, info: map<string, SelectionInfo>,
                    k: string, o: int)
    requires LookupValid(lookup, |layers|)
    requires k in info && k in lookup && KeyOutcome(layers, lookup, k, info[k]).Ok?
    ensures var t := lookup[k][0]; var f := Lower(info[k].field);
      o in KeyOids(layers, lookup, info, k)
      <==> exists r :: r in layers[t].rows && r.oid == o && f in r.values && r.values[f] in info[k].ids
  {
    MatchingSpec(layers[lookup[k][0]].rows, Lower(info[k].field), info[k].ids);
  }

  /**
   * The end result of phase 2 when no table fails: an id is selected on a
   * layer exactly when it was selected before, or it is the id of a row of
   * that layer whose foreign field holds one of the ids collected for a
   * table whose first layer it is.
   */
  lemma PropagationSelects(sets: map<LayerRef, set<int>>, layers: seq<Layer>, lookup: map<string, seq<LayerRef>>,
                           info: map<string, SelectionInfo>, t: LayerRef, o: int)
    requires LookupValid(lookup, |layers|) && AllSucceed(layers, lookup, info)
    ensures o in Selection(AfterKeys(sets, layers, lookup, info, info.Keys), t)
      <==> o in Selection(sets, t)
           || exists k, r :: k in info && k in lookup && lookup[k][0] == t && r in layers[t].rows && r.oid == o
                             && Lower(info[k].field) in r.values && r.values[Lower(info[k].field)] in info[k].ids
  {
    var a := AfterKeys(sets, layers, lookup, info, info.Keys);
    if o in Selection(a, t) && o !in Selection(sets, t) {
      SelectedByMatch(sets, layers, lookup, info, t, o);
    }
    if exists k, r :: k in info && k in lookup && lookup[k][0] == t && r in layers[t].rows && r.oid == o
                      && Lower(info[k].field) in r.values && r.values[Lower(info[k].field)] in info[k].ids {
      var k, r :| k in info && k in lookup && lookup[k][0] == t && r in layers[t].rows && r.oid == o
                  && Lower(info[k].field) in r.values && r.values[Lower(info[k].field)] in info[k].ids;
      MatchSelected(sets, layers, lookup, info, t, k, r);
    }
  }

  lemma SelectedByMatch(sets: map<LayerRef, set<int>>, layers: seq<Layer>, lookup: map<string, seq<LayerRef>>,
                        info: map<string, SelectionInfo>, t: LayerRef, o: int)
    requires LookupValid(lookup, |layers|) && AllSucceed(layers, lookup, info)
    requires o in Selection(AfterKeys(sets, layers, lookup, info, info.Keys), t) && o !in Selection(sets, t)
    ensures exists k, r :: k in info && k in lookup && lookup[k][0] == t && r in layers[t].rows && r.oid == o
                           && Lower(info[k].field) in r.values && r.values[Lower(info[k].field)] in info[k].ids
  {
    AfterKeysAt(sets, layers, lookup, info, info.Keys, t);
    var k :| k in info.Keys && Queried(lookup, info, k) && lookup[k][0] == t && o in KeyOids(layers, lookup, info, k);
    KeyOidsSpec(layers, lookup, info, k, o);
  }

  lemma MatchSelected(sets: map<LayerRef, set<int>>, layers: seq<Layer>, lookup: map<string, seq<LayerRef>>,
                      info: map<string, SelectionInfo>, t: LayerRef, k: string, r: Row)
    requires LookupValid(lookup, |layers|) && AllSucceed(layers, lookup, info)
    requires k in info && k in lookup && lookup[k][0] == t && r in layers[t].rows
    requires Lower(info[k].field) in r.values && r.values[Lower(info[k].field)] in info[k].ids
    ensures r.oid in Selection(AfterKeys(sets, layers, lookup, info, info.Keys), t)
  {
    KeyOidsSpec(layers, lookup, info, k, r.oid);
    assert Queried(lookup, info, k);
    assert r.oid in AddedTo(layers, lookup, info, info.Keys, t);
    AfterKeysAt(sets, layers, lookup, info, info.Keys, t);
  }

  /** Propagating the same tables again, over the same rows, selects nothing new. */
  lemma AfterKeysIdempotent(sets: map<LayerRef, set<int>>, layers: seq<Layer>, lookup: map<string, seq<LayerRef>>,
                            info: map<string, SelectionInfo>, done: set<string>)
    requires LookupValid(lookup, |layers|)
    ensures AfterKeys(AfterKeys(sets, layers, lookup, info, done), layers, lookup, info, done)
            == AfterKeys(sets, layers, lookup, info, done)
  {
    ExtendTwice(sets, Additions(layers, lookup, info, done));
  }
}
