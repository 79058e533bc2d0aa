/**
 * `SelectRelated.main` as the loops it is: the variables the two phases fill
 * are the fields of a `SelectRelated` object, and the host's selection state
 * is a `SelectionStore` that phase 2 changes in place. Each method is proved
 * to leave exactly the state the functions of `Scan` and `Propagate`
 * describe, or to stop with the exception they name.
 */
module Engine {
  import opened Common
  import opened Chunking
  import opened SqlBuilder
  import opened Relationships
  import opened DictUtils
  import opened Layers
  import opened Scan
  import opened ScanProperties
  import opened Propagate

  /** How `main` ends: normally, or by the exception it raised. */
  datatype Status = Success | Failure(error: Error)

  /** Phase 1 stops at the first exception: whatever follows it is not run. */
  lemma {:induction false} ScanPrefixFailed(layers: seq<Layer>, sets: map<LayerRef, set<int>>, relateMap: RelateMap,
                                           k: nat)
    requires WellFormed(layers) && k <= |layers|
    requires ScanPrefix(layers, sets, relateMap, k).Err?
    ensures Phase1(layers, sets, relateMap) == ScanPrefix(layers, sets, relateMap, k)
    decreases |layers| - k
  {
    if k < |layers| {
      ScanPrefixFailed(layers, sets, relateMap, k + 1);
    }
  }

  /** The loop over the sub-layers stops at the first exception. */
  lemma {:induction false} CollectSubLayersFailed(layers: seq<Layer>, sets: map<LayerRef, set<int>>,
                                                 fields: set<string>, subs: seq<LayerRef>, processed: seq<string>,
                                                 k: nat)
    requires WellFormed(layers) && RefsIn(subs, |layers|) && k <= |subs|
    requires CollectSubLayers(layers, sets, fields, subs[..k], processed).Err?
    ensures CollectSubLayers(layers, sets, fields, subs, processed)
            == CollectSubLayers(layers, sets, fields, subs[..k], processed)
    decreases |subs| - k
  {
    if k < |subs| {
      assert subs[..k + 1][..k] == subs[..k];
      CollectSubLayersFailed(layers, sets, fields, subs, processed, k + 1);
    } else {
      assert subs[..k] == subs;
    }
  }

  /**
   * `Updated` grows one entry at a time: a table not yet merged still has its
   * old entry, and merging it is `setdefault(...)['ids'].update(...)`.
   */
  lemma UpdatedStep(info: map<string, SelectionInfo>, rc: RelInfo, parentIds: map<string, seq<Value>>,
                    done: set<string>, k: string)
    requires forall k' :: k' in done ==> k' in rc && Contributable(rc[k'], parentIds)
    requires k in rc && k !in done && Contributable(rc[k], parentIds)
    ensures var cur := Updated(info, rc, parentIds, done);
      var added := Elems(parentIds[Lower(rc[k]["OriginPrimary"])]);
      var entry := if k in cur then cur[k] else SelectionInfo(rc[k]["OriginForeign"], {});
      Updated(info, rc, parentIds, done + {k}) == cur[k := entry.(ids := entry.ids + added)]
  {
    var cur := Updated(info, rc, parentIds, done);
    var next := Updated(info, rc, parentIds, done + {k});
    var added := Elems(parentIds[Lower(rc[k]["OriginPrimary"])]);
    var entry := if k in cur then cur[k] else SelectionInfo(rc[k]["OriginForeign"], {});
    var expected := cur[k := entry.(ids := entry.ids + added)];
    assert next.Keys == expected.Keys;
    forall k' | k' in next ensures next[k'] == expected[k'] {
      if k' == k {
        assert k in cur <==> k in info;
        assert k in cur ==> cur[k] == info[k];
        assert {} + added == added;
      }
    }
  }

  /** The members of a set, one at a time, in whatever order the set yields them. */
  method Enumerate<T(==)>(s: set<T>) returns (xs: seq<T>)
    ensures Elems(xs) == s && Distinct(xs)
  {
    xs := [];
    var rest := s;
    while rest != {}
      invariant Elems(xs) + rest == s && Elems(xs) !! rest && Distinct(xs)
      decreases rest
    {
      var x :| x in rest;
      xs := xs + [x];
      rest := rest - {x};
    }
  }

  /**
   * Lines 194-195: `parent_ids.setdefault(field, []).extend(ids[field])` for
   * every primary field, which raises KeyError on the first field the
   * cursor's dictionary lacks.
   */
  method ExtendColumns(parentIds: map<string, seq<Value>>, ids: map<string, seq<Value>>, fields: set<string>)
    returns (status: Status, r: map<string, seq<Value>>)
    ensures status.Success? <==> fields <= ids.Keys
    ensures status.Success? ==> r == MergeDols(parentIds, map f | f in fields :: ids[f])
    ensures status.Failure? ==> status.error == KeyError
  {
    r := parentIds;
    var remaining := fields;
    ghost var done: set<string> := {};
    MergeDolsIdentity(parentIds);
    while remaining != {}
      invariant done + remaining == fields && done !! remaining
      invariant done <= ids.Keys
      invariant r == MergeDols(parentIds, map f | f in done :: ids[f])
      decreases remaining
    {
      var f :| f in remaining;
      if f !in ids {
        return Failure(KeyError), r;
      }
      ExtendStep(parentIds, ids, done, f);
      r := r[f := Get(r, f) + ids[f]];
      remaining := remaining - {f};
      done := done + {f};
    }
    status := Success;
  }

  /** Extending by one more field's column merges that column in as well. */
  lemma ExtendStep(parentIds: map<string, seq<Value>>, ids: map<string, seq<Value>>, done: set<string>, f: string)
    requires done <= ids.Keys && f in ids && f !in done
    ensures var r := MergeDols(parentIds, map g | g in done :: ids[g]);
      r[f := Get(r, f) + ids[f]] == MergeDols(parentIds, map g | g in done + {f} :: ids[g])
  {
    var m := map g | g in done :: ids[g];
    var m' := map g | g in done + {f} :: ids[g];
    assert m' == m[f := ids[f]];
    var r := MergeDols(parentIds, m);
    assert Get(r, f) == Get(parentIds, f);
    assert Get(m', f) == ids[f];
  }

  /** Querying one more batch adds its rows to those of the batches before it, none of them twice. */
  lemma BatchStep(rows: seq<Row>, f: string, bs: seq<seq<string>>, b: nat)
    requires b < |bs| && Distinct(Flatten(bs))
    ensures var before := QueryOids(rows, f, Flatten(bs[..b]));
      var after := QueryOids(rows, f, Flatten(bs[..b + 1]));
      && Elems(after) == Elems(before) + Elems(QueryOids(rows, f, bs[b]))
      && |after| == |before| + |QueryOids(rows, f, bs[b])|
  {
    assert bs[..b + 1] == bs[..b] + [bs[b]];
    FlattenAppend(bs[..b], bs[b]);
    BatchesDisjoint(bs, b);
    QueryOidsAppend(rows, f, Flatten(bs[..b]), bs[b]);
  }

  /** Every table phase 1 registers has a first layer, and it is one of the map's. */
  lemma Phase1LookupValid(layers: seq<Layer>, sets: map<LayerRef, set<int>>, relateMap: RelateMap)
    requires WellFormed(layers) && Phase1(layers, sets, relateMap).Ok?
    ensures LookupValid(Phase1(layers, sets, relateMap).value.lookup, |layers|)
  {
    ScanLookup(layers, sets, relateMap, |layers|);
    var lookup := Phase1(layers, sets, relateMap).value.lookup;
    forall key | key in lookup ensures lookup[key] != [] && lookup[key][0] < |layers| {
      assert lookup[key] != [];
    }
  }

  /** The engine of `SelectRelated.main`: the state its two phases fill. */
  class SelectRelated {
    var datasourceLookup: map<string, seq<LayerRef>>
    var cimsProcessed: seq<string>
    var selectionInfo: map<string, SelectionInfo>
    var missingRelated: set<string>
    /** The count line 232 reports, by related table. */
    var reported: map<string, nat>

    /** What phase 1 has filled so far. */
    function State(): ScanState
      reads this
    {
      ScanState(datasourceLookup, cimsProcessed, selectionInfo)
    }

    constructor()
      ensures State() == Initial && missingRelated == {} && reported == map[]
    {
      datasourceLookup := map[];
      cimsProcessed := [];
      selectionInfo := map[];
      missingRelated := {};
      reported := map[];
    }

    /** Line 209: merge the primary keys read into `selection_info`, one relationship entry at a time. */
    method UpdateSelectionInfo(rc: RelInfo, parentIds: map<string, seq<Value>>) returns (status: Status)
      modifies this`selectionInfo
      ensures var r := UpdateInfo(old(selectionInfo), rc, parentIds);
        && (status.Success? <==> r.Ok?)
        && (r.Ok? ==> selectionInfo == r.value)
        && (r.Err? ==> status == Failure(r.error))
    {
      ghost var info0 := selectionInfo;
      var remaining := rc.Keys;
      ghost var done: set<string> := {};
      while remaining != {}
        invariant done + remaining == rc.Keys && done !! remaining
        invariant forall k :: k in done ==> Contributable(rc[k], parentIds)
        invariant selectionInfo == Updated(info0, rc, parentIds, done)
        decreases remaining
      {
        var k :| k in remaining;
        var v := rc[k];
        if "OriginForeign" !in v || "OriginPrimary" !in v || Lower(v["OriginPrimary"]) !in parentIds {
          return Failure(KeyError);
        }
        var entry := if k in selectionInfo then selectionInfo[k] else SelectionInfo(v["OriginForeign"], {});
        UpdatedStep(info0, rc, parentIds, done, k);
        selectionInfo := selectionInfo[k := entry.(ids := entry.ids + Elems(parentIds[Lower(v["OriginPrimary"])]))];
        remaining := remaining - {k};
        done := done + {k};
      }
      return Success;
    }

    /** Lines 187-196 for one sub-layer: evaluate it unless its URI was, and extend `parent_ids` by its keys. */
    method GatherSubLayer(layers: seq<Layer>, store: SelectionStore, fields: set<string>, s: LayerRef,
                          parentIds: map<string, seq<Value>>, ghost count: nat)
      returns (status: Status, parentIds': map<string, seq<Value>>, ghost count': nat)
      requires WellFormed(layers) && s < |layers|
      modifies this`cimsProcessed
      ensures var r := SubLayerStep(layers, store.sets, fields, s, Collected(old(cimsProcessed), parentIds, count));
        && (status.Success? <==> r.Ok?)
        && (r.Ok? ==> r.value == Collected(cimsProcessed, parentIds', count'))
        && (r.Err? ==> status == Failure(r.error))
    {
      parentIds', count' := parentIds, count;
      var sub := layers[s];
      if sub.uri in cimsProcessed {
        return Success, parentIds', count';
      }
      cimsProcessed := cimsProcessed + [sub.uri];
      if IsSelected(store.sets, s) {
        var ids := ReadColumns(sub, Selection(store.sets, s), fields);
        if ids.Err? {
          return Failure(ids.error), parentIds', count';
        }
        ReadColumnsSpec(sub, Selection(store.sets, s), fields);
        var st, merged := ExtendColumns(parentIds, ids.value, fields);
        if st.Failure? {
          return st, parentIds', count';
        }
        assert (map f | f in fields :: ids.value[f]) == ids.value;
        parentIds' := merged;
        count' := count + |SelectedRows(sub.rows, Selection(store.sets, s))|;
      }
      status := Success;
    }

    /** Lines 186-196: the sub-layers of a subtype group layer, each evaluated once. */
    method GatherSubLayers(layers: seq<Layer>, store: SelectionStore, fields: set<string>, subs: seq<LayerRef>)
      returns (status: Status, parentIds: map<string, seq<Value>>, ghost count: nat)
      requires WellFormed(layers) && RefsIn(subs, |layers|)
      modifies this`cimsProcessed
      ensures var r := CollectSubLayers(layers, store.sets, fields, subs, old(cimsProcessed));
        && (status.Success? <==> r.Ok?)
        && (r.Ok? ==> r.value == Collected(cimsProcessed, parentIds, count))
        && (r.Err? ==> status == Failure(r.error))
    {
      ghost var processed0 := cimsProcessed;
      parentIds := map[];
      count := 0;
      for j := 0 to |subs|
        invariant CollectSubLayers(layers, store.sets, fields, subs[..j], processed0)
                  == Ok(Collected(cimsProcessed, parentIds, count))
      {
        assert subs[..j + 1][..j] == subs[..j];
        assert subs[..j + 1][j] == subs[j];
        status, parentIds, count := GatherSubLayer(layers, store, fields, subs[j], parentIds, count);
        if status.Failure? {
          CollectSubLayersFailed(layers, store.sets, fields, subs, processed0, j + 1);
          return;
        }
      }
      assert subs[..|subs|] == subs;
      status := Success;
    }

    /** Lines 153-210: one pass of the loop over `layers + tables`. */
    method ReviewLayer(layers: seq<Layer>, store: SelectionStore, relateMap: RelateMap, l: LayerRef)
      returns (status: Status)
      requires WellFormed(layers) && l < |layers|
      modifies this`datasourceLookup, this`cimsProcessed, this`selectionInfo
      ensures var r := LayerStep(layers, store.sets, relateMap, l, old(State()));
        && (status.Success? <==> r.Ok?)
        && (r.Ok? ==> State() == r.value)
        && (r.Err? ==> status == Failure(r.error))
    {
      var layer := layers[l];
      if layer.isBroken {
        return Success;
      }
      if layer.isFeatureLayer != Some(false) {
        datasourceLookup := AppendTo(datasourceLookup, layer.dataset, l);
        datasourceLookup := AppendTo(datasourceLookup, layer.name, l);
      }
      if layer.uri in cimsProcessed {
        return Success;
      }
      var rcInfo: RelInfo;
      if relateMap != map[] {
        if layer.name !in relateMap {
          return Success;
        }
        rcInfo := relateMap[layer.name];
      } else {
        var found := RcInfo(layer.desc);
        if found.Err? {
          return Failure(found.error);
        }
        rcInfo := found.value;
      }
      if rcInfo == map[] {
        return Success;
      }
      var st, parentIds, count := ReadPrimaryKeys(layers, store, l, rcInfo);
      if st.Failure? {
        return st;
      }
      status := SelectCount(rcInfo, parentIds, count);
    }

    /** Lines 182-203: the primary keys of the selected rows, by branch. */
    method ReadPrimaryKeys(layers: seq<Layer>, store: SelectionStore, l: LayerRef, rc: RelInfo)
      returns (status: Status, parentIds: map<string, seq<Value>>, ghost count: nat)
      requires WellFormed(layers) && l < |layers| && rc != map[]
      modifies this`cimsProcessed
      ensures var r := Collect(layers, store.sets, l, rc, old(cimsProcessed));
        && (status.Success? <==> r.Ok?)
        && (r.Ok? ==> r.value == Collected(cimsProcessed, parentIds, count)
                      && (forall f :: f in parentIds ==> |parentIds[f]| == count)
                      && (parentIds != map[] ==> count > 0))
        && (r.Err? ==> status == Failure(r.error))
    {
      ghost var processed0 := cimsProcessed;
      var layer := layers[l];
      parentIds := map[];
      count := 0;
      match layer.kind {
        case SubtypeGroup(subs) =>
          var fields := PrimaryFields(rc);
          if fields.Err? {
            return Failure(fields.error), parentIds, count;
          }
          status, parentIds, count := GatherSubLayers(layers, store, fields.value, subs);
          if status.Failure? {
            return;
          }
        case Simple =>
          cimsProcessed := cimsProcessed + [layer.uri];
          if IsSelected(store.sets, l) {
            var fields := PrimaryFields(rc);
            if fields.Err? {
              return Failure(fields.error), parentIds, count;
            }
            var cols := ReadColumns(layer, Selection(store.sets, l), fields.value);
            if cols.Err? {
              return Failure(cols.error), parentIds, count;
            }
            parentIds := cols.value;
            count := |SelectedRows(layer.rows, Selection(store.sets, l))|;
          }
      }
      assert Collect(layers, store.sets, l, rc, processed0) == Ok(Collected(cimsProcessed, parentIds, count));
      CollectUniform(layers, store.sets, l, rc, processed0);
      status := Success;
    }

    /**
     * Lines 205-210: the length of whichever column comes first is the number
     * of rows read; when there is one, the keys go into `selection_info`.
     */
    method SelectCount(rc: RelInfo, parentIds: map<string, seq<Value>>, ghost count: nat) returns (status: Status)
      requires forall f :: f in parentIds ==> |parentIds[f]| == count
      modifies this`selectionInfo
      ensures var r := Finish(old(selectionInfo), rc, Collected([], parentIds, count));
        && (status.Success? <==> r.Ok?)
        && (r.Ok? ==> selectionInfo == r.value)
        && (r.Err? ==> status == Failure(r.error))
    {
      if parentIds == map[] {
        return Failure(StopIteration);
      }
      var f :| f in parentIds;
      var selectCount := |parentIds[f]|;
      if selectCount > 0 {
        status := UpdateSelectionInfo(rc, parentIds);
      } else {
        status := Success;
      }
    }

    /** Lines 143-210: phase 1, from empty variables, over every layer and table in order. */
    method ReviewSelections(layers: seq<Layer>, store: SelectionStore, relateMap: RelateMap) returns (status: Status)
      requires WellFormed(layers)
      modifies this`datasourceLookup, this`cimsProcessed, this`selectionInfo
      ensures var r := Phase1(layers, store.sets, relateMap);
        && (status.Success? <==> r.Ok?)
        && (r.Ok? ==> State() == r.value)
        && (r.Err? ==> status == Failure(r.error))
    {
      datasourceLookup := map[];
      cimsProcessed := [];
      selectionInfo := map[];
      for l := 0 to |layers|
        invariant ScanPrefix(layers, store.sets, relateMap, l) == Ok(State())
      {
        status := ReviewLayer(layers, store, relateMap, l);
        if status.Failure? {
          ScanPrefixFailed(layers, store.sets, relateMap, l + 1);
          return;
        }
      }
      return Success;
    }

    /**
     * Lines 224-231 for one related table whose first layer is `t`: one
     * query per IN-list batch, each adding the object ids it returns to the
     * layer's selection, and the total count.
     */
    method SelectInLayer(layers: seq<Layer>, store: SelectionStore, t: LayerRef, v: SelectionInfo)
      returns (status: Status, count: nat)
      requires t < |layers|
      modifies store
      ensures var r := SelectOutcome(layers[t], v);
        && (status.Success? <==> r.Ok?)
        && (r.Err? ==> status == Failure(r.error) && store.sets == old(store.sets))
        && (r.Ok? ==>
              && count == |r.value|
              && store.sets == (if v.ids == {} then old(store.sets)
                                else old(store.sets)[t := Selection(old(store.sets), t) + Elems(r.value)]))
    {
      var layer := layers[t];
      var vals := Enumerate(v.ids);
      var batches := ValueBatches(Collection(vals));
      HomogeneousEnumeration(vals, v.ids);
      if batches.Err? {
        return Failure(batches.error), 0;
      }
      var bs := batches.value.1;
      var f := Lower(v.field);
      if vals != [] {
        InListsShape(vals);
        BatchesFindMatches(layer.rows, f, vals);
      }
      status, count := QueryBatches(layer, store, t, f, bs);
    }

    /**
     * Lines 226-229: for each where-clause, the object ids of the layer's
     * rows it matches are added to the layer's selection. A layer without the
     * where-clause's field or without `objectid` makes the first query fail.
     */
    method QueryBatches(layer: Layer, store: SelectionStore, t: LayerRef, f: string, bs: seq<seq<string>>)
      returns (status: Status, count: nat)
      requires Distinct(Flatten(bs))
      modifies store
      ensures bs == [] ==> status == Success && count == 0 && store.sets == old(store.sets)
      ensures bs != [] && !Queryable(layer, f) ==> status == Failure(FieldNotFound) && store.sets == old(store.sets)
      ensures bs != [] && Queryable(layer, f) ==>
        var oids := QueryOids(layer.rows, f, Flatten(bs));
        && status == Success && count == |oids|
        && store.sets == old(store.sets)[t := Selection(old(store.sets), t) + Elems(oids)]
    {
      ghost var sets0 := store.sets;
      count := 0;
      for b := 0 to |bs|
        invariant b > 0 ==> Queryable(layer, f)
        invariant count == if b == 0 then 0 else |QueryOids(layer.rows, f, Flatten(bs[..b]))|
        invariant store.sets == if b == 0 then sets0
                                else sets0[t := Selection(sets0, t) + Elems(QueryOids(layer.rows, f, Flatten(bs[..b])))]
      {
        if !Queryable(layer, f) {
          return Failure(FieldNotFound), 0;
        }
        var oids := QueryOids(layer.rows, f, bs[b]);
        ghost var before := QueryOids(layer.rows, f, Flatten(bs[..b]));
        ghost var after := QueryOids(layer.rows, f, Flatten(bs[..b + 1]));
        BatchStep(layer.rows, f, bs, b);
        if b == 0 {
          assert bs[..0] == [];
          QueryOidsNoLiterals(layer.rows, f);
          assert Elems(after) == Elems(oids);
        } else {
          assert Selection(store.sets, t) == Selection(sets0, t) + Elems(before);
          assert Selection(store.sets, t) + Elems(oids) == Selection(sets0, t) + Elems(after);
          assert store.sets == sets0[t := Selection(sets0, t) + Elems(before)];
        }
        ghost var expected := sets0[t := Selection(sets0, t) + Elems(after)];
        assert store.sets[t := Selection(store.sets, t) + Elems(oids)] == expected;
        store.Union(t, oids);
        count := count + |oids|;
      }
      assert bs[..|bs|] == bs;
      status := Success;
    }

    /**
     * Lines 215-236: phase 2, over the related tables in whatever order
     * `selection_info` yields them. A table missing from the map is only
     * noted; the first exception ends the loop, leaving the selections the
     * tables before it made.
     */
    method SelectRelatedRows(layers: seq<Layer>, store: SelectionStore) returns (status: Status)
      requires LookupValid(datasourceLookup, |layers|)
      modifies this`missingRelated, this`reported, store
      ensures status.Success? <==> AllSucceed(layers, datasourceLookup, selectionInfo)
      ensures status.Success? ==>
        && store.sets == AfterKeys(old(store.sets), layers, datasourceLookup, selectionInfo, selectionInfo.Keys)
        && missingRelated == MissingTables(datasourceLookup, selectionInfo, selectionInfo.Keys)
        && reported == Reported(layers, datasourceLookup, selectionInfo, selectionInfo.Keys)
      ensures status.Failure? ==>
        && (exists k :: k in selectionInfo && KeyOutcome(layers, datasourceLookup, k, selectionInfo[k]) == Err(status.error))
        && (exists done :: done <= selectionInfo.Keys
                           && store.sets == AfterKeys(old(store.sets), layers, datasourceLookup, selectionInfo, done))
    {
      missingRelated := {};
      reported := map[];
      ghost var sets0 := store.sets;
      var remaining := selectionInfo.Keys;
      ghost var done: set<string> := {};
      AfterKeysNone(sets0, layers, datasourceLookup, selectionInfo);
      assert MissingTables(datasourceLookup, selectionInfo, {}) == {};
      assert Reported(layers, datasourceLookup, selectionInfo, {}) == map[];
      while remaining != {}
        invariant done + remaining == selectionInfo.Keys && done !! remaining
        invariant forall k :: k in done ==> KeyOutcome(layers, datasourceLookup, k, selectionInfo[k]).Ok?
        invariant store.sets == AfterKeys(sets0, layers, datasourceLookup, selectionInfo, done)
        invariant missingRelated == MissingTables(datasourceLookup, selectionInfo, done)
        invariant reported == Reported(layers, datasourceLookup, selectionInfo, done)
        decreases remaining
      {
        var k :| k in remaining;
        AfterKeysStep(sets0, layers, datasourceLookup, selectionInfo, done, k);
        RecordsStep(layers, datasourceLookup, selectionInfo, done, k);
        var st := PropagateTable(layers, store, k);
        if st.Failure? {
          assert KeyOutcome(layers, datasourceLookup, k, selectionInfo[k]) == Err(st.error);
          assert done <= selectionInfo.Keys;
          return st;
        }
        remaining := remaining - {k};
        done := done + {k};
      }
      status := Success;
    }

    /** Lines 217-232 for related table `k`. */
    method PropagateTable(layers: seq<Layer>, store: SelectionStore, k: string) returns (status: Status)
      requires LookupValid(datasourceLookup, |layers|) && k in selectionInfo
      modifies this`missingRelated, this`reported, store
      ensures var r := KeyOutcome(layers, datasourceLookup, k, selectionInfo[k]);
        && (status.Success? <==> r.Ok?)
        && (r.Err? ==> status == Failure(r.error) && store.sets == old(store.sets))
        && (r.Ok? ==>
              && store.sets == (if Queried(datasourceLookup, selectionInfo, k)
                                then old(store.sets)[datasourceLookup[k][0] := Selection(old(store.sets), datasourceLookup[k][0])
                                                       + KeyOids(layers, datasourceLookup, selectionInfo, k)]
                                else old(store.sets))
              && missingRelated == old(missingRelated) + (if k in datasourceLookup then {} else {k})
              && reported == (if k in datasourceLookup
                              then old(reported)[k := KeyCount(layers, datasourceLookup, selectionInfo, k)]
                              else old(reported)))
    {
      var v := selectionInfo[k];
      if k !in datasourceLookup {
        missingRelated := missingRelated + {k};
        return Success;
      }
      var relatedLayer := datasourceLookup[k][0];
      var count;
      status, count := SelectInLayer(layers, store, relatedLayer, v);
      if status.Success? {
        reported := reported[k := count];
      }
    }

    /**
     * `main(relate_map)`: nothing happens when the map cannot be found;
     * otherwise phase 1 over the map's layers and tables, then phase 2 over
     * what it collected.
     */
    method Run(proMap: Option<seq<Layer>>, store: SelectionStore, relateMap: RelateMap) returns (status: Status)
      requires proMap.Some? ==> WellFormed(proMap.value)
      modifies this, store
      ensures proMap.None? ==> status == Success && store.sets == old(store.sets)
      ensures proMap.Some? ==>
        var layers := proMap.value;
        var p := Phase1(layers, old(store.sets), relateMap);
        && (p.Err? ==> status == Failure(p.error) && store.sets == old(store.sets))
        && (p.Ok? ==>
              && State() == p.value
              && LookupValid(p.value.lookup, |layers|)
              && (status.Success? <==> AllSucceed(layers, p.value.lookup, p.value.info))
              && (status.Success? ==>
                    && store.sets == AfterKeys(old(store.sets), layers, p.value.lookup, p.value.info, p.value.info.Keys)
                    && missingRelated == MissingTables(p.value.lookup, p.value.info, p.value.info.Keys)
                    && reported == Reported(layers, p.value.lookup, p.value.info, p.value.info.Keys))
              && (status.Failure? ==>
                    && (exists k :: k in p.value.info
                                    && KeyOutcome(layers, p.value.lookup, k, p.value.info[k]) == Err(status.error))
                    && (exists done :: done <= p.value.info.Keys
                                       && store.sets == AfterKeys(old(store.sets), layers, p.value.lookup, p.value.info, done))))
    {
      if proMap.None? {
        return Success;
      }
      var layers := proMap.value;
      status := ReviewSelections(layers, store, relateMap);
      if status.Failure? {
        return;
      }
      Phase1LookupValid(layers, store.sets, relateMap);
      status := SelectRelatedRows(layers, store);
    }
  }
}
