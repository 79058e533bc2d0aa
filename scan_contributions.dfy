/**
 * Which key values phase 1 of `main` gathers for a related table, exactly:
 * a value is in `selection_info[k]['ids']` when, and only when, some layer
 * evaluated by the loop relates to `k` and one of the layers it reads (the
 * layer itself, or the sub-layers of a subtype group layer that were not
 * evaluated before) has a selected row holding the value in the lower-cased
 * `OriginPrimary` field of that relationship.
 */
module ScanContributions {
  import opened Common
  import opened Relationships
  import opened DictUtils
  import opened Layers
  import opened Scan
  import opened ScanProperties

  /** `v` is the value of field `f` in a selected row of one of the layers `srcs`. */
  ghost predicate SelectedValue(layers: seq<Layer>, sets: map<LayerRef, set<int>>, srcs: set<LayerRef>, f: string, v: Value) {
    exists s, r :: s in srcs && 0 <= s < |layers| && r in layers[s].rows && r.oid in Selection(sets, s)
                   && f in r.values && r.values[f] == v
  }

  /** `v` is the value of field `f` in a selected row of layer `s`. */
  ghost predicate SelectedIn(layers: seq<Layer>, sets: map<LayerRef, set<int>>, s: LayerRef, f: string, v: Value)
    requires s < |layers|
  {
    exists r :: r in layers[s].rows && r.oid in Selection(sets, s) && f in r.values && r.values[f] == v
  }

  /** Lines 186-192: the sub-layers the loop evaluates, those whose URI was not processed before them. */
  function SubSources(layers: seq<Layer>, subs: seq<LayerRef>, processed: seq<string>): set<LayerRef>
    requires RefsIn(subs, |layers|)
    decreases |subs|
  {
    if subs == [] then {}
    else
      var init := subs[..|subs| - 1];
      var s := subs[|subs| - 1];
      assert RefsIn(init, |layers|);
      SubSources(layers, init, processed) + (if layers[s].uri in Elems(processed) + Uris(layers, init) then {} else {s})
  }

  /** The layers whose rows a layer's branch reads: itself, or its newly evaluated sub-layers. */
  function Sources(layers: seq<Layer>, l: LayerRef, processed: seq<string>): set<LayerRef>
    requires WellFormed(layers) && l < |layers|
  {
    match layers[l].kind
    case Simple => {l}
    case SubtypeGroup(subs) =>
      assert RefsIn(subs, |layers|);
      SubSources(layers, subs, processed)
  }

  /** For every asked-for field, the columns read hold exactly the field's values in the selected rows of `srcs`. */
  ghost predicate ColumnsExact(layers: seq<Layer>, sets: map<LayerRef, set<int>>, fields: set<string>,
                         parentIds: map<string, seq<Value>>, srcs: set<LayerRef>) {
    forall f, v :: f in fields ==> (f in parentIds && v in parentIds[f] <==> SelectedValue(layers, sets, srcs, f, v))
  }

  /** `v` is among the ids gathered for table `k`. */
  predicate InIds(info: map<string, SelectionInfo>, k: string, v: Value) {
    k in info && v in info[k].ids
  }

  /** Table `k` is related through `rc`, and `v` is in k's primary field in a selected row of `srcs`. */
  ghost predicate Contributes(layers: seq<Layer>, sets: map<LayerRef, set<int>>, rc: RelInfo, srcs: set<LayerRef>,
                              k: string, v: Value) {
    k in rc && "OriginPrimary" in rc[k] && SelectedValue(layers, sets, srcs, Lower(rc[k]["OriginPrimary"]), v)
  }

  /**
   * Layer `l`, evaluated from state `st`, relates to `k` and one of the
   * layers it reads has a selected row with `v` in k's primary field.
   */
  ghost predicate ContributesAt(layers: seq<Layer>, sets: map<LayerRef, set<int>>, relateMap: RelateMap, l: LayerRef,
                                st: ScanState, k: string, v: Value)
    requires WellFormed(layers) && l < |layers|
  {
    && !layers[l].isBroken && layers[l].uri !in st.processed
    && RolesFor(layers[l], relateMap).Ok?
    && Contributes(layers, sets, RolesFor(layers[l], relateMap).value, Sources(layers, l, st.processed), k, v)
  }

  /** The `j`-th pass of the layer loop contributes `v` to table `k`. */
  ghost predicate ContributedBy(layers: seq<Layer>, sets: map<LayerRef, set<int>>, relateMap: RelateMap, j: nat,
                          k: string, v: Value)
    requires WellFormed(layers)
  {
    j < |layers| && ScanPrefix(layers, sets, relateMap, j).Ok?
    && ContributesAt(layers, sets, relateMap, j, ScanPrefix(layers, sets, relateMap, j).value, k, v)
  }

  lemma SelectedValueAdd(layers: seq<Layer>, sets: map<LayerRef, set<int>>, srcs: set<LayerRef>, s: LayerRef,
                         f: string, v: Value)
    requires s < |layers|
    ensures SelectedValue(layers, sets, srcs + {s}, f, v)
            <==> SelectedValue(layers, sets, srcs, f, v) || SelectedIn(layers, sets, s, f, v)
  {
    if SelectedIn(layers, sets, s, f, v) {
      var r :| r in layers[s].rows && r.oid in Selection(sets, s) && f in r.values && r.values[f] == v;
      assert s in srcs + {s};
    }
    if SelectedValue(layers, sets, srcs + {s}, f, v) {
      var s', r :| s' in srcs + {s} && 0 <= s' < |layers| && r in layers[s'].rows && r.oid in Selection(sets, s')
                   && f in r.values && r.values[f] == v;
      if s' != s { assert SelectedValue(layers, sets, srcs, f, v); }
    }
    if SelectedValue(layers, sets, srcs, f, v) {
      var s', r :| s' in srcs && 0 <= s' < |layers| && r in layers[s'].rows && r.oid in Selection(sets, s')
                   && f in r.values && r.values[f] == v;
      assert s' in srcs + {s};
    }
  }

  /** A read through the selection holds, per field, exactly the values of the selected rows. */
  lemma ReadColumnsExact(layer: Layer, sel: set<int>, fields: set<string>, f: string, v: Value)
    requires RowsComplete(layer) && ReadColumns(layer, sel, fields).Ok? && f in fields
    ensures var cols := ReadColumns(layer, sel, fields).value;
      (f in cols && v in cols[f]) <==> exists r :: r in layer.rows && r.oid in sel && f in r.values && r.values[f] == v
  {
    ReadColumnsSpec(layer, sel, fields);
    var cols := ReadColumns(layer, sel, fields).value;
    var rows := SelectedRows(layer.rows, sel);
    if exists r :: r in layer.rows && r.oid in sel && f in r.values && r.values[f] == v {
      var r :| r in layer.rows && r.oid in sel && f in r.values && r.values[f] == v;
      assert r in rows;
      assert cols != map[];
    }
  }

  /** One sub-layer: its rows join the sources exactly when it is evaluated. */
  lemma SubLayerStepExact(layers: seq<Layer>, sets: map<LayerRef, set<int>>, fields: set<string>, s: LayerRef,
                          c: Collected, srcs: set<LayerRef>)
    requires WellFormed(layers) && s < |layers| && fields != {}
    requires SubLayerStep(layers, sets, fields, s, c).Ok?
    requires ColumnsExact(layers, sets, fields, c.parentIds, srcs)
    ensures ColumnsExact(layers, sets, fields, SubLayerStep(layers, sets, fields, s, c).value.parentIds,
                         srcs + (if layers[s].uri in c.processed then {} else {s}))
  {
    var sub := layers[s];
    var c' := SubLayerStep(layers, sets, fields, s, c).value;
    if sub.uri !in c.processed {
      var sel := Selection(sets, s);
      forall f, v | f in fields
        ensures f in c'.parentIds && v in c'.parentIds[f] <==> SelectedValue(layers, sets, srcs + {s}, f, v)
      {
        SelectedValueAdd(layers, sets, srcs, s, f, v);
        if IsSelected(sets, s) {
          var ids := ReadColumns(sub, sel, fields).value;
          ReadColumnsExact(sub, sel, fields, f, v);
          GetMerge(c.parentIds, ids, f);
          MergeKeys(c.parentIds, ids);
          ReadColumnsSpec(sub, sel, fields);
          assert f in ids;
        } else {
          assert !SelectedIn(layers, sets, s, f, v);
        }
      }
    } else {
      assert srcs + {} == srcs;
    }
  }

  /** The sub-layer loop reads exactly the values of the selected rows of the sub-layers it evaluates. */
  lemma {:induction false} CollectSubLayersExact(layers: seq<Layer>, sets: map<LayerRef, set<int>>,
                                                fields: set<string>, subs: seq<LayerRef>, processed: seq<string>)
    requires WellFormed(layers) && RefsIn(subs, |layers|) && fields != {}
    requires CollectSubLayers(layers, sets, fields, subs, processed).Ok?
    ensures ColumnsExact(layers, sets, fields, CollectSubLayers(layers, sets, fields, subs, processed).value.parentIds,
                         SubSources(layers, subs, processed))
  {
    if subs == [] {
      forall f, v | f in fields ensures !SelectedValue(layers, sets, {}, f, v) { }
    } else {
      var init := subs[..|subs| - 1];
      var s := subs[|subs| - 1];
      assert RefsIn(init, |layers|);
      CollectSubLayersExact(layers, sets, fields, init, processed);
      CollectSubLayersProcessed(layers, sets, fields, init, processed);
      var c := CollectSubLayers(layers, sets, fields, init, processed).value;
      assert layers[s].uri in c.processed <==> layers[s].uri in Elems(processed) + Uris(layers, init);
      SubLayerStepExact(layers, sets, fields, s, c, SubSources(layers, init, processed));
    }
  }

  /** Either branch reads exactly the primary-field values of the selected rows of the layers it evaluates. */
  lemma CollectExact(layers: seq<Layer>, sets: map<LayerRef, set<int>>, l: LayerRef, rc: RelInfo,
                     processed: seq<string>)
    requires WellFormed(layers) && l < |layers| && rc != map[]
    requires Collect(layers, sets, l, rc, processed).Ok? && PrimaryFields(rc).Ok?
    ensures ColumnsExact(layers, sets, PrimaryFields(rc).value, Collect(layers, sets, l, rc, processed).value.parentIds,
                         Sources(layers, l, processed))
  {
    var fields := PrimaryFields(rc).value;
    var k :| k in rc;
    assert Lower(rc[k]["OriginPrimary"]) in fields;
    var c := Collect(layers, sets, l, rc, processed).value;
    match layers[l].kind
    case SubtypeGroup(subs) =>
      assert RefsIn(subs, |layers|);
      CollectSubLayersExact(layers, sets, fields, subs, processed);
    case Simple =>
      forall f, v | f in fields
        ensures f in c.parentIds && v in c.parentIds[f] <==> SelectedValue(layers, sets, {l}, f, v)
      {
        SelectedValueAdd(layers, sets, {}, l, f, v);
        assert {} + {l} == {l};
        if IsSelected(sets, l) {
          ReadColumnsExact(layers[l], Selection(sets, l), fields, f, v);
        }
      }
  }

  /** Lines 205-210: merging exactly-read columns adds to each related table the values its primary field read. */
  lemma FinishIds(layers: seq<Layer>, sets: map<LayerRef, set<int>>, info: map<string, SelectionInfo>, rc: RelInfo,
                  c: Collected, srcs: set<LayerRef>)
    requires Finish(info, rc, c).Ok? && c.count > 0 && PrimaryFields(rc).Ok?
    requires ColumnsExact(layers, sets, PrimaryFields(rc).value, c.parentIds, srcs)
    ensures forall k, v :: InIds(Finish(info, rc, c).value, k, v)
                           <==> InIds(info, k, v) || Contributes(layers, sets, rc, srcs, k, v)
  {
    UpdateInfoSpec(info, rc, c.parentIds);
    forall k, v | k in rc
      ensures InIds(Finish(info, rc, c).value, k, v)
              <==> InIds(info, k, v) || SelectedValue(layers, sets, srcs, Lower(rc[k]["OriginPrimary"]), v)
    {
      assert Lower(rc[k]["OriginPrimary"]) in PrimaryFields(rc).value;
    }
  }

  /**
   * One pass of the layer loop: a table's ids afterwards are its ids before,
   * and the values the pass contributes to it.
   */
  lemma LayerStepIds(layers: seq<Layer>, sets: map<LayerRef, set<int>>, relateMap: RelateMap, l: LayerRef,
                     st: ScanState)
    requires WellFormed(layers) && l < |layers|
    requires LayerStep(layers, sets, relateMap, l, st).Ok?
    ensures forall k, v :: InIds(LayerStep(layers, sets, relateMap, l, st).value.info, k, v)
                           <==> InIds(st.info, k, v) || ContributesAt(layers, sets, relateMap, l, st, k, v)
  {
    var layer := layers[l];
    if !layer.isBroken && layer.uri !in st.processed {
      var rc := RolesFor(layer, relateMap).value;
      if rc != map[] {
        var c := Collect(layers, sets, l, rc, st.processed).value;
        CollectUniform(layers, sets, l, rc, st.processed);
        CollectExact(layers, sets, l, rc, st.processed);
        assert LayerStep(layers, sets, relateMap, l, st).value.info == Finish(st.info, rc, c).value;
        FinishIds(layers, sets, st.info, rc, c, Sources(layers, l, st.processed));
      }
    }
  }

  /**
   * Phase 1 over the first `n` layers: a value is among the ids of table `k`
   * exactly when one of those passes contributed it, that is, an evaluated
   * layer relating to `k` read it from a selected row in k's primary field.
   */
  lemma {:induction false} ScanIds(layers: seq<Layer>, sets: map<LayerRef, set<int>>, relateMap: RelateMap, n: nat)
    requires WellFormed(layers) && n <= |layers|
    requires ScanPrefix(layers, sets, relateMap, n).Ok?
    ensures forall k, v :: InIds(ScanPrefix(layers, sets, relateMap, n).value.info, k, v)
                           <==> exists j :: 0 <= j < n && ContributedBy(layers, sets, relateMap, j, k, v)
  {
    if n > 0 {
      var m := n - 1;
      ScanIds(layers, sets, relateMap, m);
      var st := ScanPrefix(layers, sets, relateMap, m).value;
      assert ScanPrefix(layers, sets, relateMap, n) == LayerStep(layers, sets, relateMap, m, st);
      LayerStepIds(layers, sets, relateMap, m, st);
      forall k, v
        ensures (exists j :: 0 <= j < n && ContributedBy(layers, sets, relateMap, j, k, v))
                <==> (exists j :: 0 <= j < m && ContributedBy(layers, sets, relateMap, j, k, v))
                     || ContributesAt(layers, sets, relateMap, m, st, k, v)
      {
        assert ContributedBy(layers, sets, relateMap, m, k, v) <==> ContributesAt(layers, sets, relateMap, m, st, k, v);
      }
    }
  }

  /** The same for the whole of phase 1. */
  lemma Phase1Ids(layers: seq<Layer>, sets: map<LayerRef, set<int>>, relateMap: RelateMap)
    requires WellFormed(layers) && Phase1(layers, sets, relateMap).Ok?
    ensures forall k, v :: InIds(Phase1(layers, sets, relateMap).value.info, k, v)
                           <==> exists j :: 0 <= j < |layers| && ContributedBy(layers, sets, relateMap, j, k, v)
  {
    ScanIds(layers, sets, relateMap, |layers|);
  }
}
