/**
 * What phase 1 of `main` guarantees: every URI is evaluated at most once,
 * `selection_info` only grows and keeps the first foreign field recorded for
 * a table, every collected key value was read from a selected row, every
 * table or feature layer can be found under its dataset and its name (the
 * first such layer first), and a layer with relationships but no selected
 * row stops the run.
 */
module ScanProperties {
  import opened Common
  import opened Relationships
  import opened DictUtils
  import opened Layers
  import opened Scan

  /**
   * Merging one layer's keys: it raises KeyError exactly when an entry lacks
   * a role or its primary column; otherwise every related table of the layer
   * gains the values of its primary column, a table seen before keeps the
   * foreign field it was first given, a new one takes its own, and every
   * other table is untouched.
   */
  lemma UpdateInfoSpec(info: map<string, SelectionInfo>, rc: RelInfo, parentIds: map<string, seq<Value>>)
    ensures UpdateInfo(info, rc, parentIds).Err? <==> exists k :: k in rc && !Contributable(rc[k], parentIds)
    ensures UpdateInfo(info, rc, parentIds).Err? ==> UpdateInfo(info, rc, parentIds).error == KeyError
    ensures UpdateInfo(info, rc, parentIds).Ok? ==>
      var m := UpdateInfo(info, rc, parentIds).value;
      && m.Keys == info.Keys + rc.Keys
      && (forall k :: k in rc ==>
            m[k].ids == (if k in info then info[k].ids else {}) + Elems(parentIds[Lower(rc[k]["OriginPrimary"])]))
      && (forall k :: k in info ==> m[k].field == info[k].field)
      && (forall k :: k in rc && k !in info ==> m[k].field == rc[k]["OriginForeign"])
      && (forall k :: k in info && k !in rc ==> m[k] == info[k])
  {
  }

  /** `b` extends `a`: no table lost, fields kept, ids only added. */
  predicate InfoGrows(a: map<string, SelectionInfo>, b: map<string, SelectionInfo>) {
    forall k :: k in a ==> k in b && b[k].field == a[k].field && a[k].ids <= b[k].ids
  }

  /** Every lookup list of `a` is a prefix of the list under the same key in `b`. */
  predicate LookupGrows(a: map<string, seq<LayerRef>>, b: map<string, seq<LayerRef>>) {
    forall key :: key in a ==> key in b && |a[key]| <= |b[key]| && b[key][..|a[key]|] == a[key]
  }

  predicate Grows(a: ScanState, b: ScanState) {
    && InfoGrows(a.info, b.info)
    && LookupGrows(a.lookup, b.lookup)
    && |a.processed| <= |b.processed| && b.processed[..|a.processed|] == a.processed
  }

  lemma GrowsTransitive(a: ScanState, b: ScanState, c: ScanState)
    requires Grows(a, b) && Grows(b, c)
    ensures Grows(a, c)
  {
    forall key | key in a.lookup ensures c.lookup[key][..|a.lookup[key]|] == a.lookup[key] {
      assert c.lookup[key][..|b.lookup[key]|][..|a.lookup[key]|] == c.lookup[key][..|a.lookup[key]|];
    }
    assert c.processed[..|b.processed|][..|a.processed|] == c.processed[..|a.processed|];
  }

  /** The set of URIs of some layers. */
  function Uris(layers: seq<Layer>, subs: seq<LayerRef>): set<string>
    requires RefsIn(subs, |layers|)
  {
    set j | 0 <= j < |subs| :: layers[subs[j]].uri
  }

  /**
   * The sub-layer loop appends to `cims_processed` exactly the URIs of the
   * sub-layers not yet in it, each once.
   */
  lemma {:induction false} CollectSubLayersProcessed(layers: seq<Layer>, sets: map<LayerRef, set<int>>,
                                                    fields: set<string>, subs: seq<LayerRef>, processed: seq<string>)
    requires WellFormed(layers) && RefsIn(subs, |layers|)
    requires CollectSubLayers(layers, sets, fields, subs, processed).Ok?
    ensures var c := CollectSubLayers(layers, sets, fields, subs, processed).value;
      && |processed| <= |c.processed| && c.processed[..|processed|] == processed
      && Elems(c.processed) == Elems(processed) + Uris(layers, subs)
      && (Distinct(processed) ==> Distinct(c.processed))
  {
    if subs != [] {
      var init := subs[..|subs| - 1];
      var s := subs[|subs| - 1];
      assert RefsIn(init, |layers|);
      CollectSubLayersProcessed(layers, sets, fields, init, processed);
      var c := CollectSubLayers(layers, sets, fields, init, processed).value;
      UrisSnoc(layers, subs);
      SubLayerStepProcessed(layers, sets, fields, s, c);
      var c' := SubLayerStep(layers, sets, fields, s, c).value;
      assert c'.processed[..|processed|] == c.processed[..|processed|];
    }
  }

  lemma UrisSnoc(layers: seq<Layer>, subs: seq<LayerRef>)
    requires RefsIn(subs, |layers|) && subs != []
    ensures RefsIn(subs[..|subs| - 1], |layers|)
    ensures Uris(layers, subs) == Uris(layers, subs[..|subs| - 1]) + {layers[subs[|subs| - 1]].uri}
  {
    var init := subs[..|subs| - 1];
    forall u | u in Uris(layers, subs) ensures u in Uris(layers, init) + {layers[subs[|subs| - 1]].uri} {
      var j :| 0 <= j < |subs| && layers[subs[j]].uri == u;
      if j < |init| { assert init[j] == subs[j]; }
    }
    forall u | u in Uris(layers, init) ensures u in Uris(layers, subs) {
      var j :| 0 <= j < |init| && layers[init[j]].uri == u;
      assert subs[j] == init[j];
    }
  }

  /** One sub-layer appends its URI to `cims_processed` when it is not there yet. */
  lemma SubLayerStepProcessed(layers: seq<Layer>, sets: map<LayerRef, set<int>>, fields: set<string>, s: LayerRef,
                              c: Collected)
    requires WellFormed(layers) && s < |layers|
    requires SubLayerStep(layers, sets, fields, s, c).Ok?
    ensures var c' := SubLayerStep(layers, sets, fields, s, c).value;
      && |c.processed| <= |c'.processed| && c'.processed[..|c.processed|] == c.processed
      && Elems(c'.processed) == Elems(c.processed) + {layers[s].uri}
      && (Distinct(c.processed) ==> Distinct(c'.processed))
  {
    var c' := SubLayerStep(layers, sets, fields, s, c).value;
    if layers[s].uri !in c.processed {
      assert c'.processed == c.processed + [layers[s].uri];
      if Distinct(c.processed) {
        forall i | 0 <= i < |c.processed| ensures c'.processed[i] != layers[s].uri {
          assert c.processed[i] in c.processed;
        }
      }
    }
  }

  /** Registering a layer only appends to lookup lists. */
  lemma RegisterGrows(lookup: map<string, seq<LayerRef>>, l: LayerRef, layer: Layer)
    ensures LookupGrows(lookup, Register(lookup, l, layer))
  {
    var once := AppendTo(lookup, layer.dataset, l);
    var twice := Register(lookup, l, layer);
    forall key | key in lookup ensures key in twice && twice[key][..|lookup[key]|] == lookup[key] {
      assert once[key][..|lookup[key]|] == lookup[key];
      if Registers(layer) {
        assert twice[key][..|once[key]|] == once[key];
        assert twice[key][..|once[key]|][..|lookup[key]|] == twice[key][..|lookup[key]|];
      }
    }
  }

  /** Gathering a layer's keys only adds to `selection_info`. */
  lemma FinishGrows(info: map<string, SelectionInfo>, rc: RelInfo, c: Collected)
    requires Finish(info, rc, c).Ok?
    ensures InfoGrows(info, Finish(info, rc, c).value)
  {
    UpdateInfoSpec(info, rc, c.parentIds);
  }

  /** Either branch only appends to `cims_processed`, and never a URI already in it. */
  lemma CollectProcessed(layers: seq<Layer>, sets: map<LayerRef, set<int>>, l: LayerRef, rc: RelInfo,
                         processed: seq<string>)
    requires WellFormed(layers) && l < |layers| && layers[l].uri !in processed
    requires Collect(layers, sets, l, rc, processed).Ok?
    ensures var c := Collect(layers, sets, l, rc, processed).value;
      && |processed| <= |c.processed| && c.processed[..|processed|] == processed
      && (Distinct(processed) ==> Distinct(c.processed))
  {
    var c := Collect(layers, sets, l, rc, processed).value;
    match layers[l].kind
    case SubtypeGroup(subs) =>
      assert RefsIn(subs, |layers|);
      CollectSubLayersProcessed(layers, sets, PrimaryFields(rc).value, subs, processed);
    case Simple =>
      assert c.processed == processed + [layers[l].uri];
      assert c.processed[..|processed|] == processed;
      if Distinct(processed) {
        forall i | 0 <= i < |processed| ensures c.processed[i] != layers[l].uri {
          assert processed[i] in processed;
        }
      }
  }

  /**
   * One pass of the layer loop only adds: `selection_info` grows and keeps
   * its foreign fields, lookup lists are only appended to, and
   * `cims_processed` is only appended to, never with a URI already in it.
   */
  lemma LayerStepGrows(layers: seq<Layer>, sets: map<LayerRef, set<int>>, relateMap: RelateMap, l: LayerRef,
                       st: ScanState)
    requires WellFormed(layers) && l < |layers|
    requires LayerStep(layers, sets, relateMap, l, st).Ok?
    ensures Grows(st, LayerStep(layers, sets, relateMap, l, st).value)
    ensures Distinct(st.processed) ==> Distinct(LayerStep(layers, sets, relateMap, l, st).value.processed)
  {
    var layer := layers[l];
    assert st.processed[..|st.processed|] == st.processed;
    assert InfoGrows(st.info, st.info);
    if !layer.isBroken {
      RegisterGrows(st.lookup, l, layer);
      if layer.uri !in st.processed {
        var rc := RolesFor(layer, relateMap).value;
        if rc != map[] {
          var c := Collect(layers, sets, l, rc, st.processed).value;
          CollectProcessed(layers, sets, l, rc, st.processed);
          FinishGrows(st.info, rc, c);
        }
      }
    } else {
      forall key | key in st.lookup ensures st.lookup[key][..|st.lookup[key]|] == st.lookup[key] { }
    }
  }

  /** A later state of phase 1 extends every earlier one, and only a successful prefix can be extended. */
  lemma {:induction false} ScanGrows(layers: seq<Layer>, sets: map<LayerRef, set<int>>, relateMap: RelateMap,
                                    m: nat, n: nat)
    requires WellFormed(layers) && m <= n <= |layers|
    requires ScanPrefix(layers, sets, relateMap, n).Ok?
    ensures ScanPrefix(layers, sets, relateMap, m).Ok?
    ensures Grows(ScanPrefix(layers, sets, relateMap, m).value, ScanPrefix(layers, sets, relateMap, n).value)
    decreases n - m
  {
    var a := ScanPrefix(layers, sets, relateMap, m);
    if m == n {
      var s := a.value;
      assert s.processed[..|s.processed|] == s.processed;
      forall key | key in s.lookup ensures s.lookup[key][..|s.lookup[key]|] == s.lookup[key] { }
    } else {
      ScanGrows(layers, sets, relateMap, m + 1, n);
      var b := ScanPrefix(layers, sets, relateMap, m + 1);
      LayerStepGrows(layers, sets, relateMap, m, a.value);
      GrowsTransitive(a.value, b.value, ScanPrefix(layers, sets, relateMap, n).value);
    }
  }

  /** `cims_processed` never holds a URI twice: each layer URI is evaluated at most once. */
  lemma {:induction false} ScanProcessedDistinct(layers: seq<Layer>, sets: map<LayerRef, set<int>>,
                                                relateMap: RelateMap, n: nat)
    requires WellFormed(layers) && n <= |layers|
    requires ScanPrefix(layers, sets, relateMap, n).Ok?
    ensures Distinct(ScanPrefix(layers, sets, relateMap, n).value.processed)
  {
    if n > 0 {
      ScanProcessedDistinct(layers, sets, relateMap, n - 1);
      var st := ScanPrefix(layers, sets, relateMap, n - 1).value;
      assert ScanPrefix(layers, sets, relateMap, n) == LayerStep(layers, sets, relateMap, n - 1, st);
      LayerStepGrows(layers, sets, relateMap, n - 1, st);
    }
  }

  /** Every column read holds the same number of values, and there is at least one when anything was read. */
  predicate Uniform(c: Collected, fields: set<string>) {
    (c.parentIds == map[] && c.count == 0)
    || (c.parentIds.Keys == fields && c.count > 0 && forall f :: f in c.parentIds ==> |c.parentIds[f]| == c.count)
  }

  lemma {:induction false} CollectSubLayersUniform(layers: seq<Layer>, sets: map<LayerRef, set<int>>,
                                                  fields: set<string>, subs: seq<LayerRef>, processed: seq<string>)
    requires WellFormed(layers) && RefsIn(subs, |layers|) && fields != {}
    requires CollectSubLayers(layers, sets, fields, subs, processed).Ok?
    ensures Uniform(CollectSubLayers(layers, sets, fields, subs, processed).value, fields)
  {
    if subs != [] {
      var init := subs[..|subs| - 1];
      var s := subs[|subs| - 1];
      assert RefsIn(init, |layers|);
      CollectSubLayersUniform(layers, sets, fields, init, processed);
      var c := CollectSubLayers(layers, sets, fields, init, processed).value;
      var sub := layers[s];
      if sub.uri !in c.processed && IsSelected(sets, s) {
        var sel := Selection(sets, s);
        ReadColumnsSpec(sub, sel, fields);
        var ids := ReadColumns(sub, sel, fields).value;
        var rows := SelectedRows(sub.rows, sel);
        var m := MergeDols(c.parentIds, ids);
        MergeDolsSpec(c.parentIds, ids);
        assert ids.Keys == fields && rows != [];
        forall f | f in m ensures |m[f]| == c.count + |rows| {
          assert |Get(c.parentIds, f)| == c.count;
        }
      }
    }
  }

  /**
   * Whatever a layer with relationships reads has one column per primary
   * field, all of the same positive length; so `len(next(iter(...)))` does
   * not depend on which column comes first.
   */
  lemma CollectUniform(layers: seq<Layer>, sets: map<LayerRef, set<int>>, l: LayerRef, rc: RelInfo,
                       processed: seq<string>)
    requires WellFormed(layers) && l < |layers| && rc != map[]
    requires Collect(layers, sets, l, rc, processed).Ok?
    ensures var c := Collect(layers, sets, l, rc, processed).value;
      && (c.parentIds != map[] ==> PrimaryFields(rc).Ok? && Uniform(c, PrimaryFields(rc).value))
      && (forall f :: f in c.parentIds ==> |c.parentIds[f]| == c.count)
      && (c.parentIds != map[] ==> c.count > 0)
  {
    var c := Collect(layers, sets, l, rc, processed).value;
    var k :| k in rc;
    if PrimaryFields(rc).Ok? {
      var fields := PrimaryFields(rc).value;
      assert Lower(rc[k]["OriginPrimary"]) in fields;
      match layers[l].kind
      case SubtypeGroup(subs) =>
        assert RefsIn(subs, |layers|);
        CollectSubLayersUniform(layers, sets, fields, subs, processed);
      case Simple =>
        if IsSelected(sets, l) {
          ReadColumnsSpec(layers[l], Selection(sets, l), fields);
        }
    }
  }

  /** `v` is the value of field `f` in a selected row of some layer of the map. */
  predicate ReadFromSelection(layers: seq<Layer>, sets: map<LayerRef, set<int>>, f: string, v: Value) {
    exists l, r :: 0 <= l < |layers| && r in layers[l].rows && r.oid in Selection(sets, l)
                   && f in r.values && r.values[f] == v
  }

  /** Every column value was read from a selected row. */
  predicate ColumnsSound(layers: seq<Layer>, sets: map<LayerRef, set<int>>, parentIds: map<string, seq<Value>>) {
    forall f, v :: f in parentIds && v in parentIds[f] ==> ReadFromSelection(layers, sets, f, v)
  }

  lemma ReadColumnsSound(layers: seq<Layer>, sets: map<LayerRef, set<int>>, l: LayerRef, fields: set<string>)
    requires WellFormed(layers) && l < |layers|
    requires ReadColumns(layers[l], Selection(sets, l), fields).Ok?
    ensures ColumnsSound(layers, sets, ReadColumns(layers[l], Selection(sets, l), fields).value)
  {
    var cols := ReadColumns(layers[l], Selection(sets, l), fields).value;
    ReadColumnsSpec(layers[l], Selection(sets, l), fields);
    forall f, v | f in cols && v in cols[f] ensures ReadFromSelection(layers, sets, f, v) {
      var r :| r in layers[l].rows && r.oid in Selection(sets, l) && r.values[f] == v;
    }
  }

  lemma {:induction false} CollectSubLayersSound(layers: seq<Layer>, sets: map<LayerRef, set<int>>,
                                                fields: set<string>, subs: seq<LayerRef>, processed: seq<string>)
    requires WellFormed(layers) && RefsIn(subs, |layers|)
    requires CollectSubLayers(layers, sets, fields, subs, processed).Ok?
    ensures ColumnsSound(layers, sets, CollectSubLayers(layers, sets, fields, subs, processed).value.parentIds)
  {
    if subs != [] {
      var init := subs[..|subs| - 1];
      var s := subs[|subs| - 1];
      assert RefsIn(init, |layers|);
      CollectSubLayersSound(layers, sets, fields, init, processed);
      var c := CollectSubLayers(layers, sets, fields, init, processed).value;
      if layers[s].uri !in c.processed && IsSelected(sets, s) {
        ReadColumnsSound(layers, sets, s, fields);
        var ids := ReadColumns(layers[s], Selection(sets, s), fields).value;
        var m := MergeDols(c.parentIds, ids);
        forall f, v | f in m && v in m[f] ensures ReadFromSelection(layers, sets, f, v) {
          GetMerge(c.parentIds, ids, f);
          assert v in Get(c.parentIds, f) || v in Get(ids, f);
        }
      }
    }
  }

  /** Every key value gathered for a related table was read from a selected row of the map. */
  ghost predicate InfoSound(layers: seq<Layer>, sets: map<LayerRef, set<int>>, info: map<string, SelectionInfo>) {
    forall k, v :: k in info && v in info[k].ids ==> exists f :: ReadFromSelection(layers, sets, f, v)
  }

  lemma LayerStepSound(layers: seq<Layer>, sets: map<LayerRef, set<int>>, relateMap: RelateMap, l: LayerRef,
                       st: ScanState)
    requires WellFormed(layers) && l < |layers|
    requires LayerStep(layers, sets, relateMap, l, st).Ok?
    requires InfoSound(layers, sets, st.info)
    ensures InfoSound(layers, sets, LayerStep(layers, sets, relateMap, l, st).value.info)
  {
    var layer := layers[l];
    if !layer.isBroken && layer.uri !in st.processed {
      var rc := RolesFor(layer, relateMap).value;
      if rc != map[] {
        CollectSound(layers, sets, l, rc, st.processed);
        FinishSound(layers, sets, st.info, rc, Collect(layers, sets, l, rc, st.processed).value);
      }
    }
  }

  lemma CollectSound(layers: seq<Layer>, sets: map<LayerRef, set<int>>, l: LayerRef, rc: RelInfo,
                     processed: seq<string>)
    requires WellFormed(layers) && l < |layers|
    requires Collect(layers, sets, l, rc, processed).Ok?
    ensures ColumnsSound(layers, sets, Collect(layers, sets, l, rc, processed).value.parentIds)
  {
    match layers[l].kind
    case SubtypeGroup(subs) =>
      assert RefsIn(subs, |layers|);
      CollectSubLayersSound(layers, sets, PrimaryFields(rc).value, subs, processed);
    case Simple =>
      if IsSelected(sets, l) {
        ReadColumnsSound(layers, sets, l, PrimaryFields(rc).value);
      }
  }

  lemma FinishSound(layers: seq<Layer>, sets: map<LayerRef, set<int>>, info: map<string, SelectionInfo>,
                    rc: RelInfo, c: Collected)
    requires ColumnsSound(layers, sets, c.parentIds) && InfoSound(layers, sets, info)
    requires Finish(info, rc, c).Ok?
    ensures InfoSound(layers, sets, Finish(info, rc, c).value)
  {
    if c.count > 0 {
      UpdateInfoSpec(info, rc, c.parentIds);
      var info' := Finish(info, rc, c).value;
      forall k, v | k in info' && v in info'[k].ids ensures exists f :: ReadFromSelection(layers, sets, f, v) {
        if k in rc && v !in (if k in info then info[k].ids else {}) {
          var f := Lower(rc[k]["OriginPrimary"]);
          assert v in c.parentIds[f];
          assert ReadFromSelection(layers, sets, f, v);
        }
      }
    }
  }

  /** Phase 1 invents no key: every id in `selection_info` is a field value of a selected row. */
  lemma {:induction false} ScanSound(layers: seq<Layer>, sets: map<LayerRef, set<int>>, relateMap: RelateMap, n: nat)
    requires WellFormed(layers) && n <= |layers|
    requires ScanPrefix(layers, sets, relateMap, n).Ok?
    ensures InfoSound(layers, sets, ScanPrefix(layers, sets, relateMap, n).value.info)
  {
    if n > 0 {
      ScanSound(layers, sets, relateMap, n - 1);
      LayerStepSound(layers, sets, relateMap, n - 1, ScanPrefix(layers, sets, relateMap, n - 1).value);
    }
  }

  /** Layer `l` is registered, and under `key`. */
  predicate Findable(layers: seq<Layer>, l: nat, key: string)
    requires l < |layers|
  {
    !layers[l].isBroken && Registers(layers[l]) && (layers[l].dataset == key || layers[l].name == key)
  }

  /** The keys are exactly the datasets and names of the registered layers among the first `n`. */
  ghost predicate LookupKeys(layers: seq<Layer>, n: nat, lookup: map<string, seq<LayerRef>>)
    requires n <= |layers|
  {
    forall key :: key in lookup <==> exists l :: 0 <= l < n && Findable(layers, l, key)
  }

  /** Every list holds only layers registered under its key, and is not empty. */
  predicate LookupSound(layers: seq<Layer>, n: nat, lookup: map<string, seq<LayerRef>>)
    requires n <= |layers|
  {
    && (forall key :: key in lookup ==> lookup[key] != [])
    && (forall key, i :: key in lookup && 0 <= i < |lookup[key]| ==>
          lookup[key][i] < n && Findable(layers, lookup[key][i], key))
  }

  /** Every list starts with the first layer registered under its key. */
  predicate LookupFirst(layers: seq<Layer>, n: nat, lookup: map<string, seq<LayerRef>>)
    requires n <= |layers|
  {
    forall key, l :: key in lookup && lookup[key] != [] && 0 <= l < n && Findable(layers, l, key) ==>
      lookup[key][0] <= l
  }

  /** What `datasource_lookup` holds after the first `n` layers, stated key by key. */
  ghost predicate LookupIndexes(layers: seq<Layer>, n: nat, lookup: map<string, seq<LayerRef>>)
    requires n <= |layers|
  {
    LookupKeys(layers, n, lookup) && LookupSound(layers, n, lookup) && LookupFirst(layers, n, lookup)
  }

  /** Registering layer `n` adds entries for `n` only, at the end of the lists of its dataset and name. */
  lemma RegisterShape(lookup: map<string, seq<LayerRef>>, n: LayerRef, layer: Layer)
    ensures var r := Register(lookup, n, layer);
      && (forall key :: key in r <==> key in lookup || (Registers(layer) && (key == layer.dataset || key == layer.name)))
      && (forall key, i :: key in r && !(key in lookup && i < |lookup[key]|) && 0 <= i < |r[key]| ==>
            r[key][i] == n && Registers(layer) && (key == layer.dataset || key == layer.name))
      && (forall key :: key in r && key !in lookup ==> r[key] != [])
  {
    RegisterGrows(lookup, n, layer);
    var once := AppendTo(lookup, layer.dataset, n);
    assert forall key, i :: key in once && !(key in lookup && i < |lookup[key]|) && 0 <= i < |once[key]| ==>
             once[key][i] == n && key == layer.dataset;
  }

  lemma RegisterKeys(layers: seq<Layer>, n: nat, lookup: map<string, seq<LayerRef>>)
    requires n < |layers| && !layers[n].isBroken && LookupKeys(layers, n, lookup)
    ensures LookupKeys(layers, n + 1, Register(lookup, n, layers[n]))
  {
    var lookup' := Register(lookup, n, layers[n]);
    RegisterShape(lookup, n, layers[n]);
    forall key ensures key in lookup' <==> exists l :: 0 <= l < n + 1 && Findable(layers, l, key) {
      if key in lookup' && key !in lookup {
        assert Findable(layers, n, key);
      }
    }
  }

  lemma RegisterSound(layers: seq<Layer>, n: nat, lookup: map<string, seq<LayerRef>>)
    requires n < |layers| && !layers[n].isBroken && LookupSound(layers, n, lookup)
    ensures LookupSound(layers, n + 1, Register(lookup, n, layers[n]))
  {
    var lookup' := Register(lookup, n, layers[n]);
    RegisterShape(lookup, n, layers[n]);
    RegisterGrows(lookup, n, layers[n]);
    forall key, i | key in lookup' && 0 <= i < |lookup'[key]|
      ensures lookup'[key][i] < n + 1 && Findable(layers, lookup'[key][i], key)
    {
      if key in lookup && i < |lookup[key]| {
        assert lookup'[key][i] == lookup'[key][..|lookup[key]|][i];
      }
    }
    forall key | key in lookup' ensures lookup'[key] != [] {
      if key in lookup {
        assert |lookup[key]| <= |lookup'[key]|;
      }
    }
  }

  lemma RegisterFirst(layers: seq<Layer>, n: nat, lookup: map<string, seq<LayerRef>>)
    requires n < |layers| && !layers[n].isBroken
    requires LookupKeys(layers, n, lookup) && LookupSound(layers, n, lookup) && LookupFirst(layers, n, lookup)
    ensures LookupFirst(layers, n + 1, Register(lookup, n, layers[n]))
  {
    var lookup' := Register(lookup, n, layers[n]);
    RegisterShape(lookup, n, layers[n]);
    RegisterGrows(lookup, n, layers[n]);
    forall key, l | key in lookup' && lookup'[key] != [] && 0 <= l < n + 1 && Findable(layers, l, key)
      ensures lookup'[key][0] <= l
    {
      if key in lookup {
        assert lookup'[key][0] == lookup'[key][..|lookup[key]|][0];
        if l == n { assert lookup[key][0] < n; }
      } else {
        assert !exists l' :: 0 <= l' < n && Findable(layers, l', key);
      }
    }
  }

  lemma RegisterIndexes(layers: seq<Layer>, n: nat, lookup: map<string, seq<LayerRef>>,
                        next: map<string, seq<LayerRef>>)
    requires n < |layers| && LookupIndexes(layers, n, lookup)
    requires next == if layers[n].isBroken then lookup else Register(lookup, n, layers[n])
    ensures LookupIndexes(layers, n + 1, next)
  {
    if !layers[n].isBroken {
      RegisterKeys(layers, n, lookup);
      RegisterSound(layers, n, lookup);
      RegisterFirst(layers, n, lookup);
    } else {
      forall key | key in lookup ensures exists l :: 0 <= l < n + 1 && Findable(layers, l, key) {
        var l :| 0 <= l < n && Findable(layers, l, key);
      }
      forall key | exists l :: 0 <= l < n + 1 && Findable(layers, l, key) ensures key in lookup {
        var l :| 0 <= l < n + 1 && Findable(layers, l, key);
        assert l < n;
      }
    }
  }

  lemma LayerStepLookup(layers: seq<Layer>, sets: map<LayerRef, set<int>>, relateMap: RelateMap, l: LayerRef,
                        st: ScanState)
    requires WellFormed(layers) && l < |layers|
    requires LayerStep(layers, sets, relateMap, l, st).Ok?
    ensures LayerStep(layers, sets, relateMap, l, st).value.lookup
            == if layers[l].isBroken then st.lookup else Register(st.lookup, l, layers[l])
  {
  }

  /**
   * After the first `n` layers, a key is in `datasource_lookup` exactly when
   * some table or feature layer among them has it as dataset or name; its
   * list holds only such layers and starts with the first of them, which is
   * the layer phase 2 selects in.
   */
  lemma {:induction false} ScanLookup(layers: seq<Layer>, sets: map<LayerRef, set<int>>, relateMap: RelateMap,
                                     n: nat)
    requires WellFormed(layers) && n <= |layers|
    requires ScanPrefix(layers, sets, relateMap, n).Ok?
    ensures LookupIndexes(layers, n, ScanPrefix(layers, sets, relateMap, n).value.lookup)
  {
    if n > 0 {
      ScanLookup(layers, sets, relateMap, n - 1);
      var st := ScanPrefix(layers, sets, relateMap, n - 1).value;
      assert ScanPrefix(layers, sets, relateMap, n) == LayerStep(layers, sets, relateMap, n - 1, st);
      LayerStepIndexes(layers, sets, relateMap, n - 1, st);
    }
  }

  lemma LayerStepIndexes(layers: seq<Layer>, sets: map<LayerRef, set<int>>, relateMap: RelateMap, l: LayerRef,
                         st: ScanState)
    requires WellFormed(layers) && l < |layers|
    requires LayerStep(layers, sets, relateMap, l, st).Ok? && LookupIndexes(layers, l, st.lookup)
    ensures LookupIndexes(layers, l + 1, LayerStep(layers, sets, relateMap, l, st).value.lookup)
  {
    LayerStepLookup(layers, sets, relateMap, l, st);
    RegisterIndexes(layers, l, st.lookup, LayerStep(layers, sets, relateMap, l, st).value.lookup);
  }

  /**
   * Line 205: a layer with relationships and nothing selected is not
   * skipped; `next(iter({}.values()))` stops the whole run.
   */
  lemma UnselectedLayerStops(layers: seq<Layer>, sets: map<LayerRef, set<int>>, relateMap: RelateMap, l: LayerRef,
                             st: ScanState)
    requires WellFormed(layers) && l < |layers|
    requires !layers[l].isBroken && layers[l].uri !in st.processed && layers[l].kind.Simple?
    requires RolesFor(layers[l], relateMap).Ok? && RolesFor(layers[l], relateMap).value != map[]
    requires !IsSelected(sets, l)
    ensures LayerStep(layers, sets, relateMap, l, st) == Err(StopIteration)
  {
  }

  lemma {:induction false} UnselectedSubLayersCollectNothing(layers: seq<Layer>, sets: map<LayerRef, set<int>>,
                                                            fields: set<string>, subs: seq<LayerRef>,
                                                            processed: seq<string>)
    requires WellFormed(layers) && RefsIn(subs, |layers|)
    requires forall j :: 0 <= j < |subs| ==> !IsSelected(sets, subs[j])
    ensures CollectSubLayers(layers, sets, fields, subs, processed).Ok?
    ensures CollectSubLayers(layers, sets, fields, subs, processed).value.parentIds == map[]
  {
    if subs != [] {
      var init := subs[..|subs| - 1];
      assert RefsIn(init, |layers|);
      assert forall j :: 0 <= j < |init| ==> init[j] == subs[j];
      UnselectedSubLayersCollectNothing(layers, sets, fields, init, processed);
    }
  }

  /** The same for a subtype group layer none of whose sub-layers has a selection. */
  lemma UnselectedGroupStops(layers: seq<Layer>, sets: map<LayerRef, set<int>>, relateMap: RelateMap, l: LayerRef,
                             st: ScanState)
    requires WellFormed(layers) && l < |layers|
    requires !layers[l].isBroken && layers[l].uri !in st.processed && layers[l].kind.SubtypeGroup?
    requires RolesFor(layers[l], relateMap).Ok? && RolesFor(layers[l], relateMap).value != map[]
    requires PrimaryFields(RolesFor(layers[l], relateMap).value).Ok?
    requires forall j :: 0 <= j < |layers[l].kind.subLayers| ==> !IsSelected(sets, layers[l].kind.subLayers[j])
    ensures LayerStep(layers, sets, relateMap, l, st) == Err(StopIteration)
  {
    var subs := layers[l].kind.subLayers;
    assert RefsIn(subs, |layers|);
    UnselectedSubLayersCollectNothing(layers, sets, PrimaryFields(RolesFor(layers[l], relateMap).value).value,
                                      subs, st.processed);
  }
}
