/**
 * Phase 1 of `SelectRelated.main`, as functions: the walk over
 * `layers + tables` that registers each layer in `datasource_lookup`,
 * evaluates each layer URI at most once through `cims_processed`, reads the
 * primary keys of the selected rows of every layer that has relationships,
 * and gathers them per related table in `selection_info`.
 *
 * Each function returns the exception the step raises instead of a state;
 * any exception ends `main`.
 */
module Scan {
  import opened Common
  import opened Relationships
  import opened DictUtils
  import opened Layers

  /** `{'field': <OriginForeign>, 'ids': <set of key values>}` */
  datatype SelectionInfo = SelectionInfo(field: string, ids: set<Value>)

  /** The variables phase 1 fills: `datasource_lookup`, `cims_processed`, `selection_info`. */
  datatype ScanState = ScanState(
    lookup: map<string, seq<LayerRef>>,
    processed: seq<string>,
    info: map<string, SelectionInfo>)

  const Initial: ScanState := ScanState(map[], [], map[])

  /** The argument `relate_map`: layer name to its relationship info; empty when none is given. */
  type RelateMap = map<string, RelInfo>

  /** `datasource_lookup.setdefault(key, []).append(layer)` */
  function AppendTo(lookup: map<string, seq<LayerRef>>, key: string, l: LayerRef): map<string, seq<LayerRef>> {
    lookup[key := (if key in lookup then lookup[key] else []) + [l]]
  }

  /** `hasattr(layer, 'isFeatureLayer') is False or layer.isFeatureLayer` */
  predicate Registers(layer: Layer) {
    layer.isFeatureLayer != Some(false)
  }

  /** Lines 161-163: a table or feature layer is found under its dataset and under its name. */
  function Register(lookup: map<string, seq<LayerRef>>, l: LayerRef, layer: Layer): map<string, seq<LayerRef>> {
    if Registers(layer) then AppendTo(AppendTo(lookup, layer.dataset, l), layer.name, l) else lookup
  }

  /** Lines 170-176: the given relate map when there is one, otherwise `rc_info(layer)`. */
  function RolesFor(layer: Layer, relateMap: RelateMap): Result<RelInfo> {
    if relateMap != map[] then
      if layer.name in relateMap then Ok(relateMap[layer.name]) else Ok(map[])
    else RelatedClasses(layer.desc)
  }

  /** Every entry names the role. */
  predicate HasRole(rc: RelInfo, role: string) {
    forall k :: k in rc ==> role in rc[k]
  }

  /** `list({v['OriginPrimary'].lower() for k, v in rc_info.items()})` */
  function PrimaryFields(rc: RelInfo): Result<set<string>> {
    if HasRole(rc, "OriginPrimary") then Ok(set k | k in rc :: Lower(rc[k]["OriginPrimary"]))
    else Err(KeyError)
  }

  /** What a layer's branch leaves behind: `cims_processed`, `parent_ids`, and how many rows each column holds. */
  datatype Collected = Collected(processed: seq<string>, parentIds: map<string, seq<Value>>, count: nat)

  /** Lines 187-196, for one sub-layer. */
  function SubLayerStep(layers: seq<Layer>, sets: map<LayerRef, set<int>>, fields: set<string>, s: LayerRef,
                        c: Collected): Result<Collected>
    requires WellFormed(layers) && s < |layers|
  {
    var sub := layers[s];
    if sub.uri in c.processed then Ok(c)
    else
      var processed := c.processed + [sub.uri];
      if !IsSelected(sets, s) then Ok(c.(processed := processed))
      else match ReadColumns(sub, Selection(sets, s), fields)
        case Err(e) => Err(e)
        case Ok(ids) =>
          // `ids[field]` on the empty dictionary of a cursor that returned no row
          if ids == map[] && fields != {} then Err(KeyError)
          else Ok(Collected(processed, MergeDols(c.parentIds, ids),
                            c.count + |SelectedRows(sub.rows, Selection(sets, s))|))
  }

  predicate RefsIn(subs: seq<LayerRef>, n: nat) {
    forall j :: 0 <= j < |subs| ==> subs[j] < n
  }

  /** Lines 186-196: the loop over the sub-layers of a subtype group layer, in order. */
  function CollectSubLayers(layers: seq<Layer>, sets: map<LayerRef, set<int>>, fields: set<string>,
                            subs: seq<LayerRef>, processed: seq<string>): Result<Collected>
    requires WellFormed(layers) && RefsIn(subs, |layers|)
  {
    if subs == [] then Ok(Collected(processed, map[], 0))
    else match CollectSubLayers(layers, sets, fields, subs[..|subs| - 1], processed)
      case Err(e) => Err(e)
      case Ok(c) => SubLayerStep(layers, sets, fields, subs[|subs| - 1], c)
  }

  /** Lines 199-203: a layer that is not a subtype group layer. */
  function SimpleCollect(layer: Layer, l: LayerRef, sets: map<LayerRef, set<int>>, rc: RelInfo,
                         processed: seq<string>): Result<Collected>
    requires RowsComplete(layer)
  {
    var processed' := processed + [layer.uri];
    if !IsSelected(sets, l) then Ok(Collected(processed', map[], 0))
    else match PrimaryFields(rc)
      case Err(e) => Err(e)
      case Ok(fields) =>
        match ReadColumns(layer, Selection(sets, l), fields)
        case Err(e) => Err(e)
        case Ok(cols) => Ok(Collected(processed', cols, |SelectedRows(layer.rows, Selection(sets, l))|))
  }

  /** Lines 182-203: the primary keys of the selection, by branch. */
  function Collect(layers: seq<Layer>, sets: map<LayerRef, set<int>>, l: LayerRef, rc: RelInfo,
                   processed: seq<string>): Result<Collected>
    requires WellFormed(layers) && l < |layers|
  {
    match layers[l].kind
    case SubtypeGroup(subs) =>
      (match PrimaryFields(rc)
       case Err(e) => Err(e)
       case Ok(fields) => CollectSubLayers(layers, sets, fields, subs, processed))
    case Simple => SimpleCollect(layers[l], l, sets, rc, processed)
  }

  /** The entry's roles are there and its primary field was read. */
  predicate Contributable(roles: RoleMap, parentIds: map<string, seq<Value>>) {
    "OriginPrimary" in roles && "OriginForeign" in roles && Lower(roles["OriginPrimary"]) in parentIds
  }

  /** Line 209 for one related table `k`. */
  function MergeEntry(info: map<string, SelectionInfo>, k: string, roles: RoleMap,
                      parentIds: map<string, seq<Value>>): SelectionInfo
    requires Contributable(roles, parentIds)
  {
    var added := Elems(parentIds[Lower(roles["OriginPrimary"])]);
    if k in info then SelectionInfo(info[k].field, info[k].ids + added)
    else SelectionInfo(roles["OriginForeign"], added)
  }

  /** `selection_info` once the entries of `done` have been merged in. */
  function Updated(info: map<string, SelectionInfo>, rc: RelInfo, parentIds: map<string, seq<Value>>,
                   done: set<string>): map<string, SelectionInfo>
    requires forall k :: k in done ==> k in rc && Contributable(rc[k], parentIds)
  {
    map k | k in info.Keys + done :: if k in done then MergeEntry(info, k, rc[k], parentIds) else info[k]
  }

  /** Lines 208-210: merge every relationship entry; a missing role or column raises KeyError. */
  function UpdateInfo(info: map<string, SelectionInfo>, rc: RelInfo, parentIds: map<string, seq<Value>>)
    : Result<map<string, SelectionInfo>>
  {
    if forall k :: k in rc ==> Contributable(rc[k], parentIds) then Ok(Updated(info, rc, parentIds, rc.Keys))
    else Err(KeyError)
  }

  /** Lines 205-210: `next(iter(parent_ids.values()))` raises on an empty dictionary. */
  function Finish(info: map<string, SelectionInfo>, rc: RelInfo, c: Collected): Result<map<string, SelectionInfo>> {
    if c.parentIds == map[] then Err(StopIteration)
    else if c.count == 0 then Ok(info)
    else UpdateInfo(info, rc, c.parentIds)
  }

  /** Lines 153-210: one pass of the loop over `layers + tables`. */
  function LayerStep(layers: seq<Layer>, sets: map<LayerRef, set<int>>, relateMap: RelateMap, l: LayerRef,
                     st: ScanState): Result<ScanState>
    requires WellFormed(layers) && l < |layers|
  {
    var layer := layers[l];
    if layer.isBroken then Ok(st)
    else
      var lookup := Register(st.lookup, l, layer);
      if layer.uri in st.processed then Ok(st.(lookup := lookup))
      else match RolesFor(layer, relateMap)
        case Err(e) => Err(e)
        case Ok(rc) =>
          if rc == map[] then Ok(st.(lookup := lookup))
          else match Collect(layers, sets, l, rc, st.processed)
            case Err(e) => Err(e)
            case Ok(c) =>
              match Finish(st.info, rc, c)
              case Err(e) => Err(e)
              case Ok(info) => Ok(ScanState(lookup, c.processed, info))
  }

  /** Phase 1 over the first `n` layers. */
  function ScanPrefix(layers: seq<Layer>, sets: map<LayerRef, set<int>>, relateMap: RelateMap, n: nat)
    : Result<ScanState>
    requires WellFormed(layers) && n <= |layers|
  {
    if n == 0 then Ok(Initial)
    else match ScanPrefix(layers, sets, relateMap, n - 1)
      case Err(e) => Err(e)
      case Ok(st) => LayerStep(layers, sets, relateMap, n - 1, st)
  }

  /** Phase 1: the state after the whole loop, or the exception that ended it. */
  function Phase1(layers: seq<Layer>, sets: map<LayerRef, set<int>>, relateMap: RelateMap): Result<ScanState>
    requires WellFormed(layers)
  {
    ScanPrefix(layers, sets, relateMap, |layers|)
  }
}
