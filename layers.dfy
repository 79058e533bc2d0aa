/**
 * What the propagation engine sees of a map: its layers and tables, each
 * with the few properties `main` reads, the rows behind it, and the host's
 * selection state.
 *
 * Layers and tables are one sequence (`layers + tables`), and a layer is
 * referred to by its position in it; the sub-layers of a subtype group layer
 * are positions in the same sequence. A search cursor over a layer that has
 * a selection returns the selected rows only; `getSelectionSet()` answers
 * None when nothing is selected.
 */
module Layers {
  import opened Common
  import opened Relationships

  /** A layer or table, by its position in `layers + tables`. */
  type LayerRef = nat

  /** A row: its object id and its field values, keyed by lower-case field name. */
  datatype Row = Row(oid: int, values: map<string, Value>)

  /** `CIMSubtypeGroupLayer` or any other layer definition. */
  datatype Kind = Simple | SubtypeGroup(subLayers: seq<LayerRef>)

  datatype Layer = Layer(
    name: string,
    dataset: string,                // `connectionProperties['dataset']`
    uri: string,                    // `getDefinition('V2').uRI`
    isBroken: bool,
    isFeatureLayer: Option<bool>,   // None where the object has no `isFeatureLayer` (a table)
    kind: Kind,
    desc: LayerDescription,         // what `arcpy.Describe(layer)` answers
    fields: set<string>,            // lower-case field names
    rows: seq<Row>)

  /** Every row has a value for exactly the layer's fields. */
  predicate RowsComplete(layer: Layer) {
    forall r :: r in layer.rows ==> r.values.Keys == layer.fields
  }

  /** Rows match their layer's fields and every sub-layer reference is a layer of the map. */
  predicate WellFormed(layers: seq<Layer>) {
    forall l :: 0 <= l < |layers| ==>
      RowsComplete(layers[l])
      && (layers[l].kind.SubtypeGroup? ==>
            forall j :: 0 <= j < |layers[l].kind.subLayers| ==> layers[l].kind.subLayers[j] < |layers|)
  }

  /** The object ids selected on a layer; empty when nothing is. */
  function Selection(sets: map<LayerRef, set<int>>, l: LayerRef): set<int> {
    if l in sets then sets[l] else {}
  }

  /** `getSelectionSet() is not None` */
  predicate IsSelected(sets: map<LayerRef, set<int>>, l: LayerRef) {
    Selection(sets, l) != {}
  }

  /** The rows whose object id is selected, in row order. */
  function SelectedRows(rows: seq<Row>, sel: set<int>): (r: seq<Row>)
    ensures |r| <= |rows|
    ensures forall x :: x in r <==> x in rows && x.oid in sel
  {
    if rows == [] then []
    else (if rows[0].oid in sel then [rows[0]] else []) + SelectedRows(rows[1..], sel)
  }

  /** `zip(*cursor)` for one field: the field's values in cursor order. */
  function Column(rows: seq<Row>, f: string): (c: seq<Value>)
    requires forall r :: r in rows ==> f in r.values
    ensures |c| == |rows|
  {
    seq(|rows|, i requires 0 <= i < |rows| => rows[i].values[f])
  }

  /**
   * `dict(zip(fields, zip(*SearchCursor(layer, fields))))` on a layer whose
   * selection is `sel`: one column per field, or nothing at all when the
   * cursor returns no row. A field the layer does not have makes the cursor
   * fail.
   */
  function ReadColumns(layer: Layer, sel: set<int>, fields: set<string>): Result<map<string, seq<Value>>>
    requires RowsComplete(layer)
  {
    if !(fields <= layer.fields) then Err(FieldNotFound)
    else
      var rows := SelectedRows(layer.rows, sel);
      if rows == [] then Ok(map[])
      else Ok(map f | f in fields :: Column(rows, f))
  }

  /**
   * Reading columns fails exactly on a missing field. Otherwise the result is
   * empty exactly when no row is selected (or no field asked for), and has
   * one column per field, as long as the selected rows, holding exactly the
   * values the selected rows have in that field.
   */
  lemma ReadColumnsSpec(layer: Layer, sel: set<int>, fields: set<string>)
    requires RowsComplete(layer)
    ensures ReadColumns(layer, sel, fields).Err? <==> !(fields <= layer.fields)
    ensures ReadColumns(layer, sel, fields).Ok? ==>
      var cols := ReadColumns(layer, sel, fields).value;
      var rows := SelectedRows(layer.rows, sel);
      && (cols == map[] <==> rows == [] || fields == {})
      && (cols != map[] ==> cols.Keys == fields)
      && (forall f :: f in cols ==> |cols[f]| == |rows|)
      && (forall f, v :: f in cols ==>
            (v in cols[f] <==> exists r :: r in layer.rows && r.oid in sel && r.values[f] == v))
  {
    if fields <= layer.fields {
      var rows := SelectedRows(layer.rows, sel);
      var cols := ReadColumns(layer, sel, fields).value;
      if rows != [] && fields != {} {
        var f :| f in fields;
        assert f in cols;
      }
      forall f, v | f in cols
        ensures v in cols[f] <==> exists r :: r in layer.rows && r.oid in sel && r.values[f] == v
      {
        assert cols[f] == Column(rows, f);
        ColumnMembers(rows, f, v);
        assert (exists r :: r in rows && r.values[f] == v)
            <==> exists r :: r in layer.rows && r.oid in sel && r.values[f] == v;
      }
    }
  }

  /** A value is in a field's column exactly when one of the rows holds it there. */
  lemma ColumnMembers(rows: seq<Row>, f: string, v: Value)
    requires forall r :: r in rows ==> f in r.values
    ensures v in Column(rows, f) <==> exists r :: r in rows && r.values[f] == v
  {
    var col := Column(rows, f);
    if v in col {
      var i :| 0 <= i < |col| && col[i] == v;
      assert rows[i] in rows;
    }
    if exists r :: r in rows && r.values[f] == v {
      var r :| r in rows && r.values[f] == v;
      var i :| 0 <= i < |rows| && rows[i] == r;
      assert col[i] == v;
    }
  }

  /** The host's selection state: the selected object ids of every layer. */
  class SelectionStore {
    var sets: map<LayerRef, set<int>>

    constructor(initial: map<LayerRef, set<int>>)
      ensures sets == initial
    {
      sets := initial;
    }

    /** `setSelectionSet(oidList=oids, method='UNION')` */
    method Union(l: LayerRef, oids: seq<int>)
      modifies this
      ensures sets == old(sets)[l := Selection(old(sets), l) + Elems(oids)]
    {
      sets := sets[l := Selection(sets, l) + Elems(oids)];
    }
  }
}
