/**
 * Lines 226-229 on the host as it behaves: a search cursor over a layer that
 * has a selection returns only the selected rows, and phase 2 queries the
 * related layer itself, whose selection it is growing. So each batch's query
 * sees only the rows already selected: rows selected before the run, and rows
 * selected by the batches before it. Rows matching the collected ids outside
 * that selection are never selected.
 *
 * The rest of the model follows the evident intent, a query over all the
 * layer's rows (`Propagate.QueryOids` over `layer.rows`).
 */
module CursorSelection {
  import opened Common
  import opened Literals
  import opened Chunking
  import opened Ordering
  import opened SqlBuilder
  import opened Layers
  import opened Propagate

  /** The rows a cursor over a layer returns: the selected ones when there is a selection, otherwise all. */
  function VisibleRows(rows: seq<Row>, sel: set<int>): (r: seq<Row>)
    ensures forall x :: x in r ==> x in rows
  {
    if sel == {} then rows else SelectedRows(rows, sel)
  }

  /** The layer's selection after the batches, each query run through the layer's current selection. */
  function BatchesAsWritten(rows: seq<Row>, f: string, sel: set<int>, bs: seq<seq<string>>): (r: set<int>)
    ensures sel <= r
    decreases |bs|
  {
    if bs == [] then sel
    else BatchesAsWritten(rows, f, sel + Elems(QueryOids(VisibleRows(rows, sel), f, bs[0])), bs[1..])
  }

  /** The selection the batches are meant to leave: every row of the layer they match is added. */
  function BatchesIntended(rows: seq<Row>, f: string, sel: set<int>, bs: seq<seq<string>>): set<int> {
    sel + Elems(QueryOids(rows, f, Flatten(bs)))
  }

  /** A query over fewer rows returns fewer ids. */
  lemma {:induction false} QueryOidsFewerRows(rows: seq<Row>, f: string, chunk: seq<string>, sel: set<int>)
    ensures Elems(QueryOids(SelectedRows(rows, sel), f, chunk)) <= Elems(QueryOids(rows, f, chunk))
  {
    if rows != [] {
      QueryOidsFewerRows(rows[1..], f, chunk, sel);
      var rest := SelectedRows(rows[1..], sel);
      var h := if f in rows[0].values && Literal(rows[0].values[f]) in chunk then [rows[0].oid] else [];
      assert QueryOids(rows, f, chunk) == h + QueryOids(rows[1..], f, chunk);
      assert Elems(h + QueryOids(rows[1..], f, chunk)) == Elems(h) + Elems(QueryOids(rows[1..], f, chunk));
      if rows[0].oid in sel {
        var sr := [rows[0]] + rest;
        assert SelectedRows(rows, sel) == sr;
        assert sr[0] == rows[0] && sr[1..] == rest;
        assert QueryOids(sr, f, chunk) == h + QueryOids(rest, f, chunk);
        assert Elems(h + QueryOids(rest, f, chunk)) == Elems(h) + Elems(QueryOids(rest, f, chunk));
      } else {
        assert SelectedRows(rows, sel) == [] + rest;
        assert [] + rest == rest;
      }
    }
  }

  /** As written, the run never selects a row the intended one would not: it only misses rows. */
  lemma {:induction false} AsWrittenWithinIntended(rows: seq<Row>, f: string, sel: set<int>, bs: seq<seq<string>>)
    ensures BatchesAsWritten(rows, f, sel, bs) <= BatchesIntended(rows, f, sel, bs)
    decreases |bs|
  {
    if bs != [] {
      var seen := Elems(QueryOids(VisibleRows(rows, sel), f, bs[0]));
      VisibleQueryWithin(rows, f, bs[0], sel);
      AsWrittenWithinIntended(rows, f, sel + seen, bs[1..]);
      IntendedStep(rows, f, sel, bs);
    }
  }

  /** A query through the selection finds no row the query over all rows would not. */
  lemma VisibleQueryWithin(rows: seq<Row>, f: string, chunk: seq<string>, sel: set<int>)
    ensures Elems(QueryOids(VisibleRows(rows, sel), f, chunk)) <= Elems(QueryOids(rows, f, chunk))
  {
    if sel != {} {
      QueryOidsFewerRows(rows, f, chunk, sel);
    }
  }

  /** The intended selection is the first batch's matches joined with what the later batches intend. */
  lemma IntendedStep(rows: seq<Row>, f: string, sel: set<int>, bs: seq<seq<string>>)
    requires bs != []
    ensures BatchesIntended(rows, f, sel, bs)
            == sel + Elems(QueryOids(rows, f, bs[0])) + Elems(QueryOids(rows, f, Flatten(bs[1..])))
  {
    assert Flatten(bs) == bs[0] + Flatten(bs[1..]);
    QueryOidsAppend(rows, f, bs[0], Flatten(bs[1..]));
  }

  /** With nothing selected beforehand and a single batch, as written and intended agree. */
  lemma AsWrittenSingleBatch(rows: seq<Row>, f: string, chunk: seq<string>)
    ensures BatchesAsWritten(rows, f, {}, [chunk]) == BatchesIntended(rows, f, {}, [chunk])
  {
    assert [chunk][1..] == [];
    assert Flatten([chunk]) == chunk + Flatten([]);
    assert chunk + [] == chunk;
  }

  function DeviceRow(oid: int, device: string): Row {
    Row(oid, map["relateddevice" := Str(device)])
  }

  /**
   * Two device units of device A1 and one of B7, with the B7 unit already
   * selected: as written the query for A1 sees only the B7 unit and selects
   * nothing, where both A1 units should be added.
   */
  lemma PriorSelectionHidesMatches()
    ensures var rows := [DeviceRow(1, "A1"), DeviceRow(2, "A1"), DeviceRow(3, "B7")];
      var bs := [[Literal(Str("A1"))]];
      && BatchesAsWritten(rows, "relateddevice", {3}, bs) == {3}
      && BatchesIntended(rows, "relateddevice", {3}, bs) == {1, 2, 3}
  {
    var rows := [DeviceRow(1, "A1"), DeviceRow(2, "A1"), DeviceRow(3, "B7")];
    if Literal(Str("A1")) == Literal(Str("B7")) {
      LiteralInjective(Str("A1"), Str("B7"));
    }
    PriorSelectionAsWritten(rows);
    PriorSelectionIntended(rows);
  }

  lemma PriorSelectionAsWritten(rows: seq<Row>)
    requires rows == [DeviceRow(1, "A1"), DeviceRow(2, "A1"), DeviceRow(3, "B7")]
    requires Literal(Str("A1")) != Literal(Str("B7"))
    ensures BatchesAsWritten(rows, "relateddevice", {3}, [[Literal(Str("A1"))]]) == {3}
  {
    var bs := [[Literal(Str("A1"))]];
    var f := "relateddevice";
    assert rows[1..][1..] == [rows[2]] && [rows[2]][1..] == [];
    assert SelectedRows([rows[2]], {3}) == [rows[2]] + SelectedRows([], {3});
    assert SelectedRows(rows[1..], {3}) == [] + SelectedRows([rows[2]], {3});
    assert SelectedRows(rows, {3}) == [] + SelectedRows(rows[1..], {3});
    assert VisibleRows(rows, {3}) == [rows[2]];
    assert QueryOids([rows[2]], f, bs[0]) == [] + QueryOids([], f, bs[0]);
    var seen := Elems(QueryOids(VisibleRows(rows, {3}), f, bs[0]));
    assert seen == {};
    assert bs[1..] == [];
    assert BatchesAsWritten(rows, f, {3}, bs) == BatchesAsWritten(rows, f, {3} + seen, []);
  }

  lemma PriorSelectionIntended(rows: seq<Row>)
    requires rows == [DeviceRow(1, "A1"), DeviceRow(2, "A1"), DeviceRow(3, "B7")]
    requires Literal(Str("A1")) != Literal(Str("B7"))
    ensures BatchesIntended(rows, "relateddevice", {3}, [[Literal(Str("A1"))]]) == {1, 2, 3}
  {
    var bs := [[Literal(Str("A1"))]];
    var f := "relateddevice";
    assert rows[1..][1..] == [rows[2]] && [rows[2]][1..] == [];
    assert QueryOids([rows[2]], f, bs[0]) == [] + QueryOids([], f, bs[0]);
    assert QueryOids(rows[1..], f, bs[0]) == [2] + QueryOids([rows[2]], f, bs[0]);
    assert QueryOids(rows, f, bs[0]) == [1] + QueryOids(rows[1..], f, bs[0]);
    assert QueryOids(rows, f, bs[0]) == [1, 2];
    assert Flatten(bs) == bs[0] + Flatten(bs[1..]) && bs[1..] == [];
    assert Flatten(bs) == bs[0];
    assert Elems([1, 2]) == {1, 2};
  }

  /**
   * A small stand-in for a multi-batch run, with two one-literal batches
   * rather than `create_sql`'s batches of 950: the second batch's query sees
   * only the rows the first one selected. `LaterBatchesMissed` states the
   * same for the batches `create_sql` itself makes.
   */
  lemma LaterBatchesSeeEarlierSelection()
    ensures var rows := [DeviceRow(1, "A1"), DeviceRow(2, "B7")];
      var bs := [[Literal(Str("A1"))], [Literal(Str("B7"))]];
      && BatchesAsWritten(rows, "relateddevice", {}, bs) == {1}
      && BatchesIntended(rows, "relateddevice", {}, bs) == {1, 2}
  {
    var rows := [DeviceRow(1, "A1"), DeviceRow(2, "B7")];
    var bs := [[Literal(Str("A1"))], [Literal(Str("B7"))]];
    if Literal(Str("A1")) == Literal(Str("B7")) {
      LiteralInjective(Str("A1"), Str("B7"));
    }
    assert QueryOids(rows, "relateddevice", bs[0]) == [1] by {
      assert rows[1..][1..] == [];
    }
    assert SelectedRows(rows, {1}) == [rows[0]] by {
      assert rows[1..][1..] == [];
    }
    assert QueryOids([rows[0]], "relateddevice", bs[1]) == [];
    assert bs[1..][1..] == [];
    assert Elems([1]) == {1};
    assert VisibleRows(rows, {}) == rows;
    assert {} + Elems(QueryOids(VisibleRows(rows, {}), "relateddevice", bs[0])) == {1};
    assert BatchesAsWritten(rows, "relateddevice", {}, bs) == BatchesAsWritten(rows, "relateddevice", {1}, bs[1..]);
    assert VisibleRows(rows, {1}) == [rows[0]];
    assert BatchesAsWritten(rows, "relateddevice", {1}, bs[1..]) == {1} + Elems([]);
    assert Flatten(bs) == bs[0] + bs[1] by {
      assert Flatten(bs[1..]) == bs[1] + Flatten(bs[1..][1..]);
    }
    assert QueryOids(rows, "relateddevice", bs[0] + bs[1]) == [1, 2] by {
      assert rows[1..][1..] == [];
    }
  }

  /** Object ids are unique among a layer's rows. */
  predicate UniqueOids(rows: seq<Row>) {
    forall i, j :: 0 <= i < j < |rows| ==> rows[i].oid != rows[j].oid
  }

  /** The row's value in `f` is written as one of the batch's literals. */
  predicate Hits(r: Row, f: string, chunk: seq<string>) {
    f in r.values && Literal(r.values[f]) in chunk
  }

  /** A query returns the id of a row exactly when that row's value is among the literals. */
  lemma {:induction false} QueryMember(rows: seq<Row>, f: string, chunk: seq<string>)
    ensures forall o :: o in QueryOids(rows, f, chunk) <==> exists r :: r in rows && r.oid == o && Hits(r, f, chunk)
  {
    if rows != [] {
      QueryMember(rows[1..], f, chunk);
      forall o ensures o in QueryOids(rows, f, chunk) <==> exists r :: r in rows && r.oid == o && Hits(r, f, chunk)
      {
        if exists r :: r in rows && r.oid == o && Hits(r, f, chunk) {
          var r :| r in rows && r.oid == o && Hits(r, f, chunk);
          if r != rows[0] {
            assert r in rows[1..];
          }
        }
        if o in QueryOids(rows[1..], f, chunk) {
          var r :| r in rows[1..] && r.oid == o && Hits(r, f, chunk);
          assert r in rows;
        }
      }
    }
  }

  /**
   * As written, once the layer has a selection no batch adds anything: the
   * cursor shows only the selected rows, and their ids are selected already.
   */
  lemma {:induction false} SelectionFreezes(rows: seq<Row>, f: string, sel: set<int>, bs: seq<seq<string>>)
    requires sel != {}
    ensures BatchesAsWritten(rows, f, sel, bs) == sel
    decreases |bs|
  {
    if bs != [] {
      var vis := VisibleRows(rows, sel);
      assert vis == SelectedRows(rows, sel);
      QueryMember(vis, f, bs[0]);
      assert Elems(QueryOids(vis, f, bs[0])) <= sel;
      assert sel + Elems(QueryOids(vis, f, bs[0])) == sel;
      SelectionFreezes(rows, f, sel, bs[1..]);
    }
  }

  /** With nothing selected beforehand, only the first batch that finds a row selects anything. */
  lemma FirstBatchOnly(rows: seq<Row>, f: string, bs: seq<seq<string>>)
    requires bs != [] && QueryOids(rows, f, bs[0]) != []
    ensures BatchesAsWritten(rows, f, {}, bs) == Elems(QueryOids(rows, f, bs[0]))
  {
    var first := Elems(QueryOids(rows, f, bs[0]));
    assert QueryOids(rows, f, bs[0])[0] in first;
    assert VisibleRows(rows, {}) == rows;
    assert BatchesAsWritten(rows, f, {}, bs) == BatchesAsWritten(rows, f, {} + first, bs[1..]);
    assert {} + first == first;
    SelectionFreezes(rows, f, first, bs[1..]);
  }

  /** `create_sql` over more than 950 distinct ids makes two or more batches, and some id falls outside the first. */
  lemma OutsideFirstBatch(items: seq<Value>)
    requires items != [] && Homogeneous(items) && |Elems(items)| > ChunkSize
    ensures |InLists(items)| >= 2
    ensures exists v :: v in items && Literal(v) !in InLists(items)[0]
  {
    var bs := InLists(items);
    InListsSizes(items);
    InListsContents(items);
    SortedLiterals(items);
    var sorted := SortDedup(items);
    var all := Flatten(bs);
    assert all == bs[0] + Flatten(bs[1..]);
    var k := |bs[0]|;
    assert all[k] == Literal(sorted[k]);
    assert sorted[k] in items by {
      assert Literal(sorted[k]) in Render(sorted);
    }
    forall i | 0 <= i < k ensures bs[0][i] != all[k] {
      assert all[i] == bs[0][i];
    }
  }

  /**
   * When the first batch finds a row, as written a row that only a later
   * batch's literals match is never selected, though the intended run selects it.
   */
  lemma MissedRow(rows: seq<Row>, f: string, bs: seq<seq<string>>, r: Row)
    requires bs != [] && QueryOids(rows, f, bs[0]) != [] && UniqueOids(rows)
    requires r in rows && Hits(r, f, Flatten(bs)) && !Hits(r, f, bs[0])
    ensures r.oid !in BatchesAsWritten(rows, f, {}, bs)
    ensures r.oid in BatchesIntended(rows, f, {}, bs)
  {
    FirstBatchOnly(rows, f, bs);
    QueryMember(rows, f, bs[0]);
    QueryMember(rows, f, Flatten(bs));
    forall r' | r' in rows && r'.oid == r.oid ensures r' == r {
      SameOidSameRow(rows, r, r');
    }
  }

  lemma SameOidSameRow(rows: seq<Row>, r: Row, r': Row)
    requires UniqueOids(rows) && r in rows && r' in rows && r.oid == r'.oid
    ensures r == r'
  {
    var i :| 0 <= i < |rows| && rows[i] == r;
    var j :| 0 <= j < |rows| && rows[j] == r';
  }

  /**
   * Lines 226-231 as written, over the batches of `create_sql` for more
   * than 950 distinct ids: when the first batch finds a row, the result is
   * that batch's matches alone, and every row holding an id outside the
   * first batch is missed, though the intended run selects it.
   */
  lemma LaterBatchesMissed(rows: seq<Row>, f: string, items: seq<Value>)
    requires items != [] && Homogeneous(items) && |Elems(items)| > ChunkSize
    requires UniqueOids(rows)
    requires |InLists(items)| > 0 && QueryOids(rows, f, InLists(items)[0]) != []
    ensures |InLists(items)| >= 2
    ensures exists v :: v in items && Literal(v) !in InLists(items)[0]
    ensures BatchesAsWritten(rows, f, {}, InLists(items)) == Elems(QueryOids(rows, f, InLists(items)[0]))
    ensures forall r :: r in rows && f in r.values && r.values[f] in items && Literal(r.values[f]) !in InLists(items)[0]
                        ==> r.oid !in BatchesAsWritten(rows, f, {}, InLists(items))
                            && r.oid in BatchesIntended(rows, f, {}, InLists(items))
  {
    var bs := InLists(items);
    OutsideFirstBatch(items);
    FirstBatchOnly(rows, f, bs);
    InListsContents(items);
    forall r | r in rows && f in r.values && r.values[f] in items && Literal(r.values[f]) !in bs[0]
      ensures r.oid !in BatchesAsWritten(rows, f, {}, bs) && r.oid in BatchesIntended(rows, f, {}, bs)
    {
      MissedRow(rows, f, bs, r);
    }
  }
}
