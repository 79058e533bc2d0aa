/**
 * `SelectRelated.create_sql`: the where-clauses that select the rows of a
 * related table whose key field holds one of the collected values.
 *
 * A collection (list, tuple or set) is deduplicated, sorted, rendered as
 * literals and cut into batches of 950; each batch becomes
 * `<field> IN (<lit>,<lit>,...)`. Any other value becomes `<field> = <lit>`.
 * The function is a generator, so the early `return '1 = 1'` for an empty
 * collection ends the generator before its first `yield`: an empty
 * collection produces no where-clause at all.
 *
 * The host's `AddFieldDelimiters` is the parameter `delimit`, which the
 * model does not interpret.
 */
module SqlBuilder {
  import opened Common
  import opened Literals
  import opened Ordering
  import opened Chunking

  /** The number of values in one IN-list. */
  const ChunkSize: nat := 950

  /** The argument `values`: a list, tuple or set, or a single value. */
  datatype SqlValues = Collection(items: seq<Value>) | Scalar(value: Value)

  /** The two templates: `'{} IN ({})'` and `'{} = {}'`. */
  datatype QueryForm = InList | Equality

  /** All values are strings, or all are integers. */
  predicate Homogeneous(vs: seq<Value>) {
    (forall i :: 0 <= i < |vs| ==> vs[i].Str?) || (forall i :: 0 <= i < |vs| ==> vs[i].Int?)
  }

  lemma HomogeneousSubset(xs: seq<Value>, ys: seq<Value>)
    requires Elems(ys) <= Elems(xs) && Homogeneous(xs)
    ensures Homogeneous(ys)
  {
    if forall i :: 0 <= i < |xs| ==> xs[i].Str? {
      forall i | 0 <= i < |ys| ensures ys[i].Str? {
        assert ys[i] in Elems(xs);
      }
    } else {
      forall i | 0 <= i < |ys| ensures ys[i].Int? {
        assert ys[i] in Elems(xs);
      }
    }
  }

  /** Whether values mix kinds depends only on which values there are. */
  lemma HomogeneousByElems(xs: seq<Value>, ys: seq<Value>)
    requires Elems(xs) == Elems(ys)
    ensures Homogeneous(xs) <==> Homogeneous(ys)
  {
    if Homogeneous(xs) { HomogeneousSubset(xs, ys); }
    if Homogeneous(ys) { HomogeneousSubset(ys, xs); }
  }

  /**
   * Lines 39-44: the rendering is chosen by the kind of the first value and
   * applied to every value; on a homogeneous list that gives each value its
   * own literal.
   */
  function Render(vals: seq<Value>): (r: seq<string>)
    requires vals != [] && Homogeneous(vals)
    ensures |r| == |vals|
    ensures forall i :: 0 <= i < |vals| ==> r[i] == Literal(vals[i])
  {
    if vals[0].Str? then seq(|vals|, i requires 0 <= i < |vals| => QuoteString(vals[i].s))
    else seq(|vals|, i requires 0 <= i < |vals| => IntToString(vals[i].i))
  }

  /**
   * Lines 28-45: the template and the batches of rendered values that the
   * generator formats, one where-clause per batch. Sorting a collection that
   * mixes strings and integers raises TypeError.
   */
  function ValueBatches(values: SqlValues): Result<(QueryForm, seq<seq<string>>)> {
    match values
    case Collection(items) =>
      if items == [] then Ok((InList, []))
      else if !Homogeneous(items) then Err(TypeError)
      else
        var sorted := SortDedup(items);
        HomogeneousByElems(items, sorted);
        Ok((InList, Chunks(Render(sorted), ChunkSize)))
    case Scalar(v) => Ok((Equality, Chunks(Render([v]), ChunkSize)))
  }

  /** `query.format(field_delim, ",".join(chunk))` */
  function Format(form: QueryForm, fieldDelim: string, batch: seq<string>): string {
    match form
    case InList => fieldDelim + " IN (" + Join(batch) + ")"
    case Equality => fieldDelim + " = " + Join(batch)
  }

  /** `create_sql(table, field, values)`: every where-clause the generator yields, in order. */
  function CreateSql(delimit: (string, string) -> string, table: string, field: string, values: SqlValues)
    : Result<seq<string>>
  {
    var fieldDelim := delimit(table, field);
    match ValueBatches(values)
    case Err(e) => Err(e)
    case Ok((form, batches)) =>
      Ok(seq(|batches|, i requires 0 <= i < |batches| => Format(form, fieldDelim, batches[i])))
  }

  /** The IN-lists of a non-empty collection, as the sorted distinct literals cut into batches. */
  function InLists(items: seq<Value>): (bs: seq<seq<string>>)
    requires items != [] && Homogeneous(items)
    ensures ValueBatches(Collection(items)) == Ok((InList, bs))
  {
    ValueBatches(Collection(items)).value.1
  }

  /** Distinct values render to distinct literals. */
  lemma RenderDistinct(vals: seq<Value>)
    requires vals != [] && Homogeneous(vals) && Distinct(vals)
    ensures Distinct(Render(vals))
  {
    var lits := Render(vals);
    forall i, j | 0 <= i < j < |lits| ensures lits[i] != lits[j] {
      if lits[i] == lits[j] { LiteralInjective(vals[i], vals[j]); }
    }
  }

  /** The rendered list holds the literal of a value exactly when the value is in the list. */
  lemma RenderMembers(vals: seq<Value>, v: Value)
    requires vals != [] && Homogeneous(vals)
    ensures Literal(v) in Render(vals) <==> v in vals
  {
    var lits := Render(vals);
    if Literal(v) in lits {
      var i :| 0 <= i < |lits| && lits[i] == Literal(v);
      LiteralInjective(vals[i], v);
    }
    if v in vals {
      var i :| 0 <= i < |vals| && vals[i] == v;
      assert lits[i] == Literal(v);
    }
  }

  /** The literals of the sorted distinct values: each distinct value once, and nothing else. */
  lemma SortedLiterals(items: seq<Value>)
    requires items != [] && Homogeneous(items)
    ensures SortDedup(items) != [] && Homogeneous(SortDedup(items))
    ensures Distinct(Render(SortDedup(items)))
    ensures |Render(SortDedup(items))| == |Elems(items)|
    ensures forall v :: Literal(v) in Render(SortDedup(items)) <==> v in items
  {
    var sorted := SortDedup(items);
    assert items[0] in Elems(sorted);
    HomogeneousByElems(items, sorted);
    StrictlySortedDistinct(sorted);
    SortDedupLength(items);
    RenderDistinct(sorted);
    forall v ensures Literal(v) in Render(sorted) <==> v in items {
      RenderMembers(sorted, v);
      assert v in sorted <==> v in Elems(sorted);
    }
  }

  /**
   * The IN-lists of a non-empty homogeneous collection: ceil(distinct / 950)
   * of them, each non-empty with at most 950 literals (all but the last
   * exactly 950); together they are the sorted literals of the distinct
   * values, so no value is in two batches and every value is in one.
   */
  lemma InListsShape(items: seq<Value>)
    requires items != [] && Homogeneous(items)
    ensures var bs := InLists(items);
      && |bs| == (|Elems(items)| + ChunkSize - 1) / ChunkSize
      && (forall i :: 0 <= i < |bs| ==> 0 < |bs[i]| <= ChunkSize)
      && (forall i :: 0 <= i < |bs| - 1 ==> |bs[i]| == ChunkSize)
      && SortDedup(items) != [] && Homogeneous(SortDedup(items))
      && Flatten(bs) == Render(SortDedup(items))
      && Distinct(Flatten(bs))
      && (forall v :: Literal(v) in Flatten(bs) <==> v in items)
  {
    InListsSizes(items);
    InListsContents(items);
  }

  lemma InListsSizes(items: seq<Value>)
    requires items != [] && Homogeneous(items)
    ensures var bs := InLists(items);
      && |bs| == (|Elems(items)| + ChunkSize - 1) / ChunkSize
      && (forall i :: 0 <= i < |bs| ==> 0 < |bs[i]| <= ChunkSize)
      && (forall i :: 0 <= i < |bs| - 1 ==> |bs[i]| == ChunkSize)
  {
    SortedLiterals(items);
    var sorted := SortDedup(items);
    assert InLists(items) == Chunks(Render(sorted), ChunkSize);
  }

  lemma InListsContents(items: seq<Value>)
    requires items != [] && Homogeneous(items)
    ensures var bs := InLists(items);
      && SortDedup(items) != [] && Homogeneous(SortDedup(items))
      && Flatten(bs) == Render(SortDedup(items))
      && Distinct(Flatten(bs))
      && (forall v :: Literal(v) in Flatten(bs) <==> v in items)
  {
    SortedLiterals(items);
    var sorted := SortDedup(items);
    assert InLists(items) == Chunks(Render(sorted), ChunkSize);
  }

  /** Each where-clause of a non-empty homogeneous collection is `<field> IN (<batch>)`, batch by batch. */
  lemma CreateSqlCollection(delimit: (string, string) -> string, table: string, field: string, items: seq<Value>)
    requires items != [] && Homogeneous(items)
    ensures var bs := InLists(items);
      CreateSql(delimit, table, field, Collection(items))
      == Ok(seq(|bs|, i requires 0 <= i < |bs| => delimit(table, field) + " IN (" + Join(bs[i]) + ")"))
  {
    var bs := InLists(items);
    var fieldDelim := delimit(table, field);
    assert seq(|bs|, i requires 0 <= i < |bs| => Format(InList, fieldDelim, bs[i]))
        == seq(|bs|, i requires 0 <= i < |bs| => fieldDelim + " IN (" + Join(bs[i]) + ")");
  }

  /** A collection mixing strings and integers cannot be sorted. */
  lemma CreateSqlMixed(delimit: (string, string) -> string, table: string, field: string, items: seq<Value>,
                       i: nat, j: nat)
    requires i < |items| && j < |items| && items[i].Str? && items[j].Int?
    ensures CreateSql(delimit, table, field, Collection(items)) == Err(TypeError)
  {
  }

  /** An empty collection ends the generator before its first `yield`. */
  lemma CreateSqlEmpty(delimit: (string, string) -> string, table: string, field: string)
    ensures CreateSql(delimit, table, field, Collection([])) == Ok([])
  {
    var bs: seq<seq<string>> := [];
    assert seq(|bs|, i requires 0 <= i < |bs| => Format(InList, delimit(table, field), bs[i])) == [];
  }

  /** A single value yields exactly one equality. */
  lemma CreateSqlScalar(delimit: (string, string) -> string, table: string, field: string, v: Value)
    ensures CreateSql(delimit, table, field, Scalar(v)) == Ok([delimit(table, field) + " = " + Literal(v)])
  {
    var bs := Chunks(Render([v]), ChunkSize);
    assert |bs| == 1 && Flatten(bs) == [Literal(v)];
    assert bs[0] == [Literal(v)] by {
      assert Flatten(bs) == bs[0] + Flatten(bs[1..]);
    }
    assert Format(Equality, delimit(table, field), bs[0]) == delimit(table, field) + " = " + Literal(v);
    assert seq(|bs|, i requires 0 <= i < |bs| => Format(Equality, delimit(table, field), bs[i]))
        == [delimit(table, field) + " = " + Literal(v)];
  }

  /** The where-clauses depend only on the set of values: any order, any repetition. */
  lemma CreateSqlCanonical(delimit: (string, string) -> string, table: string, field: string,
                           xs: seq<Value>, ys: seq<Value>)
    requires Elems(xs) == Elems(ys)
    ensures CreateSql(delimit, table, field, Collection(xs)) == CreateSql(delimit, table, field, Collection(ys))
  {
    assert xs != [] ==> xs[0] in Elems(ys);
    assert ys != [] ==> ys[0] in Elems(xs);
    HomogeneousByElems(xs, ys);
    SortDedupCanonical(xs, ys);
  }
}
