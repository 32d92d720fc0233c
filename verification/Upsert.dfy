/**
 * The aggregate UPSERTs of telemetry.ts: `chunk`, `tuples`, the parameter arrays they are read against,
 * and `INSERT ... ON CONFLICT DO UPDATE` over any number of rows and any merge of two values.
 */
module Upsert {
  import opened Prelude

  const UPSERT_CHUNK: nat := 100

  datatype Row<+K, +V> = Row(key: K, value: V)

  // ------------------------------------------------------------------------------ chunks and tuples

  /** Consecutive pieces of at most `size` items. */
  method Chunk<T>(items: seq<T>, size: nat) returns (out: seq<seq<T>>)
    requires size > 0
    ensures Flatten(out) == items
    ensures forall i :: 0 <= i < |out| ==> 0 < |out[i]| <= size
    ensures forall i :: 0 <= i < |out| - 1 ==> |out[i]| == size
  {
    out := [];
    var i := 0;
    while i < |items|
      invariant 0 <= i
      invariant Flatten(out) == items[..Min(i, |items|)]
      invariant forall k :: 0 <= k < |out| ==> 0 < |out[k]| <= size
      invariant forall k :: 0 <= k < |out| - 1 ==> |out[k]| == size
      invariant i <= |items| ==> forall k :: 0 <= k < |out| ==> |out[k]| == size
    {
      var piece := items[i..Min(i + size, |items|)];
      FlattenAppend(out, piece);
      assert items[..i] + piece == items[..Min(i + size, |items|)];
      out := out + [piece];
      i := i + size;
    }
    assert items[..|items|] == items;
  }

  /** The placeholder numbers of a VALUES list: `$1..$shared` in every tuple, then the tuple's own run. */
  method Tuples(rows: nat, columns: nat, shared: nat) returns (out: seq<seq<nat>>)
    ensures IsTuples(out, rows, columns, shared)
  {
    var head := seq(shared, i => i + 1);
    out := [];
    for r := 0 to rows
      invariant IsTuples(out, r, columns, shared)
    {
      var cells := head;
      for c := 0 to columns
        invariant |cells| == shared + c
        invariant forall i :: 0 <= i < |cells| ==> cells[i] == Placeholder(r, columns, shared, i)
      {
        cells := cells + [shared + 1 + r * columns + c];
      }
      out := out + [cells];
    }
  }

  predicate IsTuples(out: seq<seq<nat>>, rows: nat, columns: nat, shared: nat) {
    |out| == rows && forall r :: 0 <= r < rows ==> IsTuple(out[r], r, columns, shared)
  }

  predicate IsTuple(cells: seq<nat>, r: nat, columns: nat, shared: nat) {
    |cells| == shared + columns && forall i :: 0 <= i < |cells| ==> cells[i] == Placeholder(r, columns, shared, i)
  }

  /** The i-th placeholder of the r-th tuple: shared ones repeat, the others continue where the last tuple stopped. */
  function Placeholder(r: nat, columns: nat, shared: nat, i: nat): nat {
    if i < shared then i + 1 else shared + 1 + r * columns + (i - shared)
  }

  /** The parameter array of one statement: the shared values, then every row's fields in turn. */
  method BuildParams<C>(shared: seq<C>, rows: seq<seq<C>>) returns (params: seq<C>)
    ensures params == shared + Flatten(rows)
  {
    params := shared;
    for r := 0 to |rows|
      invariant params == shared + Flatten(rows[..r])
    {
      FlattenAppend(rows[..r], rows[r]);
      assert rows[..r] + [rows[r]] == rows[..r + 1];
      params := params + rows[r];
    }
    assert rows[..|rows|] == rows;
  }

  /** What the database reads for `$k`: the k-th parameter, counted from one. */
  predicate Resolvable(cells: seq<nat>, count: nat) {
    forall i :: 0 <= i < |cells| ==> 1 <= cells[i] <= count
  }

  function Resolve<C>(cells: seq<nat>, params: seq<C>): seq<C>
    requires Resolvable(cells, |params|)
  {
    seq(|cells|, i requires 0 <= i < |cells| => params[cells[i] - 1])
  }

  lemma {:induction false} FlattenRectangular<C>(rows: seq<seq<C>>, columns: nat, r: nat, c: nat)
    requires forall i :: 0 <= i < |rows| ==> |rows[i]| == columns
    requires r < |rows| && c < columns
    ensures |Flatten(rows)| == |rows| * columns
    ensures r * columns + c < |Flatten(rows)| && Flatten(rows)[r * columns + c] == rows[r][c]
    decreases |rows|
  {
    FlattenLength(rows, columns);
    if r > 0 {
      FlattenRectangular(rows[1..], columns, r - 1, c);
      assert r * columns + c == columns + ((r - 1) * columns + c);
    } else {
      assert |Flatten(rows)| == columns + |Flatten(rows[1..])|;
    }
  }

  lemma {:induction false} FlattenLength<C>(rows: seq<seq<C>>, columns: nat)
    requires forall i :: 0 <= i < |rows| ==> |rows[i]| == columns
    ensures |Flatten(rows)| == |rows| * columns
  {
    if rows != [] {
      FlattenLength(rows[1..], columns);
      assert |rows| * columns == columns + |rows[1..]| * columns;
    }
  }

  /** Every tuple of a statement resolves to the shared values followed by exactly its own row. */
  lemma TuplesResolve<C>(out: seq<seq<nat>>, shared: seq<C>, rows: seq<seq<C>>, columns: nat, r: nat)
    requires forall i :: 0 <= i < |rows| ==> |rows[i]| == columns
    requires IsTuples(out, |rows|, columns, |shared|) && r < |rows|
    ensures Resolvable(out[r], |shared + Flatten(rows)|)
    ensures Resolve(out[r], shared + Flatten(rows)) == shared + rows[r]
  {
    var params := shared + Flatten(rows);
    assert IsTuple(out[r], r, columns, |shared|);
    forall i | 0 <= i < |out[r]| ensures 1 <= out[r][i] <= |params| && params[out[r][i] - 1] == (shared + rows[r])[i] {
      if i >= |shared| {
        var c := i - |shared|;
        FlattenRectangular(rows, columns, r, c);
        assert out[r][i] - 1 - |shared| == r * columns + c;
      }
    }
  }

  /** One statement as it is sent: its tuples, read against its parameters, are the shared values and each row. */
  method StatementRows<C>(shared: seq<C>, rows: seq<seq<C>>, columns: nat) returns (resolved: seq<seq<C>>)
    requires forall i :: 0 <= i < |rows| ==> |rows[i]| == columns
    ensures |resolved| == |rows|
    ensures forall r :: 0 <= r < |rows| ==> resolved[r] == shared + rows[r]
  {
    var tuples := Tuples(|rows|, columns, |shared|);
    var params := BuildParams(shared, rows);
    resolved := [];
    for r := 0 to |rows|
      invariant |resolved| == r
      invariant forall k :: 0 <= k < r ==> resolved[k] == shared + rows[k]
    {
      TuplesResolve(tuples, shared, rows, columns, r);
      resolved := resolved + [Resolve(tuples[r], params)];
    }
  }

  // ----------------------------------------------------------------------------------------- UPSERTs

  /** One row: inserted, or merged into the row that has its key. */
  function UpsertOne<K, V>(t: map<K, V>, row: Row<K, V>, merge: (V, V) -> V): map<K, V> {
    t[row.key := if row.key in t then merge(t[row.key], row.value) else row.value]
  }

  /** Row after row. */
  function UpsertEach<K, V>(t: map<K, V>, rows: seq<Row<K, V>>, merge: (V, V) -> V): map<K, V> {
    if rows == [] then t
    else UpsertOne(UpsertEach(t, rows[..|rows| - 1], merge), rows[|rows| - 1], merge)
  }

  predicate DistinctKeys<K(==), V>(rows: seq<Row<K, V>>) {
    forall i, j :: 0 <= i < j < |rows| ==> rows[i].key != rows[j].key
  }

  function KeysOf<K, V>(rows: seq<Row<K, V>>): set<K> {
    set i | 0 <= i < |rows| :: rows[i].key
  }

  /** What one multi-row statement leaves: every proposed row is merged into the table as it was before it. */
  ghost predicate StatementLeaves<K(!new), V(!new)>(t: map<K, V>, rows: seq<Row<K, V>>, merge: (V, V) -> V, u: map<K, V>) {
    && u.Keys == t.Keys + KeysOf(rows)
    && (forall i :: 0 <= i < |rows| ==>
          u[rows[i].key] == if rows[i].key in t then merge(t[rows[i].key], rows[i].value) else rows[i].value)
    && (forall k :: k in t && k !in KeysOf(rows) ==> u[k] == t[k])
  }

  lemma {:induction false} UpsertEachAppend<K, V>(t: map<K, V>, a: seq<Row<K, V>>, b: seq<Row<K, V>>, merge: (V, V) -> V)
    ensures UpsertEach(t, a + b, merge) == UpsertEach(UpsertEach(t, a, merge), b, merge)
    decreases |b|
  {
    if b == [] {
      assert a + b == a;
    } else {
      var n := |b| - 1;
      assert (a + b)[..|a + b| - 1] == a + b[..n];
      UpsertEachAppend(t, a, b[..n], merge);
    }
  }

  lemma KeysOfFront<K, V>(rows: seq<Row<K, V>>)
    requires rows != []
    ensures KeysOf(rows) == KeysOf(rows[..|rows| - 1]) + {rows[|rows| - 1].key}
  {
    var n := |rows| - 1;
    var front := rows[..n];
    forall k | k in KeysOf(front) ensures k in KeysOf(rows) {
      var i :| 0 <= i < n && front[i].key == k;
      assert rows[i].key == k;
    }
    forall k | k in KeysOf(rows) ensures k in KeysOf(front) || k == rows[n].key {
      var i :| 0 <= i <= n && rows[i].key == k;
      if i < n { assert front[i].key == k; }
    }
  }

  /** A statement whose keys are distinct does what one UPSERT per row does. */
  lemma {:induction false} StatementIsUpsertEach<K(!new), V(!new)>(
    t: map<K, V>, rows: seq<Row<K, V>>, merge: (V, V) -> V, u: map<K, V>)
    requires DistinctKeys(rows)
    ensures StatementLeaves(t, rows, merge, u) <==> u == UpsertEach(t, rows, merge)
  {
    UpsertEachIsStatement(t, rows, merge);
    var w := UpsertEach(t, rows, merge);
    if StatementLeaves(t, rows, merge, u) {
      forall k | k in u ensures u[k] == w[k] {
        if k in KeysOf(rows) {
          var i :| 0 <= i < |rows| && rows[i].key == k;
        }
      }
    }
  }

  lemma {:induction false} UpsertEachIsStatement<K(!new), V(!new)>(t: map<K, V>, rows: seq<Row<K, V>>, merge: (V, V) -> V)
    requires DistinctKeys(rows)
    ensures StatementLeaves(t, rows, merge, UpsertEach(t, rows, merge))
  {
    if rows == [] {
      assert KeysOf(rows) == {};
    } else {
      var n := |rows| - 1;
      var front := rows[..n];
      UpsertEachIsStatement(t, front, merge);
      KeysOfFront(rows);
      assert rows[n].key !in KeysOf(front);
      assert forall i :: 0 <= i < n ==> front[i] == rows[i];
    }
  }

  /** Statement after statement, one per piece. */
  function Statements<K, V>(t: map<K, V>, pieces: seq<seq<Row<K, V>>>, merge: (V, V) -> V): map<K, V>
    decreases |pieces|
  {
    if pieces == [] then t
    else Statements(UpsertEach(t, pieces[0], merge), pieces[1..], merge)
  }

  /** However the rows are cut into statements, the table ends as one UPSERT per row leaves it. */
  lemma {:induction false} ChunkingChangesNothing<K, V>(t: map<K, V>, pieces: seq<seq<Row<K, V>>>, merge: (V, V) -> V)
    ensures Statements(t, pieces, merge) == UpsertEach(t, Flatten(pieces), merge)
    decreases |pieces|
  {
    if pieces != [] {
      ChunkingChangesNothing(UpsertEach(t, pieces[0], merge), pieces[1..], merge);
      UpsertEachAppend(t, pieces[0], Flatten(pieces[1..]), merge);
    }
  }

  lemma {:induction false} FlattenDistinct<K, V>(pieces: seq<seq<Row<K, V>>>, p: nat)
    requires DistinctKeys(Flatten(pieces)) && p < |pieces|
    ensures DistinctKeys(pieces[p])
    decreases |pieces|
  {
    var rest := Flatten(pieces[1..]);
    assert Flatten(pieces) == pieces[0] + rest;
    if p == 0 {
      forall i, j | 0 <= i < j < |pieces[0]| ensures pieces[0][i].key != pieces[0][j].key {
        assert Flatten(pieces)[i].key != Flatten(pieces)[j].key;
      }
    } else {
      forall i, j | 0 <= i < j < |rest| ensures rest[i].key != rest[j].key {
        assert Flatten(pieces)[|pieces[0]| + i].key != Flatten(pieces)[|pieces[0]| + j].key;
      }
      FlattenDistinct(pieces[1..], p - 1);
    }
  }

  /** The database's side of one statement. Two proposed rows with one key would be refused (SQLSTATE 21000). */
  method RunStatement<K(!new, ==), V(!new)>(t: map<K, V>, rows: seq<Row<K, V>>, merge: (V, V) -> V) returns (u: map<K, V>)
    requires DistinctKeys(rows)
    ensures StatementLeaves(t, rows, merge, u)
  {
    u := UpsertEach(t, rows, merge);
    UpsertEachIsStatement(t, rows, merge);
  }

  /** One table's share of a transaction: its rows in chunks, one statement per chunk. */
  method WriteRows<K(!new, ==), V(!new)>(t: map<K, V>, rows: seq<Row<K, V>>, merge: (V, V) -> V) returns (u: map<K, V>)
    requires DistinctKeys(rows)
    ensures u == UpsertEach(t, rows, merge)
    ensures StatementLeaves(t, rows, merge, u)
  {
    var pieces := Chunk(rows, UPSERT_CHUNK);
    u := t;
    for p := 0 to |pieces|
      invariant Statements(t, pieces, merge) == Statements(u, pieces[p..], merge)
    {
      FlattenDistinct(pieces, p);
      var v := RunStatement(u, pieces[p], merge);
      StatementIsUpsertEach(u, pieces[p], merge, v);
      u := v;
      assert pieces[p..][0] == pieces[p] && pieces[p..][1..] == pieces[p + 1..];
    }
    ChunkingChangesNothing(t, pieces, merge);
    UpsertEachIsStatement(t, rows, merge);
  }
}
