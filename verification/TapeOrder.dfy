/** Tape rows and the order replay promises for them: by receive time, rows of one nanosecond by
    symbol, each symbol's rows in the order they were written. */
module TapeOrder {
  /** Symbols are numbered in path order from 1; 0 is a row that names none. */
  datatype Row = Row(ns: int, symbol: nat, bytes: nat, payload: int)

  predicate Precedes(a: Row, b: Row) {
    a.ns < b.ns || (a.ns == b.ns && a.symbol <= b.symbol)
  }

  ghost predicate InOrder(rows: seq<Row>) {
    forall i, j :: 0 <= i < j < |rows| ==> Precedes(rows[i], rows[j])
  }

  ghost predicate TimeOrdered(rows: seq<Row>) {
    forall i, j :: 0 <= i < j < |rows| ==> rows[i].ns <= rows[j].ns
  }

  function OfSymbol(rows: seq<Row>, symbol: nat): seq<Row> {
    if rows == [] then []
    else
      var last := rows[|rows| - 1];
      OfSymbol(rows[..|rows| - 1], symbol) + (if last.symbol == symbol then [last] else [])
  }

  lemma {:induction false} OfSymbolApart(a: seq<Row>, b: seq<Row>, symbol: nat)
    ensures OfSymbol(a + b, symbol) == OfSymbol(a, symbol) + OfSymbol(b, symbol)
  {
    if b == [] {
      assert a + b == a;
    } else {
      OfSymbolApart(a, b[..|b| - 1], symbol);
      assert (a + b)[..|a + b| - 1] == a + b[..|b| - 1];
    }
  }

  lemma {:induction false} OfSymbolRow(rows: seq<Row>, symbol: nat, k: nat)
    requires k < |OfSymbol(rows, symbol)|
    ensures OfSymbol(rows, symbol)[k] in rows && OfSymbol(rows, symbol)[k].symbol == symbol
  {
    var n := |rows| - 1;
    if k < |OfSymbol(rows[..n], symbol)| { OfSymbolRow(rows[..n], symbol, k); }
  }

  /** The row that ends a symbol's stream is in the list, and an in-order list ends at or after it. */
  lemma LastOfSymbol(rows: seq<Row>, symbol: nat)
    requires InOrder(rows) && OfSymbol(rows, symbol) != []
    ensures rows != [] && Precedes(OfSymbol(rows, symbol)[|OfSymbol(rows, symbol)| - 1], rows[|rows| - 1])
  {
    var mine := OfSymbol(rows, symbol);
    OfSymbolRow(rows, symbol, |mine| - 1);
    var i :| 0 <= i < |rows| && rows[i] == mine[|mine| - 1];
  }

  ghost predicate SameStreams(a: seq<Row>, b: seq<Row>) {
    forall s {:trigger OfSymbol(a, s)} {:trigger OfSymbol(b, s)} :: OfSymbol(a, s) == OfSymbol(b, s)
  }

  lemma NoStreamsNoRows(a: seq<Row>)
    requires forall s :: OfSymbol(a, s) == []
    ensures a == []
  {
    if a != [] {
      var n := |a| - 1;
      assert OfSymbol(a, a[n].symbol) == OfSymbol(a[..n], a[n].symbol) + [a[n]];
    }
  }

  /** Two lists in order with the same rows per symbol are one list. */
  lemma {:induction false} OrderIsUnique(a: seq<Row>, b: seq<Row>)
    requires InOrder(a) && InOrder(b)
    requires SameStreams(a, b)
    ensures a == b
    decreases |a| + |b|
  {
    if a == [] {
      NoStreamsNoRows(b);
    } else if b == [] {
      NoStreamsNoRows(a);
    } else {
      var x, y := a[|a| - 1], b[|b| - 1];
      assert OfSymbol(a, x.symbol) == OfSymbol(b, x.symbol) && OfSymbol(a, y.symbol) == OfSymbol(b, y.symbol);
      LastOfSymbol(b, x.symbol);
      LastOfSymbol(a, y.symbol);
      assert x == y;
      var p, q := a[..|a| - 1], b[..|b| - 1];
      forall s
        ensures OfSymbol(p, s) == OfSymbol(q, s)
      {
        SameWithoutLast(a, b, s);
      }
      OrderIsUnique(p, q);
    }
  }

  lemma SameWithoutLast(a: seq<Row>, b: seq<Row>, s: nat)
    requires a != [] && b != [] && a[|a| - 1] == b[|b| - 1] && OfSymbol(a, s) == OfSymbol(b, s)
    ensures OfSymbol(a[..|a| - 1], s) == OfSymbol(b[..|b| - 1], s)
  {
    var p, q := OfSymbol(a[..|a| - 1], s), OfSymbol(b[..|b| - 1], s);
    var tail := if a[|a| - 1].symbol == s then [a[|a| - 1]] else [];
    assert p + tail == q + tail;
    assert p == (p + tail)[..|p|] && q == (q + tail)[..|q|];
  }

  // ------------------------------------------------- the reference: a stable sort

  /** `row` after every row that does not come after it. */
  function Insert(sorted: seq<Row>, row: Row): seq<Row> {
    if sorted == [] || Precedes(sorted[|sorted| - 1], row) then sorted + [row]
    else Insert(sorted[..|sorted| - 1], row) + [sorted[|sorted| - 1]]
  }

  function StableSort(rows: seq<Row>): seq<Row> {
    if rows == [] then [] else Insert(StableSort(rows[..|rows| - 1]), rows[|rows| - 1])
  }

  lemma {:induction false} InsertKeeps(sorted: seq<Row>, row: Row)
    requires InOrder(sorted)
    ensures InOrder(Insert(sorted, row))
    ensures forall r :: r in Insert(sorted, row) <==> r in sorted || r == row
    decreases |sorted|
  {
    if sorted != [] && !Precedes(sorted[|sorted| - 1], row) {
      var n := |sorted| - 1;
      var init := Insert(sorted[..n], row);
      InsertKeeps(sorted[..n], row);
      assert sorted == sorted[..n] + [sorted[n]];
      forall i | 0 <= i < |init|
        ensures Precedes(init[i], sorted[n])
      {
        assert init[i] in init;
        if init[i] != row {
          var k :| 0 <= k < n && sorted[..n][k] == init[i];
          assert Precedes(sorted[k], sorted[n]);
        }
      }
    }
  }

  lemma {:induction false} InsertProjects(sorted: seq<Row>, row: Row, s: nat)
    requires InOrder(sorted)
    requires forall i :: 0 <= i < |sorted| && sorted[i].symbol == row.symbol ==> sorted[i].ns <= row.ns
    ensures OfSymbol(Insert(sorted, row), s) == OfSymbol(sorted, s) + (if row.symbol == s then [row] else [])
    decreases |sorted|
  {
    if sorted == [] || Precedes(sorted[|sorted| - 1], row) {
      OfSymbolApart(sorted, [row], s);
      assert [row][..0] == [];
    } else {
      var n := |sorted| - 1;
      InsertProjects(sorted[..n], row, s);
      var init := Insert(sorted[..n], row);
      assert (init + [sorted[n]])[..|init|] == init;
      assert sorted[n].symbol != row.symbol;
    }
  }

  /** The sort is in order and, rows having come in time order, keeps every symbol's rows as they came. */
  lemma {:induction false} StableSortSorts(rows: seq<Row>)
    requires TimeOrdered(rows)
    ensures InOrder(StableSort(rows))
    ensures forall r :: r in StableSort(rows) <==> r in rows
    ensures SameStreams(StableSort(rows), rows)
  {
    if rows != [] {
      var n := |rows| - 1;
      StableSortSorts(rows[..n]);
      var sorted := StableSort(rows[..n]);
      InsertKeeps(sorted, rows[n]);
      assert rows == rows[..n] + [rows[n]];
      forall i | 0 <= i < |sorted|
        ensures sorted[i].ns <= rows[n].ns
      {
        assert sorted[i] in rows[..n];
        var k :| 0 <= k < n && rows[..n][k] == sorted[i];
        assert rows[k].ns <= rows[n].ns;
      }
      forall s
        ensures OfSymbol(StableSort(rows), s) == OfSymbol(rows, s)
      {
        InsertProjects(sorted, rows[n], s);
      }
    }
  }
}
