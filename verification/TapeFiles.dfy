/** The tape on disk: the segment writer (market_tape/storage.py) and the replay merge
    (market_tape/load.py). The UTC hour of a receive time is a parameter, monotone where order
    matters; a segment is its rows, and segments of one hour and symbol are kept in index order. */
module TapeFiles {
  import opened TapeOrder

  datatype Key = Key(hour: int, symbol: nat)

  datatype Segment = Segment(hour: int, rows: seq<Row>, bytes: nat, unsynced: nat)

  type Files = map<Key, seq<seq<Row>>>

  function Bytes(rows: seq<Row>): nat {
    if rows == [] then 0 else Bytes(rows[..|rows| - 1]) + rows[|rows| - 1].bytes
  }

  function Flat(segments: seq<seq<Row>>): seq<Row> {
    if segments == [] then [] else Flat(segments[..|segments| - 1]) + segments[|segments| - 1]
  }

  function Closed(files: Files, k: Key): seq<seq<Row>> {
    if k in files then files[k] else []
  }

  /** The rows of one symbol received in one hour, as they came. */
  function InHour(rows: seq<Row>, hour: int -> int, k: Key): seq<Row> {
    if rows == [] then []
    else
      var last := rows[|rows| - 1];
      InHour(rows[..|rows| - 1], hour, k) + (if hour(last.ns) == k.hour && last.symbol == k.symbol then [last] else [])
  }

  predicate Capped(rows: seq<Row>, maxBytes: nat) { Bytes(rows) <= maxBytes || |rows| == 1 }

  /** What is open for a key: the symbol's active segment when it is of that hour. */
  function OpenIn(active: map<nat, Segment>, k: Key): seq<Row> {
    if k.symbol in active && active[k.symbol].hour == k.hour then active[k.symbol].rows else []
  }

  /** Every row is in exactly its hour's and symbol's files, in order. */
  ghost predicate CompleteIn(files: Files, active: map<nat, Segment>, written: seq<Row>, hour: int -> int) {
    forall k: Key {:trigger InHour(written, hour, k)} ::
      Flat(Closed(files, k)) + OpenIn(active, k) == InHour(written, hour, k)
  }

  lemma WriteKeepsComplete(files: Files, active: map<nat, Segment>, written: seq<Row>, hour: int -> int, row: Row,
                           segment: Segment)
    requires CompleteIn(files, active, written, hour)
    requires row.symbol in active ==> active[row.symbol].hour == hour(row.ns)
    requires segment.hour == hour(row.ns) && segment.rows == OpenIn(active, Key(hour(row.ns), row.symbol)) + [row]
    ensures CompleteIn(files, active[row.symbol := segment], written + [row], hour)
  {
    var after := active[row.symbol := segment];
    forall k: Key ensures Flat(Closed(files, k)) + OpenIn(after, k) == InHour(written + [row], hour, k) {
      assert (written + [row])[..|written|] == written;
      assert Flat(Closed(files, k)) + OpenIn(active, k) == InHour(written, hour, k);
      if k == Key(hour(row.ns), row.symbol) {
        assert Flat(Closed(files, k)) + (OpenIn(active, k) + [row])
               == Flat(Closed(files, k)) + OpenIn(active, k) + [row];
      } else {
        assert OpenIn(after, k) == OpenIn(active, k);
      }
    }
  }

  class SegmentWriter {
    const maxBytes: nat
    const fsyncEvery: nat
    const hour: int -> int
    var active: map<nat, Segment>
    var files: Files
    ghost var written: seq<Row>

    function Open(k: Key): seq<Row>
      reads this
    {
      OpenIn(active, k)
    }

    ghost predicate ActiveValid(s: nat)
      requires s in active
      reads this
    {
      var a := active[s];
      && a.rows != [] && a.bytes == Bytes(a.rows) && Capped(a.rows, maxBytes)
      && (a.unsynced == 0 || a.unsynced < fsyncEvery)
    }

    /** Every row ever accepted is in exactly its hour's and symbol's files, in order. */
    ghost predicate Complete()
      reads this
    {
      CompleteIn(files, active, written, hour)
    }

    ghost predicate FilesValid()
      reads this
    {
      forall k, i :: k in files && 0 <= i < |files[k]| ==> files[k][i] != [] && Capped(files[k][i], maxBytes)
    }

    ghost predicate Valid()
      reads this
    {
      && (forall s :: s in active ==> ActiveValid(s))
      && FilesValid()
      && Complete()
    }

    constructor (maxBytes: nat, fsyncEvery: nat, hour: int -> int)
      ensures Valid() && written == [] && active == map[] && this.hour == hour && this.maxBytes == maxBytes
              && this.fsyncEvery == fsyncEvery
    {
      this.maxBytes, this.fsyncEvery, this.hour := maxBytes, fsyncEvery, hour;
      active, files, written := map[], map[], [];
    }

    method CloseSegment(symbol: nat)
      requires Valid() && symbol in active
      modifies this
      ensures Valid() && written == old(written)
      ensures active == old(active) - {symbol}
    {
      var segment := active[symbol];
      var key := Key(segment.hour, symbol);
      active := active - {symbol};
      files := files[key := Closed(files, key) + [segment.rows]];
      forall k: Key
        ensures Flat(Closed(files, k)) + Open(k) == InHour(written, hour, k)
      {
        assert Flat(Closed(old(files), k)) + old(Open(k)) == InHour(written, hour, k);
        if k == key {
          assert Closed(files, k)[..|Closed(files, k)| - 1] == Closed(old(files), k);
          assert Open(k) == [];
        } else if k.symbol == symbol {
          assert old(Open(k)) == [] && Open(k) == [];
        }
      }
    }

    /** Into the symbol's open segment, or a new one. */
    method WriteRow(row: Row)
      requires Valid()
      requires row.symbol in active ==>
                 active[row.symbol].hour == hour(row.ns) && active[row.symbol].bytes + row.bytes <= maxBytes
      modifies this
      ensures Valid() && written == old(written) + [row] && files == old(files)
      ensures active.Keys == old(active.Keys) + {row.symbol} && active[row.symbol].hour == hour(row.ns)
    {
      var s := row.symbol;
      var segment := if s in active then active[s] else Segment(hour(row.ns), [], 0, 0);
      var unsynced := segment.unsynced + 1;
      if unsynced >= fsyncEvery { unsynced := 0; }
      var rows := segment.rows + [row];
      assert rows[..|rows| - 1] == segment.rows;
      WriteKeepsComplete(files, active, written, hour, row,
                         Segment(hour(row.ns), rows, segment.bytes + row.bytes, unsynced));
      active := active[s := Segment(hour(row.ns), rows, segment.bytes + row.bytes, unsynced)];
      written := written + [row];
      assert ActiveValid(s);
      forall t | t in active && t != s
        ensures ActiveValid(t)
      {
        assert old(ActiveValid(t));
      }
    }

    /** One row; false is a row without a receive time or a symbol, which is refused. */
    method Append(row: Row) returns (ok: bool)
      requires Valid()
      modifies this
      ensures Valid()
      ensures ok <==> row.ns > 0 && row.symbol != 0
      ensures written == if ok then old(written) + [row] else old(written)
      ensures !ok ==> active == old(active) && files == old(files)
      ensures ok ==> active.Keys == old(active.Keys) + {row.symbol} && active[row.symbol].hour == hour(row.ns)
    {
      if row.ns <= 0 || row.symbol == 0 { return false; }
      var s := row.symbol;
      if s in active && (active[s].hour != hour(row.ns) || active[s].bytes + row.bytes > maxBytes) {
        CloseSegment(s);
      }
      WriteRow(row);
      ok := true;
    }

    /** Close every segment whose hour has passed. */
    method RollIdle(nowNs: int)
      requires Valid()
      modifies this
      ensures Valid() && written == old(written)
      ensures forall s :: s in active <==> s in old(active) && old(active)[s].hour >= hour(nowNs)
    {
      var todo := active.Keys;
      while todo != {}
        invariant Valid() && written == old(written)
        invariant todo <= active.Keys
        invariant forall s :: s in active ==> s in old(active) && active[s] == old(active)[s]
        invariant forall s :: s in old(active) && (s in todo || old(active)[s].hour >= hour(nowNs)) ==> s in active
        invariant forall s :: s in active && s !in todo ==> active[s].hour >= hour(nowNs)
        decreases |todo|
      {
        var s :| s in todo;
        todo := todo - {s};
        if active[s].hour < hour(nowNs) { CloseSegment(s); }
      }
    }

    /** Shutdown: every row is in a closed segment of its hour and symbol. */
    method CloseAll()
      requires Valid()
      modifies this
      ensures Valid() && written == old(written) && active == map[]
      ensures Holds(files, written, hour)
    {
      while active != map[]
        invariant Valid() && written == old(written)
        decreases |active|
      {
        var s :| s in active;
        CloseSegment(s);
      }
      forall k: Key
        ensures Flat(Closed(files, k)) == InHour(written, hour, k)
      {
        assert Flat(Closed(files, k)) + Open(k) == InHour(written, hour, k);
        assert Flat(Closed(files, k)) + [] == Flat(Closed(files, k));
      }
    }
  }

  /** Closed segments that hold exactly `rows`. */
  ghost predicate Holds(files: Files, rows: seq<Row>, hour: int -> int) {
    forall k: Key {:trigger InHour(rows, hour, k)} {:trigger Closed(files, k)} ::
      Flat(Closed(files, k)) == InHour(rows, hour, k)
  }

  // ----------------------------------------------------------------- replay

  ghost predicate Rising(xs: seq<int>) {
    forall i, j :: 0 <= i < j < |xs| ==> xs[i] < xs[j]
  }

  ghost predicate Monotone(hour: int -> int) {
    forall a, b :: a <= b ==> hour(a) <= hour(b)
  }

  /** The rows of the asked hours and symbols, as they were written. */
  function Selected(rows: seq<Row>, hour: int -> int, hours: seq<int>, symbols: seq<nat>): seq<Row> {
    if rows == [] then []
    else
      var last := rows[|rows| - 1];
      Selected(rows[..|rows| - 1], hour, hours, symbols)
      + (if hour(last.ns) in hours && last.symbol in symbols then [last] else [])
  }

  lemma {:induction false} SelectedRows(rows: seq<Row>, hour: int -> int, hours: seq<int>, symbols: seq<nat>)
    ensures forall r :: r in Selected(rows, hour, hours, symbols) <==>
              r in rows && hour(r.ns) in hours && r.symbol in symbols
  {
    if rows != [] {
      var n := |rows| - 1;
      SelectedRows(rows[..n], hour, hours, symbols);
      assert rows == rows[..n] + [rows[n]];
    }
  }

  lemma {:induction false} SelectedTimeOrdered(rows: seq<Row>, hour: int -> int, hours: seq<int>, symbols: seq<nat>)
    requires TimeOrdered(rows)
    ensures TimeOrdered(Selected(rows, hour, hours, symbols))
  {
    if rows != [] {
      var n := |rows| - 1;
      SelectedTimeOrdered(rows[..n], hour, hours, symbols);
      SelectedRows(rows[..n], hour, hours, symbols);
      var init := Selected(rows[..n], hour, hours, symbols);
      forall i | 0 <= i < |init|
        ensures init[i].ns <= rows[n].ns
      {
        assert init[i] in rows[..n];
        var k :| 0 <= k < n && rows[..n][k] == init[i];
        assert rows[k].ns <= rows[n].ns;
      }
    }
  }

  /** Asking for every hour and symbol there is selects everything. */
  lemma {:induction false} SelectedAll(rows: seq<Row>, hour: int -> int, hours: seq<int>, symbols: seq<nat>)
    requires forall i :: 0 <= i < |rows| ==> hour(rows[i].ns) in hours && rows[i].symbol in symbols
    ensures Selected(rows, hour, hours, symbols) == rows
  {
    if rows != [] {
      var n := |rows| - 1;
      assert forall i :: 0 <= i < n ==> rows[..n][i] == rows[i];
      SelectedAll(rows[..n], hour, hours, symbols);
      assert hour(rows[n].ns) in hours && rows[n].symbol in symbols;
      assert rows == rows[..n] + [rows[n]];
    }
  }

  lemma SelectedStep(rows: seq<Row>, hour: int -> int, hours: seq<int>, symbols: seq<nat>, s: nat)
    requires rows != []
    ensures OfSymbol(Selected(rows, hour, hours, symbols), s)
         == OfSymbol(Selected(rows[..|rows| - 1], hour, hours, symbols), s)
            + (var last := rows[|rows| - 1];
               if last.symbol == s && hour(last.ns) in hours && s in symbols then [last] else [])
  {
    var n := |rows| - 1;
    var init := Selected(rows[..n], hour, hours, symbols);
    OfSymbolApart(init, [rows[n]], s);
    assert [rows[n]][..0] == [];
    assert init + [] == init;
  }

  lemma {:induction false} NotYet(rows: seq<Row>, hour: int -> int, k: Key)
    requires forall i :: 0 <= i < |rows| ==> hour(rows[i].ns) != k.hour
    ensures InHour(rows, hour, k) == []
  {
    if rows != [] { NotYet(rows[..|rows| - 1], hour, k); }
  }

  /** `more` asks for the hours of `hours` and a later one, `h`. */
  ghost predicate AndLater(hours: seq<int>, h: int, more: seq<int>) {
    && (forall x :: x in hours ==> x < h)
    && (forall x :: x in more <==> x in hours || x == h)
  }

  /** One more hour asked for adds that hour's rows at the end of each symbol's stream. */
  lemma {:induction false} OneMoreHour(rows: seq<Row>, hour: int -> int, hours: seq<int>, h: int, more: seq<int>,
                                       symbols: seq<nat>, s: nat)
    requires TimeOrdered(rows) && Monotone(hour) && AndLater(hours, h, more) && s in symbols
    ensures OfSymbol(Selected(rows, hour, more, symbols), s)
         == OfSymbol(Selected(rows, hour, hours, symbols), s) + InHour(rows, hour, Key(h, s))
  {
    if rows != [] {
      var n := |rows| - 1;
      OneMoreHour(rows[..n], hour, hours, h, more, symbols, s);
      if hour(rows[n].ns) == h {
        RowOfThatHour(rows, hour, hours, h, more, symbols, s);
      } else {
        if hour(rows[n].ns) < h { EarlierHour(rows, hour, Key(h, s)); }
        RowOfAnotherHour(rows, hour, hours, h, more, symbols, s);
      }
    }
  }

  lemma RowOfThatHour(rows: seq<Row>, hour: int -> int, hours: seq<int>, h: int, more: seq<int>, symbols: seq<nat>,
                      s: nat)
    requires rows != [] && AndLater(hours, h, more) && s in symbols && hour(rows[|rows| - 1].ns) == h
    requires OfSymbol(Selected(rows[..|rows| - 1], hour, more, symbols), s)
          == OfSymbol(Selected(rows[..|rows| - 1], hour, hours, symbols), s)
            + InHour(rows[..|rows| - 1], hour, Key(h, s))
    ensures OfSymbol(Selected(rows, hour, more, symbols), s)
         == OfSymbol(Selected(rows, hour, hours, symbols), s) + InHour(rows, hour, Key(h, s))
  {
    SelectedStep(rows, hour, more, symbols, s);
    SelectedStep(rows, hour, hours, symbols, s);
  }

  lemma RowOfAnotherHour(rows: seq<Row>, hour: int -> int, hours: seq<int>, h: int, more: seq<int>, symbols: seq<nat>,
                         s: nat)
    requires rows != [] && AndLater(hours, h, more) && s in symbols && hour(rows[|rows| - 1].ns) != h
    requires hour(rows[|rows| - 1].ns) < h ==> InHour(rows[..|rows| - 1], hour, Key(h, s)) == []
    requires OfSymbol(Selected(rows[..|rows| - 1], hour, more, symbols), s)
          == OfSymbol(Selected(rows[..|rows| - 1], hour, hours, symbols), s)
            + InHour(rows[..|rows| - 1], hour, Key(h, s))
    ensures OfSymbol(Selected(rows, hour, more, symbols), s)
         == OfSymbol(Selected(rows, hour, hours, symbols), s) + InHour(rows, hour, Key(h, s))
  {
    var last := rows[|rows| - 1];
    SelectedStep(rows, hour, more, symbols, s);
    SelectedStep(rows, hour, hours, symbols, s);
    assert hour(last.ns) in more <==> hour(last.ns) in hours;
    assert hour(last.ns) in hours ==> hour(last.ns) < h;
    Glue(OfSymbol(Selected(rows[..|rows| - 1], hour, hours, symbols), s), InHour(rows[..|rows| - 1], hour, Key(h, s)),
         if last.symbol == s && hour(last.ns) in hours then [last] else []);
  }

  /** What is appended passes an empty end. */
  lemma Glue(a: seq<Row>, b: seq<Row>, c: seq<Row>)
    requires b == [] || c == []
    ensures (a + b) + c == (a + c) + b
  {
  }

  lemma LaterHour(hours: seq<int>, h: int)
    requires Rising(hours + [h])
    ensures AndLater(hours, h, hours + [h])
  {
    forall x | x in hours
      ensures x < h
    {
      var i :| 0 <= i < |hours| && hours[i] == x;
      assert (hours + [h])[i] < (hours + [h])[|hours|];
    }
  }

  lemma EarlierHour(rows: seq<Row>, hour: int -> int, k: Key)
    requires TimeOrdered(rows) && Monotone(hour) && rows != [] && hour(rows[|rows| - 1].ns) < k.hour
    ensures InHour(rows[..|rows| - 1], hour, k) == []
  {
    var n := |rows| - 1;
    forall i | 0 <= i < n
      ensures hour(rows[i].ns) != k.hour
    {
      assert rows[i].ns <= rows[n].ns;
    }
    NotYet(rows[..n], hour, k);
  }

  lemma {:induction false} OtherSymbol(rows: seq<Row>, hour: int -> int, hours: seq<int>, symbols: seq<nat>, s: nat)
    requires s !in symbols
    ensures OfSymbol(Selected(rows, hour, hours, symbols), s) == []
  {
    if rows != [] {
      OtherSymbol(rows[..|rows| - 1], hour, hours, symbols, s);
      SelectedStep(rows, hour, hours, symbols, s);
    }
  }

  lemma {:induction false} NoHours(rows: seq<Row>, hour: int -> int, symbols: seq<nat>)
    ensures Selected(rows, hour, [], symbols) == []
  {
    if rows != [] { NoHours(rows[..|rows| - 1], hour, symbols); }
  }

  /** One stream per symbol, in symbol order. */
  ghost predicate Streams(streams: seq<seq<Row>>, symbols: seq<nat>) {
    && |streams| == |symbols| && Rising(symbols)
    && (forall i :: 0 <= i < |streams| ==> TimeOrdered(streams[i]))
    && (forall i, j :: 0 <= i < |streams| && 0 <= j < |streams[i]| ==> streams[i][j].symbol == symbols[i])
  }

  ghost predicate Positions(streams: seq<seq<Row>>, at: seq<nat>) {
    |at| == |streams| && forall i :: 0 <= i < |at| ==> at[i] <= |streams[i]|
  }

  /** The stream whose next row is earliest, the first of them on a tie. */
  method Earliest(streams: seq<seq<Row>>, at: seq<nat>) returns (best: int)
    requires Positions(streams, at)
    ensures -1 <= best < |streams|
    ensures best == -1 ==> forall i :: 0 <= i < |streams| ==> at[i] == |streams[i]|
    ensures best >= 0 ==> at[best] < |streams[best]|
    ensures best >= 0 ==> forall i :: 0 <= i < |streams| && at[i] < |streams[i]| ==>
              streams[best][at[best]].ns < streams[i][at[i]].ns
                || (streams[best][at[best]].ns == streams[i][at[i]].ns && best <= i)
  {
    best := -1;
    for i := 0 to |streams|
      invariant -1 <= best < i
      invariant best == -1 ==> forall j :: 0 <= j < i ==> at[j] == |streams[j]|
      invariant best >= 0 ==> at[best] < |streams[best]|
      invariant best >= 0 ==> forall j :: 0 <= j < i && at[j] < |streams[j]| ==>
                  streams[best][at[best]].ns < streams[j][at[j]].ns
                    || (streams[best][at[best]].ns == streams[j][at[j]].ns && best <= j)
    {
      if at[i] < |streams[i]| && (best == -1 || streams[i][at[i]].ns < streams[best][at[best]].ns) {
        best := i;
      }
    }
  }

  function Left(streams: seq<seq<Row>>, at: seq<nat>): nat
    requires |at| == |streams| && forall i :: 0 <= i < |at| ==> at[i] <= |streams[i]|
  {
    if streams == [] then 0
    else Left(streams[..|streams| - 1], at[..|at| - 1]) + (|streams[|streams| - 1]| - at[|at| - 1])
  }

  lemma {:induction false} TakeOne(streams: seq<seq<Row>>, at: seq<nat>, k: nat)
    requires Positions(streams, at) && k < |at| && at[k] < |streams[k]|
    ensures Positions(streams, at[k := at[k] + 1])
    ensures Left(streams, at[k := at[k] + 1]) == Left(streams, at) - 1
  {
    var n := |at| - 1;
    if k < n {
      TakeOne(streams[..n], at[..n], k);
      assert at[k := at[k] + 1][..n] == at[..n][k := at[k] + 1];
    } else {
      assert at[k := at[k] + 1][..n] == at[..n];
    }
  }

  /** What has been merged: each symbol's rows so far, in order, before everything still to come. */
  ghost predicate Merged(streams: seq<seq<Row>>, symbols: seq<nat>, at: seq<nat>, out: seq<Row>)
    requires Streams(streams, symbols)
  {
    && Positions(streams, at)
    && InOrder(out)
    && (forall i :: 0 <= i < |streams| ==> OfSymbol(out, symbols[i]) == streams[i][..at[i]])
    && (forall s :: s !in symbols ==> OfSymbol(out, s) == [])
    && (forall r, i :: r in out && 0 <= i < |streams| && at[i] < |streams[i]| ==> Precedes(r, streams[i][at[i]]))
    && (forall r :: r in out ==> exists i :: 0 <= i < |streams| && r in streams[i])
  }

  /** The stream whose next row comes next. */
  ghost predicate Next(streams: seq<seq<Row>>, at: seq<nat>, k: nat)
    requires Positions(streams, at)
  {
    && k < |streams| && at[k] < |streams[k]|
    && forall i :: 0 <= i < |streams| && at[i] < |streams[i]| ==>
         streams[k][at[k]].ns < streams[i][at[i]].ns || (streams[k][at[k]].ns == streams[i][at[i]].ns && k <= i)
  }

  lemma MergeStreams(streams: seq<seq<Row>>, symbols: seq<nat>, at: seq<nat>, out: seq<Row>, k: nat)
    requires Streams(streams, symbols) && Merged(streams, symbols, at, out) && k < |streams| && at[k] < |streams[k]|
    ensures var next, more := at[k := at[k] + 1], out + [streams[k][at[k]]];
            && (forall i :: 0 <= i < |streams| ==> OfSymbol(more, symbols[i]) == streams[i][..next[i]])
            && (forall s :: s !in symbols ==> OfSymbol(more, s) == [])
  {
    var row := streams[k][at[k]];
    assert (out + [row])[..|out|] == out && row.symbol == symbols[k];
    forall i | 0 <= i < |streams| && i != k ensures symbols[i] != symbols[k] { }
    assert streams[k][..at[k] + 1] == streams[k][..at[k]] + [row];
  }

  lemma MergeAhead(streams: seq<seq<Row>>, symbols: seq<nat>, at: seq<nat>, out: seq<Row>, k: nat, r: Row, i: nat)
    requires Streams(streams, symbols) && Merged(streams, symbols, at, out) && Next(streams, at, k)
    requires r in out || r == streams[k][at[k]]
    requires i < |streams| && at[k := at[k] + 1][i] < |streams[i]|
    ensures Precedes(r, streams[i][at[k := at[k] + 1][i]])
  {
    var row := streams[k][at[k]];
    assert row.symbol == symbols[k] && streams[i][at[k := at[k] + 1][i]].symbol == symbols[i];
    if i == k {
      assert TimeOrdered(streams[k]);
      assert row.ns <= streams[k][at[k] + 1].ns;
      if r in out { assert Precedes(r, row); }
    } else {
      assert k < i ==> symbols[k] < symbols[i];
      if r in out { assert Precedes(r, streams[i][at[i]]); }
    }
  }

  lemma MergeOne(streams: seq<seq<Row>>, symbols: seq<nat>, at: seq<nat>, out: seq<Row>, k: nat)
    requires Streams(streams, symbols) && Merged(streams, symbols, at, out) && Next(streams, at, k)
    ensures Merged(streams, symbols, at[k := at[k] + 1], out + [streams[k][at[k]]])
  {
    var row, next := streams[k][at[k]], at[k := at[k] + 1];
    var more := out + [row];
    assert forall i :: 0 <= i < |out| ==> out[i] in out;
    assert row in streams[k];
    MergeStreams(streams, symbols, at, out, k);
    forall r, i | r in more && 0 <= i < |streams| && next[i] < |streams[i]|
      ensures Precedes(r, streams[i][next[i]])
    {
      MergeAhead(streams, symbols, at, out, k, r, i);
    }
  }

  /** The k-way merge: ties go to the earlier stream. */
  method Merge(streams: seq<seq<Row>>, symbols: seq<nat>) returns (out: seq<Row>)
    requires Streams(streams, symbols)
    ensures InOrder(out)
    ensures forall i :: 0 <= i < |streams| ==> OfSymbol(out, symbols[i]) == streams[i]
    ensures forall s :: s !in symbols ==> OfSymbol(out, s) == []
    ensures forall r :: r in out ==> exists i :: 0 <= i < |streams| && r in streams[i]
  {
    out := [];
    var at: seq<nat> := seq(|streams|, _ => 0);
    var best := Earliest(streams, at);
    while best >= 0
      invariant Merged(streams, symbols, at, out)
      invariant -1 <= best < |streams|
      invariant best == -1 ==> forall i :: 0 <= i < |streams| ==> at[i] == |streams[i]|
      invariant best >= 0 ==> Next(streams, at, best)
      decreases Left(streams, at), best
    {
      MergeOne(streams, symbols, at, out, best);
      TakeOne(streams, at, best);
      out := out + [streams[best][at[best]]];
      at := at[best := at[best] + 1];
      best := Earliest(streams, at);
    }
  }

  lemma {:induction false} InHourRows(rows: seq<Row>, hour: int -> int, k: Key)
    requires TimeOrdered(rows)
    ensures TimeOrdered(InHour(rows, hour, k))
    ensures forall r :: r in InHour(rows, hour, k) ==> r in rows && hour(r.ns) == k.hour && r.symbol == k.symbol
  {
    if rows != [] {
      var n := |rows| - 1;
      InHourRows(rows[..n], hour, k);
      var init := InHour(rows[..n], hour, k);
      forall i | 0 <= i < |init|
        ensures init[i].ns <= rows[n].ns
      {
        assert init[i] in rows[..n];
        var j :| 0 <= j < n && rows[..n][j] == init[i];
        assert rows[j].ns <= rows[n].ns;
      }
    }
  }

  /** Replay so far: the asked hours' rows, in order. */
  ghost predicate Replayed(rows: seq<Row>, hour: int -> int, hours: seq<int>, symbols: seq<nat>, out: seq<Row>) {
    && InOrder(out)
    && (forall r :: r in out ==> hour(r.ns) in hours)
    && SameStreams(out, Selected(rows, hour, hours, symbols))
  }

  lemma HourReplayed(rows: seq<Row>, hour: int -> int, hours: seq<int>, h: int, symbols: seq<nat>, out: seq<Row>,
                     part: seq<Row>)
    requires TimeOrdered(rows) && Monotone(hour) && Rising(hours + [h])
    requires Replayed(rows, hour, hours, symbols, out)
    requires InOrder(part) && (forall r: Row :: r in part ==> hour(r.ns) == h)
    requires forall s :: OfSymbol(part, s) == if s in symbols then InHour(rows, hour, Key(h, s)) else []
    ensures Replayed(rows, hour, hours + [h], symbols, out + part)
  {
    LaterHour(hours, h);
    forall i, j | 0 <= i < |out| && 0 <= j < |part|
      ensures Precedes(out[i], part[j])
    {
      assert out[i] in out && part[j] in part;
      assert hour(out[i].ns) < hour(part[j].ns);
    }
    forall s
      ensures OfSymbol(out + part, s) == OfSymbol(Selected(rows, hour, hours + [h], symbols), s)
    {
      OfSymbolApart(out, part, s);
      assert OfSymbol(out, s) == OfSymbol(Selected(rows, hour, hours, symbols), s);
      if s in symbols {
        OneMoreHour(rows, hour, hours, h, hours + [h], symbols, s);
      } else {
        OtherSymbol(rows, hour, hours, symbols, s);
        OtherSymbol(rows, hour, hours + [h], symbols, s);
      }
    }
  }

  /** One hour of closed segments, merged. */
  method MergeHour(files: Files, h: int, symbols: seq<nat>, ghost rows: seq<Row>, ghost hour: int -> int)
    returns (part: seq<Row>)
    requires Rising(symbols) && TimeOrdered(rows) && Holds(files, rows, hour)
    ensures InOrder(part) && (forall r: Row :: r in part ==> hour(r.ns) == h)
    ensures forall s :: OfSymbol(part, s) == if s in symbols then InHour(rows, hour, Key(h, s)) else []
  {
    var streams := seq(|symbols|, i requires 0 <= i < |symbols| => Flat(Closed(files, Key(h, symbols[i]))));
    forall i | 0 <= i < |symbols|
      ensures streams[i] == InHour(rows, hour, Key(h, symbols[i])) && TimeOrdered(streams[i])
      ensures forall r: Row :: r in streams[i] ==> hour(r.ns) == h && r.symbol == symbols[i]
    {
      assert Flat(Closed(files, Key(h, symbols[i]))) == InHour(rows, hour, Key(h, symbols[i]));
      InHourRows(rows, hour, Key(h, symbols[i]));
    }
    assert forall i, j :: 0 <= i < |streams| && 0 <= j < |streams[i]| ==> streams[i][j] in streams[i];
    part := Merge(streams, symbols);
  }

  /** Replaying hours and symbols of files that hold a time-ordered stream gives exactly their rows, stably
      sorted by receive time and then symbol. */
  method IterRows(files: Files, hours: seq<int>, symbols: seq<nat>, ghost rows: seq<Row>, ghost hour: int -> int)
    returns (out: seq<Row>)
    requires Rising(symbols) && Rising(hours) && Monotone(hour)
    requires TimeOrdered(rows) && Holds(files, rows, hour)
    ensures out == StableSort(Selected(rows, hour, hours, symbols))
  {
    out := ReplayHours(files, hours, symbols, rows, hour);
    var wanted := Selected(rows, hour, hours, symbols);
    SelectedTimeOrdered(rows, hour, hours, symbols);
    StableSortSorts(wanted);
    OrderIsUnique(out, StableSort(wanted));
  }

  /** The hours one after the other. */
  method ReplayHours(files: Files, hours: seq<int>, symbols: seq<nat>, ghost rows: seq<Row>, ghost hour: int -> int)
    returns (out: seq<Row>)
    requires Rising(symbols) && Rising(hours) && Monotone(hour)
    requires TimeOrdered(rows) && Holds(files, rows, hour)
    ensures Replayed(rows, hour, hours, symbols, out)
  {
    out := [];
    NoHours(rows, hour, symbols);
    for i := 0 to |hours|
      invariant Replayed(rows, hour, hours[..i], symbols, out)
    {
      var part := MergeHour(files, hours[i], symbols, rows, hour);
      assert hours[..i + 1] == hours[..i] + [hours[i]];
      HourReplayed(rows, hour, hours[..i], hours[i], symbols, out, part);
      out := out + part;
    }
    assert hours[..|hours|] == hours;
  }

  // ---------------------------------------------------------------- there and back

  /** What a recorder asks of the writer: a row, or closing the hours that have passed. */
  datatype Request = Put(row: Row) | Roll(nowNs: int)

  /** The rows the writer accepts: those with a receive time and a symbol. */
  function Accepted(requests: seq<Request>): seq<Row> {
    if requests == [] then []
    else
      var n := |requests| - 1;
      var r := requests[n];
      Accepted(requests[..n]) + (if r.Put? && r.row.ns > 0 && r.row.symbol != 0 then [r.row] else [])
  }

  /** A whole session of the writer, whatever its size cap and sync limit: every accepted row is in the files of its
      hour and symbol, in order, and no other is. */
  method WriteTape(requests: seq<Request>, maxBytes: nat, fsyncEvery: nat, hour: int -> int) returns (files: Files)
    ensures Holds(files, Accepted(requests), hour)
    ensures forall k, i :: k in files && 0 <= i < |files[k]| ==> files[k][i] != [] && Capped(files[k][i], maxBytes)
  {
    var writer := new SegmentWriter(maxBytes, fsyncEvery, hour);
    for i := 0 to |requests|
      invariant fresh(writer) && writer.Valid() && writer.hour == hour && writer.maxBytes == maxBytes
      invariant writer.written == Accepted(requests[..i])
    {
      assert requests[..i + 1][..i] == requests[..i];
      if requests[i].Put? {
        var ok := writer.Append(requests[i].row);
      } else {
        writer.RollIdle(requests[i].nowNs);
      }
    }
    assert requests[..|requests|] == requests;
    writer.CloseAll();
    files := writer.files;
  }

  /** Writing a stream and replaying any hours and symbols of it gives exactly their rows in replay order; asking
      for all there are gives the whole stream, nothing lost and nothing twice. */
  method WriteThenRead(requests: seq<Request>, maxBytes: nat, fsyncEvery: nat, hour: int -> int, hours: seq<int>,
                       symbols: seq<nat>)
    returns (out: seq<Row>)
    requires Rising(symbols) && Rising(hours) && Monotone(hour) && TimeOrdered(Accepted(requests))
    ensures out == StableSort(Selected(Accepted(requests), hour, hours, symbols))
    ensures (forall r :: r in Accepted(requests) ==> hour(r.ns) in hours && r.symbol in symbols) ==>
              out == StableSort(Accepted(requests))
  {
    var files := WriteTape(requests, maxBytes, fsyncEvery, hour);
    ghost var rows := Accepted(requests);
    out := IterRows(files, hours, symbols, rows, hour);
    if forall r :: r in rows ==> hour(r.ns) in hours && r.symbol in symbols {
      assert forall i :: 0 <= i < |rows| ==> rows[i] in rows;
      SelectedAll(rows, hour, hours, symbols);
    }
  }
}
