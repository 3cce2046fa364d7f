/** Hourly bars from a file of public trades in any order (liquidity_migration/data/archive.py): the
    one-pass reader against the form that sorts by time and file row, groups and aggregates. Sums are
    taken over the reals. */
module HourlyBars {
  import opened Options

  datatype Symbol = Symbol(name: string)

  /** `row` is the trade's place in the file. */
  datatype Trade = Trade(ts: int, row: nat, symbol: Symbol, price: real, size: real)

  datatype Key = Key(hour: int, symbol: Symbol)

  datatype Bar = Bar(open: real, high: real, low: real, close: real, volume: real, turnover: real)

  const MS_PER_HOUR := 3_600_000

  function KeyOf(t: Trade): Key { Key(t.ts / MS_PER_HOUR * MS_PER_HOUR, t.symbol) }

  predicate ValidNumbers(t: Trade) { t.ts >= 0 && t.price > 0.0 && t.size > 0.0 }

  predicate Accepted(t: Trade, expected: Option<Symbol>) {
    ValidNumbers(t) && (expected.Some? ==> t.symbol == expected.value)
  }

  // ------------------------------------------------------- sort, group, aggregate

  /** In the order of the sorted form: by time, then by file row. */
  predicate NotAfter(a: Trade, b: Trade) { a.ts < b.ts || (a.ts == b.ts && a.row <= b.row) }

  ghost predicate InTimeOrder(s: seq<Trade>) {
    forall i, j {:trigger NotAfter(s[i], s[j])} :: 0 <= i < j < |s| ==> NotAfter(s[i], s[j])
  }

  function Insert(s: seq<Trade>, t: Trade): seq<Trade> {
    if s == [] || NotAfter(s[|s| - 1], t) then s + [t] else Insert(s[..|s| - 1], t) + [s[|s| - 1]]
  }

  function SortByTime(s: seq<Trade>): seq<Trade> {
    if s == [] then [] else Insert(SortByTime(s[..|s| - 1]), s[|s| - 1])
  }

  lemma {:induction false} InsertSorts(s: seq<Trade>, t: Trade)
    requires InTimeOrder(s)
    ensures InTimeOrder(Insert(s, t)) && multiset(Insert(s, t)) == multiset(s) + multiset{t}
  {
    if s != [] {
      var n := |s| - 1;
      assert s == s[..n] + [s[n]];
      if NotAfter(s[n], t) {
        forall i | 0 <= i < n ensures NotAfter(s[i], t) { assert NotAfter(s[i], s[n]); }
      } else {
        InsertSorts(s[..n], t);
        var u := Insert(s[..n], t);
        forall i | 0 <= i < |u| ensures NotAfter(u[i], s[n]) {
          assert u[i] in multiset(u);
          assert u[i] == t || u[i] in s[..n];
        }
      }
    }
  }

  /** The sorted form is a sorted permutation of the trades. */
  lemma {:induction false} SortSorts(s: seq<Trade>)
    ensures InTimeOrder(SortByTime(s)) && multiset(SortByTime(s)) == multiset(s)
  {
    if s != [] {
      var n := |s| - 1;
      SortSorts(s[..n]);
      InsertSorts(SortByTime(s[..n]), s[n]);
      assert s == s[..n] + [s[n]];
    }
  }

  function High(s: seq<Trade>): real
    requires s != []
  {
    if |s| == 1 then s[0].price
    else
      var rest := High(s[..|s| - 1]);
      if s[|s| - 1].price > rest then s[|s| - 1].price else rest
  }

  function Low(s: seq<Trade>): real
    requires s != []
  {
    if |s| == 1 then s[0].price
    else
      var rest := Low(s[..|s| - 1]);
      if s[|s| - 1].price < rest then s[|s| - 1].price else rest
  }

  function Volume(s: seq<Trade>): real { if s == [] then 0.0 else Volume(s[..|s| - 1]) + s[|s| - 1].size }

  function Quote(t: Trade): real { t.price * t.size }

  function Turnover(s: seq<Trade>): real { if s == [] then 0.0 else Turnover(s[..|s| - 1]) + Quote(s[|s| - 1]) }

  /** First, highest, lowest and last price, and the sums. */
  function Aggregate(s: seq<Trade>): Bar
    requires s != []
  {
    Bar(s[0].price, High(s), Low(s), s[|s| - 1].price, Volume(s), Turnover(s))
  }

  function Group(s: seq<Trade>, k: Key): seq<Trade> {
    if s == [] then [] else Group(s[..|s| - 1], k) + (if KeyOf(s[|s| - 1]) == k then [s[|s| - 1]] else [])
  }

  // -------------------------------------------------------------------- one pass

  /** A bar with the times of the trades that gave its open and its close. */
  datatype Entry = Entry(bar: Bar, openTs: int, closeTs: int)

  function Start(t: Trade): Entry {
    Entry(Bar(t.price, t.price, t.price, t.price, t.size, Quote(t)), t.ts, t.ts)
  }

  function Max(a: real, b: real): real { if b > a then b else a }

  function Min(a: real, b: real): real { if b < a then b else a }

  function Add(e: Entry, t: Trade): Entry {
    var earlier, later := t.ts < e.openTs, t.ts >= e.closeTs;
    Entry(Bar(if earlier then t.price else e.bar.open, Max(e.bar.high, t.price), Min(e.bar.low, t.price),
              if later then t.price else e.bar.close, e.bar.volume + t.size, e.bar.turnover + Quote(t)),
          if earlier then t.ts else e.openTs, if later then t.ts else e.closeTs)
  }

  function EntryOf(s: seq<Trade>): Entry
    requires s != []
  {
    Entry(Aggregate(s), s[0].ts, s[|s| - 1].ts)
  }

  /** The pass has seen the trades of one bar: its entry is what the sorted form would give. */
  ghost predicate Matches(e: Entry, group: seq<Trade>) {
    group != [] && SortByTime(group) != [] && e == EntryOf(SortByTime(group))
  }

  ghost predicate Before(group: seq<Trade>, row: nat) { forall i :: 0 <= i < |group| ==> group[i].row < row }

  lemma AppendPrices(s: seq<Trade>, t: Trade)
    requires s != []
    ensures High(s + [t]) == Max(High(s), t.price) && Low(s + [t]) == Min(Low(s), t.price)
  {
    assert (s + [t])[..|s|] == s;
  }

  lemma AppendSums(s: seq<Trade>, t: Trade)
    ensures Volume(s + [t]) == Volume(s) + t.size && Turnover(s + [t]) == Turnover(s) + Quote(t)
  {
    assert (s + [t])[..|s|] == s;
  }

  lemma MaxInOrder(a: real, b: real, c: real)
    ensures Max(Max(a, b), c) == Max(Max(a, c), b) && Min(Min(a, b), c) == Min(Min(a, c), b)
    ensures Max(a, b) == Max(b, a) && Min(a, b) == Min(b, a)
  {
  }

  /** Inserting changes the aggregates as the pass does, wherever the trade falls. */
  lemma {:induction false} InsertPrices(s: seq<Trade>, t: Trade)
    requires s != []
    ensures Insert(s, t) != [] && High(Insert(s, t)) == Max(High(s), t.price)
            && Low(Insert(s, t)) == Min(Low(s), t.price)
  {
    var n := |s| - 1;
    var last, rest := s[n], s[..n];
    if NotAfter(last, t) {
      AppendPrices(s, t);
    } else {
      assert Insert(s, t) == Insert(rest, t) + [last];
      if n == 0 {
        assert Insert(rest, t) == [t];
        AppendPrices([t], last);
        MaxInOrder(last.price, t.price, t.price);
      } else {
        InsertPrices(rest, t);
        AppendPrices(Insert(rest, t), last);
        assert High(s) == Max(High(rest), last.price) && Low(s) == Min(Low(rest), last.price);
        MaxInOrder(High(rest), last.price, t.price);
        MaxInOrder(Low(rest), last.price, t.price);
      }
    }
  }

  lemma {:induction false} InsertSums(s: seq<Trade>, t: Trade)
    ensures Volume(Insert(s, t)) == Volume(s) + t.size && Turnover(Insert(s, t)) == Turnover(s) + Quote(t)
  {
    if s == [] || NotAfter(s[|s| - 1], t) {
      AppendSums(s, t);
    } else {
      var n := |s| - 1;
      InsertSums(s[..n], t);
      AppendSums(Insert(s[..n], t), s[n]);
    }
  }

  /** A trade later in the file takes the open only if strictly earlier in time, the close if not earlier. */
  lemma {:induction false} InsertEnds(s: seq<Trade>, t: Trade)
    requires s != [] && InTimeOrder(s) && Before(s, t.row)
    ensures var u := Insert(s, t);
            u != [] && u[0] == (if t.ts < s[0].ts then t else s[0])
              && u[|u| - 1] == (if t.ts >= s[|s| - 1].ts then t else s[|s| - 1])
  {
    var n := |s| - 1;
    assert n > 0 ==> NotAfter(s[0], s[n]);
    if !NotAfter(s[n], t) && n > 0 {
      InsertEnds(s[..n], t);
    }
  }

  lemma BeforeSorted(group: seq<Trade>, row: nat)
    requires Before(group, row)
    ensures Before(SortByTime(group), row)
  {
    SortSorts(group);
    var s := SortByTime(group);
    forall i | 0 <= i < |s| ensures s[i].row < row {
      assert s[i] in multiset(s);
      assert s[i] in group;
    }
  }

  lemma InsertEntry(s: seq<Trade>, t: Trade)
    requires s != [] && InTimeOrder(s) && Before(s, t.row)
    ensures Insert(s, t) != [] && Add(EntryOf(s), t) == EntryOf(Insert(s, t))
  {
    InsertPrices(s, t);
    InsertSums(s, t);
    InsertEnds(s, t);
  }

  /** One more trade in one pass, against sorting all of them again. */
  lemma AddMatches(e: Entry, group: seq<Trade>, t: Trade)
    requires Matches(e, group) && Before(group, t.row)
    ensures Matches(Add(e, t), group + [t])
  {
    assert (group + [t])[..|group|] == group;
    assert SortByTime(group + [t]) == Insert(SortByTime(group), t);
    SortSorts(group);
    BeforeSorted(group, t.row);
    InsertEntry(SortByTime(group), t);
  }

  lemma StartMatches(t: Trade)
    ensures Matches(Start(t), [t])
  {
    assert [t][..0] == [];
    assert SortByTime([t][..0]) == [];
    assert SortByTime([t]) == [t];
    assert Volume([t]) == Volume([t][..0]) + t.size;
    assert Turnover([t]) == Turnover([t][..0]) + Quote(t);
  }

  // ----------------------------------------------------------------------- the reader

  /** After the trades so far, there is an entry for exactly the bars that have trades, and it matches. */
  ghost predicate Reading(trades: seq<Trade>, bars: map<Key, Entry>) {
    forall k :: if k in bars then Matches(bars[k], Group(trades, k)) else Group(trades, k) == []
  }

  lemma {:induction false} GroupBefore(trades: seq<Trade>, k: Key, row: nat)
    requires Before(trades, row)
    ensures Before(Group(trades, k), row)
  {
    if trades != [] { GroupBefore(trades[..|trades| - 1], k, row); }
  }

  lemma ReadOne(trades: seq<Trade>, bars: map<Key, Entry>, t: Trade)
    requires Reading(trades, bars) && Before(trades, t.row)
    ensures var k := KeyOf(t); Reading(trades + [t], bars[k := if k in bars then Add(bars[k], t) else Start(t)])
  {
    var k0 := KeyOf(t);
    var after := bars[k0 := if k0 in bars then Add(bars[k0], t) else Start(t)];
    assert (trades + [t])[..|trades|] == trades;
    forall k ensures if k in after then Matches(after[k], Group(trades + [t], k)) else Group(trades + [t], k) == [] {
      if k == k0 {
        GroupBefore(trades, k, t.row);
        assert Group(trades + [t], k) == Group(trades, k) + [t];
        if k in bars {
          AddMatches(bars[k], Group(trades, k), t);
        } else {
          assert Group(trades + [t], k) == [t];
          StartMatches(t);
        }
      } else {
        assert Group(trades + [t], k) == Group(trades, k);
      }
    }
  }

  datatype Outcome = Rejected | Bars(bars: map<Key, Entry>)

  /** One pass over the file. A row that is not a valid trade, or of another symbol than asked for, sends
      the whole file to the fallback; otherwise each bar is the one sorting and grouping gives. */
  method ReadKlines(trades: seq<Trade>, expected: Option<Symbol>) returns (r: Outcome)
    requires forall i :: 0 <= i < |trades| ==> trades[i].row == i
    ensures r.Bars? <==> forall i :: 0 <= i < |trades| ==> Accepted(trades[i], expected)
    ensures r.Bars? ==> forall k ::
              (k in r.bars <==> Group(trades, k) != [])
              && (k in r.bars ==>
                    SortByTime(Group(trades, k)) != [] && r.bars[k].bar == Aggregate(SortByTime(Group(trades, k))))
  {
    var bars: map<Key, Entry> := map[];
    for i := 0 to |trades|
      invariant Reading(trades[..i], bars)
      invariant forall j :: 0 <= j < i ==> Accepted(trades[j], expected)
    {
      var t := trades[i];
      if !Accepted(t, expected) { return Rejected; }
      assert trades[..i + 1] == trades[..i] + [t];
      ReadOne(trades[..i], bars, t);
      var k := KeyOf(t);
      bars := bars[k := if k in bars then Add(bars[k], t) else Start(t)];
    }
    assert trades[..|trades|] == trades;
    r := Bars(bars);
  }
}
