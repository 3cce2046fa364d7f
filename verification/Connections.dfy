/** Which connection carries which topic (market_tape/record.py, `shard_topics`, `_reconcile_tier` and
    `plan_topics`). A shard is a connection and its topic list; topics of different groups never
    share one. */
module Connections {
  datatype Topic = Topic(name: string)

  datatype Group = Group(name: string)

  datatype Shard = Shard(index: nat, topics: seq<Topic>)

  function Flat(lists: seq<seq<Topic>>): seq<Topic> {
    if lists == [] then [] else Flat(lists[..|lists| - 1]) + lists[|lists| - 1]
  }

  function Topics(shards: seq<Shard>): seq<seq<Topic>> {
    seq(|shards|, i requires 0 <= i < |shards| => shards[i].topics)
  }

  function Keep(topics: seq<Topic>, wanted: set<Topic>): seq<Topic> {
    if topics == [] then []
    else
      var last := topics[|topics| - 1];
      Keep(topics[..|topics| - 1], wanted) + (if last in wanted then [last] else [])
  }

  ghost predicate OneGroup(topics: seq<Topic>, group: Topic -> Group) {
    topics != [] ==> forall x :: x in topics ==> group(x) == group(topics[0])
  }

  ghost predicate Once(topics: seq<Topic>) {
    forall x :: multiset(topics)[x] <= 1
  }

  /** Connections that are in use, within capacity and of one group. */
  ghost predicate WellFormed(lists: seq<seq<Topic>>, room: nat, group: Topic -> Group) {
    forall i :: 0 <= i < |lists| ==> GoodChunk(lists[i], room, group)
  }

  ghost predicate GoodChunk(chunk: seq<Topic>, room: nat, group: Topic -> Group) {
    chunk != [] && |chunk| <= room && OneGroup(chunk, group)
  }

  lemma {:induction false} KeepCounts(topics: seq<Topic>, wanted: set<Topic>, x: Topic)
    ensures multiset(Keep(topics, wanted))[x] == if x in wanted then multiset(topics)[x] else 0
  {
    if topics != [] {
      var n := |topics| - 1;
      KeepCounts(topics[..n], wanted, x);
      assert topics == topics[..n] + [topics[n]];
    }
  }

  lemma {:induction false} KeepIsPart(topics: seq<Topic>, wanted: set<Topic>)
    ensures |Keep(topics, wanted)| <= |topics|
    ensures forall x :: x in Keep(topics, wanted) <==> x in topics && x in wanted
  {
    if topics != [] {
      var n := |topics| - 1;
      KeepIsPart(topics[..n], wanted);
      assert topics == topics[..n] + [topics[n]];
    }
  }

  lemma {:induction false} FlatPut(lists: seq<seq<Topic>>, i: nat, more: seq<Topic>)
    requires i < |lists|
    ensures multiset(Flat(lists[i := lists[i] + more])) == multiset(Flat(lists)) + multiset(more)
  {
    var n := |lists| - 1;
    var put, init := lists[i := lists[i] + more], lists[..n];
    var before := put[..n];
    assert Flat(put) == Flat(before) + put[n] && Flat(lists) == Flat(init) + lists[n];
    if i == n {
      assert before == init;
    } else {
      FlatPut(init, i, more);
      assert before == init[i := init[i] + more];
    }
  }

  lemma {:induction false} FlatApart(a: seq<seq<Topic>>, b: seq<seq<Topic>>)
    ensures Flat(a + b) == Flat(a) + Flat(b)
  {
    if b == [] {
      assert a + b == a;
    } else {
      FlatApart(a, b[..|b| - 1]);
      assert (a + b)[..|a + b| - 1] == a + b[..|b| - 1];
    }
  }

  // -------------------------------------------------------- splitting into connections

  /** Two chunks of one group. */
  predicate SameKind(chunks: seq<seq<Topic>>, i: int, j: int, group: Topic -> Group)
    requires 0 <= i < j < |chunks|
  {
    chunks[i] != [] && chunks[j] != [] && group(chunks[i][0]) == group(chunks[j][0])
  }

  /** Every chunk of a group but its last is full. */
  ghost predicate Packed(chunks: seq<seq<Topic>>, room: nat, group: Topic -> Group) {
    forall i, j {:trigger SameKind(chunks, i, j, group)} :: 0 <= i < j < |chunks| && SameKind(chunks, i, j, group) ==>
        FullAt(chunks, i, room)
  }

  predicate Differ(groups: seq<Group>, i: int, j: int)
    requires 0 <= i < j < |groups|
  {
    groups[i] != groups[j]
  }

  ghost predicate DistinctGroups(groups: seq<Group>) {
    forall i, j :: 0 <= i < j < |groups| ==> Differ(groups, i, j)
  }

  /** Topics of one group, some. */
  ghost predicate AllOf(topics: seq<Topic>, g: Group, group: Topic -> Group) {
    topics != [] && forall x :: x in topics ==> group(x) == g
  }

  ghost predicate ListAt(groups: seq<Group>, members: seq<seq<Topic>>, group: Topic -> Group, i: int)
    requires 0 <= i < |groups| == |members|
  {
    AllOf(members[i], groups[i], group)
  }

  /** One list per group, in order of first appearance. */
  ghost predicate Grouped(groups: seq<Group>, members: seq<seq<Topic>>, group: Topic -> Group) {
    && |groups| == |members| && DistinctGroups(groups)
    && (forall i :: 0 <= i < |groups| ==> ListAt(groups, members, group, i))
  }

  predicate IsGroup(groups: seq<Group>, i: int, g: Group)
    requires 0 <= i < |groups|
  {
    groups[i] == g
  }

  /** The group's only place in the list is `at`; at the end it has none. */
  ghost predicate OnlyAt(groups: seq<Group>, g: Group, at: nat) {
    at <= |groups| && forall i :: 0 <= i < |groups| ==> (IsGroup(groups, i, g) <==> i == at)
  }

  method FindGroup(groups: seq<Group>, g: Group) returns (at: nat)
    requires DistinctGroups(groups)
    ensures OnlyAt(groups, g, at)
  {
    at := 0;
    while at < |groups| && groups[at] != g
      invariant at <= |groups| && forall k :: 0 <= k < at ==> !IsGroup(groups, k, g)
    {
      at := at + 1;
    }
    NoOther(groups, g, at);
  }

  lemma NoOther(groups: seq<Group>, g: Group, at: nat)
    requires DistinctGroups(groups) && at <= |groups| && (at < |groups| ==> groups[at] == g)
    requires forall k :: 0 <= k < at ==> !IsGroup(groups, k, g)
    ensures OnlyAt(groups, g, at)
  {
    forall i | 0 <= i < |groups| ensures IsGroup(groups, i, g) <==> i == at {
      assert i > at ==> Differ(groups, at, i);
      assert i < at ==> !IsGroup(groups, i, g);
    }
  }

  lemma {:induction false} PlaceOf(groups: seq<Group>, g: Group) returns (at: nat)
    requires DistinctGroups(groups)
    ensures OnlyAt(groups, g, at)
  {
    at := FirstPlace(groups, g, 0);
    NoOther(groups, g, at);
  }

  lemma {:induction false} FirstPlace(groups: seq<Group>, g: Group, from: nat) returns (at: nat)
    requires from <= |groups| && forall k :: 0 <= k < from ==> !IsGroup(groups, k, g)
    ensures at <= |groups| && (at < |groups| ==> groups[at] == g) && forall k :: 0 <= k < at ==> !IsGroup(groups, k, g)
    decreases |groups| - from
  {
    if from == |groups| || groups[from] == g { at := from; } else { at := FirstPlace(groups, g, from + 1); }
  }

  /** The topics of one group, in the order listed. */
  function OfGroup(topics: seq<Topic>, g: Group, group: Topic -> Group): seq<Topic> {
    if topics == [] then []
    else
      var n := |topics| - 1;
      OfGroup(topics[..n], g, group) + (if group(topics[n]) == g then [topics[n]] else [])
  }

  lemma {:induction false} OfGroupApart(a: seq<Topic>, b: seq<Topic>, g: Group, group: Topic -> Group)
    ensures OfGroup(a + b, g, group) == OfGroup(a, g, group) + OfGroup(b, g, group)
  {
    if b == [] {
      assert a + b == a;
    } else {
      OfGroupApart(a, b[..|b| - 1], g, group);
      assert (a + b)[..|a + b| - 1] == a + b[..|b| - 1];
    }
  }

  lemma {:induction false} OfOneGroup(members: seq<Topic>, own: Group, g: Group, group: Topic -> Group)
    requires forall x :: x in members ==> group(x) == own
    ensures OfGroup(members, g, group) == if g == own then members else []
  {
    if members != [] {
      var n := |members| - 1;
      assert members == members[..n] + [members[n]];
      OfOneGroup(members[..n], own, g, group);
    }
  }

  ghost predicate OrderAt(topics: seq<Topic>, groups: seq<Group>, members: seq<seq<Topic>>, group: Topic -> Group,
                          i: int)
    requires 0 <= i < |groups| == |members|
  {
    members[i] == OfGroup(topics, groups[i], group)
  }

  ghost predicate Absent(topics: seq<Topic>, g: Group, group: Topic -> Group) { OfGroup(topics, g, group) == [] }

  /** Each list holds its group's topics in the order listed, and no group is missing. */
  ghost predicate InOrder(topics: seq<Topic>, groups: seq<Group>, members: seq<seq<Topic>>, group: Topic -> Group) {
    && |groups| == |members|
    && (forall i :: 0 <= i < |groups| ==> OrderAt(topics, groups, members, group, i))
    && (forall g {:trigger Absent(topics, g, group)} :: OnlyAt(groups, g, |groups|) ==> Absent(topics, g, group))
  }

  lemma ListsBefore(groups: seq<Group>, members: seq<seq<Topic>>, group: Topic -> Group, n: nat)
    requires n <= |groups| == |members| && forall i :: 0 <= i < |groups| ==> ListAt(groups, members, group, i)
    ensures forall i :: 0 <= i < n ==> ListAt(groups[..n], members[..n], group, i)
  {
    forall i | 0 <= i < n ensures ListAt(groups[..n], members[..n], group, i) {
      assert ListAt(groups, members, group, i);
    }
  }

  lemma OnlyBefore(groups: seq<Group>, g: Group, at: nat, n: nat)
    requires OnlyAt(groups, g, at) && n <= |groups|
    ensures OnlyAt(groups[..n], g, if at < n then at else n)
  {
    forall i | 0 <= i < n ensures IsGroup(groups[..n], i, g) <==> i == if at < n then at else n {
      assert IsGroup(groups, i, g) <==> i == at;
    }
  }

  lemma {:induction false} FlatOfGroup(groups: seq<Group>, members: seq<seq<Topic>>, group: Topic -> Group, g: Group,
                                       at: nat)
    requires |groups| == |members| && OnlyAt(groups, g, at)
    requires forall i :: 0 <= i < |groups| ==> ListAt(groups, members, group, i)
    ensures OfGroup(Flat(members), g, group) == if at < |groups| then members[at] else []
  {
    if members != [] {
      var n := |members| - 1;
      var init, last := members[..n], members[n];
      ListsBefore(groups, members, group, n);
      OnlyBefore(groups, g, at, n);
      FlatOfGroup(groups[..n], init, group, g, if at < n then at else n);
      OfGroupApart(Flat(init), last, g, group);
      assert ListAt(groups, members, group, n) && (IsGroup(groups, n, g) <==> n == at);
      OfOneGroup(last, groups[n], g, group);
    }
  }

  ghost predicate SameOrder(a: seq<Topic>, b: seq<Topic>, group: Topic -> Group) {
    forall g :: OfGroup(a, g, group) == OfGroup(b, g, group)
  }

  /** Grouping, and cutting the groups up, keeps the order within each group. */
  lemma GroupsKeepOrder(topics: seq<Topic>, groups: seq<Group>, members: seq<seq<Topic>>, group: Topic -> Group)
    requires Grouped(groups, members, group) && InOrder(topics, groups, members, group)
    ensures SameOrder(Flat(members), topics, group)
  {
    forall g ensures OfGroup(Flat(members), g, group) == OfGroup(topics, g, group) {
      var at := PlaceOf(groups, g);
      FlatOfGroup(groups, members, group, g, at);
      if at < |groups| {
        assert IsGroup(groups, at, g) && OrderAt(topics, groups, members, group, at);
      } else {
        assert Absent(topics, g, group);
      }
    }
  }

  lemma OneMoreTopic(topics: seq<Topic>, t: Topic, group: Topic -> Group, g: Group)
    ensures OfGroup(topics + [t], g, group)
            == if group(t) == g then OfGroup(topics, g, group) + [t] else OfGroup(topics, g, group)
  {
    assert (topics + [t])[..|topics|] == topics;
  }

  lemma {:induction false} GroupCounts(topics: seq<Topic>, x: Topic, group: Topic -> Group)
    ensures multiset(OfGroup(topics, group(x), group))[x] == multiset(topics)[x]
  {
    if topics != [] {
      var n := |topics| - 1;
      GroupCounts(topics[..n], x, group);
      assert topics == topics[..n] + [topics[n]];
    }
  }

  lemma SameGroupsSameTopics(a: seq<Topic>, b: seq<Topic>, group: Topic -> Group)
    requires SameOrder(a, b, group)
    ensures multiset(a) == multiset(b)
  {
    forall x ensures multiset(a)[x] == multiset(b)[x] {
      GroupCounts(a, x, group);
      GroupCounts(b, x, group);
      assert OfGroup(a, group(x), group) == OfGroup(b, group(x), group);
    }
  }

  /** A topic joins the list of its group. */
  lemma JoinGroup(t: Topic, groups: seq<Group>, members: seq<seq<Topic>>, group: Topic -> Group, at: nat)
    requires Grouped(groups, members, group) && at < |groups| && groups[at] == group(t)
    ensures Grouped(groups, members[at := members[at] + [t]], group)
  {
    var after := members[at := members[at] + [t]];
    forall i | 0 <= i < |groups| ensures ListAt(groups, after, group, i) {
      assert ListAt(groups, members, group, i);
      if i == at { assert forall x :: x in members[at] + [t] ==> x in members[at] || x == t; }
    }
  }

  lemma JoinInOrder(topics: seq<Topic>, t: Topic, groups: seq<Group>, members: seq<seq<Topic>>, group: Topic -> Group,
                    at: nat)
    requires InOrder(topics, groups, members, group) && at < |groups| && OnlyAt(groups, group(t), at)
    ensures InOrder(topics + [t], groups, members[at := members[at] + [t]], group)
  {
    var more, after := topics + [t], members[at := members[at] + [t]];
    forall i | 0 <= i < |groups| ensures OrderAt(more, groups, after, group, i) {
      assert OrderAt(topics, groups, members, group, i) && (IsGroup(groups, i, group(t)) <==> i == at);
      OneMoreTopic(topics, t, group, groups[i]);
    }
    forall g | OnlyAt(groups, g, |groups|) ensures Absent(more, g, group) {
      assert Absent(topics, g, group) && !IsGroup(groups, at, g) && IsGroup(groups, at, group(t));
      OneMoreTopic(topics, t, group, g);
    }
  }

  lemma StartGroup(t: Topic, groups: seq<Group>, members: seq<seq<Topic>>, group: Topic -> Group)
    requires Grouped(groups, members, group) && OnlyAt(groups, group(t), |groups|)
    ensures Grouped(groups + [group(t)], members + [[t]], group)
  {
    var more, lists := groups + [group(t)], members + [[t]];
    forall i, j | 0 <= i < j < |more| ensures Differ(more, i, j) {
      if j < |groups| { assert Differ(groups, i, j); } else { assert !IsGroup(groups, i, group(t)); }
    }
    forall i | 0 <= i < |more| ensures ListAt(more, lists, group, i) {
      assert i < |groups| ==> ListAt(groups, members, group, i);
    }
  }

  lemma StartInOrder(topics: seq<Topic>, t: Topic, groups: seq<Group>, members: seq<seq<Topic>>, group: Topic -> Group)
    requires InOrder(topics, groups, members, group) && OnlyAt(groups, group(t), |groups|)
    ensures InOrder(topics + [t], groups + [group(t)], members + [[t]], group)
  {
    var all, more, lists, n := topics + [t], groups + [group(t)], members + [[t]], |groups|;
    forall i | 0 <= i < |more| ensures OrderAt(all, more, lists, group, i) {
      OneMoreTopic(topics, t, group, more[i]);
      if i < n {
        assert OrderAt(topics, groups, members, group, i) && !IsGroup(groups, i, group(t));
      } else {
        assert Absent(topics, group(t), group);
      }
    }
    forall g | OnlyAt(more, g, |more|) ensures Absent(all, g, group) {
      assert !IsGroup(more, n, g);
      OnlyBefore(more, g, |more|, n);
      assert more[..n] == groups;
      assert Absent(topics, g, group);
      OneMoreTopic(topics, t, group, g);
    }
  }

  method GroupTopics(topics: seq<Topic>, group: Topic -> Group) returns (groups: seq<Group>, members: seq<seq<Topic>>)
    ensures Grouped(groups, members, group) && InOrder(topics, groups, members, group)
  {
    groups, members := [], [];
    for i := 0 to |topics|
      invariant Grouped(groups, members, group) && InOrder(topics[..i], groups, members, group)
    {
      var t := topics[i];
      assert topics[..i + 1] == topics[..i] + [t];
      var at := FindGroup(groups, group(t));
      if at == |groups| {
        StartGroup(t, groups, members, group);
        StartInOrder(topics[..i], t, groups, members, group);
        groups, members := groups + [group(t)], members + [[t]];
      } else {
        assert IsGroup(groups, at, group(t));
        JoinGroup(t, groups, members, group, at);
        JoinInOrder(topics[..i], t, groups, members, group, at);
        members := members[at := members[at] + [t]];
      }
    }
    assert topics[..|topics|] == topics;
  }

  /** A connection's worth of one group. */
  ghost predicate CutAt(chunks: seq<seq<Topic>>, i: int, room: nat, g: Group, group: Topic -> Group)
    requires 0 <= i < |chunks|
  {
    AllOf(chunks[i], g, group) && |chunks[i]| <= room
  }

  /** Chunks of one group, all full but perhaps the last. */
  ghost predicate Cut(chunks: seq<seq<Topic>>, room: nat, g: Group, group: Topic -> Group, full: bool) {
    && (forall i :: 0 <= i < |chunks| ==> CutAt(chunks, i, room, g, group))
    && (forall i :: 0 <= i < |chunks| - (if full then 0 else 1) ==> FullAt(chunks, i, room))
  }

  predicate FullAt(chunks: seq<seq<Topic>>, i: int, room: nat)
    requires 0 <= i < |chunks|
  {
    |chunks[i]| == room
  }

  lemma CutMore(chunks: seq<seq<Topic>>, chunk: seq<Topic>, room: nat, g: Group, group: Topic -> Group)
    requires Cut(chunks, room, g, group, true) && AllOf(chunk, g, group) && |chunk| <= room
    ensures Cut(chunks + [chunk], room, g, group, |chunk| == room)
    ensures Flat(chunks + [chunk]) == Flat(chunks) + chunk
  {
    var more := chunks + [chunk];
    assert more[..|chunks|] == chunks;
    forall i | 0 <= i < |more| ensures CutAt(more, i, room, g, group) {
      assert i < |chunks| ==> CutAt(chunks, i, room, g, group);
    }
    forall i | 0 <= i < |chunks| ensures FullAt(more, i, room) { assert FullAt(chunks, i, room); }
  }

  /** Cut one group's list into connections of `room`. */
  method CutGroup(members: seq<Topic>, room: nat, g: Group, group: Topic -> Group) returns (chunks: seq<seq<Topic>>)
    requires room > 0 && AllOf(members, g, group)
    ensures Cut(chunks, room, g, group, false) && Flat(chunks) == members
  {
    chunks := [];
    var start := 0;
    while start < |members|
      invariant 0 <= start <= |members|
      invariant Cut(chunks, room, g, group, start < |members|) && Flat(chunks) == members[..start]
    {
      var end := if start + room < |members| then start + room else |members|;
      var chunk := members[start..end];
      CutMore(chunks, chunk, room, g, group);
      assert members[..start] + chunk == members[..end];
      chunks := chunks + [chunk];
      start := end;
    }
    assert members[..|members|] == members;
  }

  /** The chunk comes from one of the first `n` groups. */
  ghost predicate FromGroup(chunk: seq<Topic>, groups: seq<Group>, n: nat, group: Topic -> Group)
    requires n <= |groups|
  {
    exists m :: 0 <= m < n && AllOf(chunk, groups[m], group)
  }

  ghost predicate FromGroups(chunks: seq<seq<Topic>>, groups: seq<Group>, n: nat, group: Topic -> Group)
    requires n <= |groups|
  {
    forall k :: 0 <= k < |chunks| ==> FromGroup(chunks[k], groups, n, group)
  }

  lemma FromOneMore(chunks: seq<seq<Topic>>, cut: seq<seq<Topic>>, groups: seq<Group>, n: nat, room: nat,
                    group: Topic -> Group)
    requires n < |groups| && FromGroups(chunks, groups, n, group) && Cut(cut, room, groups[n], group, false)
    ensures FromGroups(chunks + cut, groups, n + 1, group)
  {
    var all := chunks + cut;
    forall k | 0 <= k < |all| ensures FromGroup(all[k], groups, n + 1, group) {
      if k < |chunks| {
        assert all[k] == chunks[k] && FromGroup(chunks[k], groups, n, group);
        var m :| 0 <= m < n && AllOf(chunks[k], groups[m], group);
        assert AllOf(all[k], groups[m], group);
      } else {
        assert all[k] == cut[k - |chunks|] && CutAt(cut, k - |chunks|, room, groups[n], group);
      }
    }
  }

  lemma OtherGroup(a: seq<Topic>, b: seq<Topic>, groups: seq<Group>, n: nat, group: Topic -> Group)
    requires n < |groups| && DistinctGroups(groups) && FromGroup(a, groups, n, group) && AllOf(b, groups[n], group)
    ensures a != [] && group(a[0]) != group(b[0])
  {
    var m :| 0 <= m < n && AllOf(a, groups[m], group);
    assert Differ(groups, m, n) && a[0] in a && b[0] in b;
  }

  lemma PackedTogether(chunks: seq<seq<Topic>>, cut: seq<seq<Topic>>, groups: seq<Group>, n: nat, room: nat,
                       group: Topic -> Group)
    requires n < |groups| && DistinctGroups(groups) && FromGroups(chunks, groups, n, group)
             && Packed(chunks, room, group)
    requires Cut(cut, room, groups[n], group, false)
    ensures Packed(chunks + cut, room, group)
  {
    var all, c := chunks + cut, |chunks|;
    forall i, j | 0 <= i < j < |all| && SameKind(all, i, j, group) ensures FullAt(all, i, room) {
      if j < c {
        assert SameKind(chunks, i, j, group);
        assert FullAt(chunks, i, room);
      } else if i < c {
        assert CutAt(cut, j - c, room, groups[n], group);
        OtherGroup(chunks[i], cut[j - c], groups, n, group);
        assert false;
      } else {
        assert FullAt(cut, i - c, room);
      }
    }
  }

  lemma CutWellFormed(cut: seq<seq<Topic>>, room: nat, g: Group, group: Topic -> Group, full: bool)
    requires Cut(cut, room, g, group, full)
    ensures WellFormed(cut, room, group)
  {
    forall i | 0 <= i < |cut| ensures GoodChunk(cut[i], room, group) { assert CutAt(cut, i, room, g, group); }
  }

  method ShardTopics(topics: seq<Topic>, room: nat, group: Topic -> Group) returns (chunks: seq<seq<Topic>>)
    requires room > 0
    ensures WellFormed(chunks, room, group) && Packed(chunks, room, group)
    ensures SameOrder(Flat(chunks), topics, group) && multiset(Flat(chunks)) == multiset(topics)
  {
    var groups, members := GroupTopics(topics, group);
    chunks := [];
    for i := 0 to |groups|
      invariant WellFormed(chunks, room, group) && Packed(chunks, room, group)
      invariant Flat(chunks) == Flat(members[..i])
      invariant FromGroups(chunks, groups, i, group)
    {
      assert ListAt(groups, members, group, i);
      var cut := CutGroup(members[i], room, groups[i], group);
      FlatMore(members, i);
      FlatApart(chunks, cut);
      CutWellFormed(cut, room, groups[i], group, false);
      PackedTogether(chunks, cut, groups, i, room, group);
      FromOneMore(chunks, cut, groups, i, room, group);
      WellFormedTogether(chunks, cut, room, group);
      chunks := chunks + cut;
    }
    assert members[..|members|] == members;
    GroupsKeepOrder(topics, groups, members, group);
    SameGroupsSameTopics(Flat(chunks), topics, group);
  }

  lemma FlatMore(lists: seq<seq<Topic>>, i: nat)
    requires i < |lists|
    ensures Flat(lists[..i + 1]) == Flat(lists[..i]) + lists[i]
  {
    assert lists[..i + 1][..i] == lists[..i];
  }

  // ------------------------------------------------------------- one tier's plan

  /** What a tier's connections keep between plans: each in use, within capacity and of one group,
      together exactly the desired topics, each topic once, and no two with one index. */
  ghost predicate TierValid(shards: seq<Shard>, desired: seq<Topic>, room: nat, group: Topic -> Group, nextIndex: nat) {
    && WellFormed(Topics(shards), room, group)
    && multiset(Flat(Topics(shards))) == multiset(desired) && Once(desired)
    && Indexed(shards) && (forall i :: 0 <= i < |shards| ==> shards[i].index < nextIndex)
  }

  /** The first `limit` topics of a group. */
  function Take(topics: seq<Topic>, g: Group, limit: nat, group: Topic -> Group): seq<Topic> {
    if topics == [] || limit == 0 then []
    else if group(topics[0]) == g then [topics[0]] + Take(topics[1..], g, limit - 1, group)
    else Take(topics[1..], g, limit, group)
  }

  lemma {:induction false} TakeIsPart(topics: seq<Topic>, g: Group, limit: nat, group: Topic -> Group)
    ensures |Take(topics, g, limit, group)| <= limit
    ensures forall x :: x in Take(topics, g, limit, group) ==> x in topics && group(x) == g
    ensures multiset(Take(topics, g, limit, group)) <= multiset(topics)
    ensures |Take(topics, g, limit, group)| < limit ==>
              forall x :: x in topics && group(x) == g ==> x in Take(topics, g, limit, group)
    decreases |topics|
  {
    if topics != [] && limit > 0 {
      assert topics == [topics[0]] + topics[1..];
      TakeIsPart(topics[1..], g, if group(topics[0]) == g then limit - 1 else limit, group);
    }
  }

  function Rest(topics: seq<Topic>, taken: seq<Topic>): set<Topic> { set x | x in topics && x !in taken }

  /** Nothing desired is lost or placed twice. */
  ghost predicate Balanced(desired: seq<Topic>, plans: seq<seq<Topic>>, leftover: seq<Topic>) {
    Once(desired) && multiset(Flat(plans)) + multiset(leftover) == multiset(desired)
  }

  /** The connections already looked at have no room for what is left of their group. */
  ghost predicate NoRoom(shards: seq<Shard>, room: nat, group: Topic -> Group, plans: seq<seq<Topic>>,
                         leftover: seq<Topic>, done: nat)
    requires done <= |shards| == |plans|
  {
    forall i, x ::
      0 <= i < done && x in leftover && shards[i].topics != [] && group(x) == group(shards[i].topics[0]) ==>
        |plans[i]| >= room
  }

  /** Filling the old connections: `plans` is what each carries, `leftover` what is still to place. */
  ghost predicate Filling(shards: seq<Shard>, desired: seq<Topic>, room: nat, group: Topic -> Group,
                          plans: seq<seq<Topic>>, leftover: seq<Topic>, done: nat) {
    && |plans| == |shards| && done <= |shards|
    && Balanced(desired, plans, leftover)
    && (forall i :: 0 <= i < |shards| ==> Filled(shards[i], desired, room, group, plans[i]))
    && NoRoom(shards, room, group, plans, leftover, done)
  }

  /** Taking some of the leftover and keeping the rest loses nothing. */
  lemma TakeAndRest(leftover: seq<Topic>, take: seq<Topic>)
    requires Once(leftover) && multiset(take) <= multiset(leftover)
    ensures multiset(take) + multiset(Keep(leftover, Rest(leftover, take))) == multiset(leftover)
  {
    var rest := Keep(leftover, Rest(leftover, take));
    forall x
      ensures multiset(take)[x] + multiset(rest)[x] == multiset(leftover)[x]
    {
      KeepCounts(leftover, Rest(leftover, take), x);
      assert multiset(leftover)[x] <= 1 && multiset(take)[x] <= multiset(leftover)[x];
      assert x in take <==> multiset(take)[x] > 0;
      assert x in leftover <==> multiset(leftover)[x] > 0;
    }
  }

  /** One old connection after its free room was filled. */
  ghost predicate Filled(shard: Shard, desired: seq<Topic>, room: nat, group: Topic -> Group, plan: seq<Topic>) {
    && shard.topics != [] && |plan| <= room
    && (forall x :: x in plan ==> group(x) == group(shard.topics[0]))
    && (forall x :: x in shard.topics && x in desired ==> x in plan)
  }

  lemma FillBalance(desired: seq<Topic>, plans: seq<seq<Topic>>, leftover: seq<Topic>, i: nat, take: seq<Topic>)
    requires Balanced(desired, plans, leftover) && i < |plans| && multiset(take) <= multiset(leftover)
    ensures Balanced(desired, plans[i := plans[i] + take], Keep(leftover, Rest(leftover, take)))
  {
    FlatPut(plans, i, take);
    assert Once(leftover) by {
      forall x ensures multiset(leftover)[x] <= 1 { assert multiset(leftover)[x] <= multiset(desired)[x]; }
    }
    TakeAndRest(leftover, take);
    var put, rest := plans[i := plans[i] + take], Keep(leftover, Rest(leftover, take));
    assert multiset(Flat(put)) + multiset(rest) == multiset(Flat(plans)) + (multiset(take) + multiset(rest));
  }

  lemma FillNoRoom(shards: seq<Shard>, room: nat, group: Topic -> Group, plans: seq<seq<Topic>>, leftover: seq<Topic>,
                   i: nat, take: seq<Topic>)
    requires i < |shards| == |plans| && shards[i].topics != [] && |plans[i]| <= room
    requires NoRoom(shards, room, group, plans, leftover, i)
    requires take == Take(leftover, group(shards[i].topics[0]), room - |plans[i]|, group)
    ensures NoRoom(shards, room, group, plans[i := plans[i] + take], Keep(leftover, Rest(leftover, take)), i + 1)
  {
    TakeIsPart(leftover, group(shards[i].topics[0]), room - |plans[i]|, group);
    KeepIsPart(leftover, Rest(leftover, take));
  }

  lemma FillOne(shards: seq<Shard>, desired: seq<Topic>, room: nat, group: Topic -> Group, plans: seq<seq<Topic>>,
                leftover: seq<Topic>, i: nat, take: seq<Topic>)
    requires Filling(shards, desired, room, group, plans, leftover, i) && i < |shards|
    requires take == Take(leftover, group(shards[i].topics[0]), room - |plans[i]|, group)
    ensures Filling(shards, desired, room, group, plans[i := plans[i] + take],
                    Keep(leftover, Rest(leftover, take)), i + 1)
  {
    assert Filled(shards[i], desired, room, group, plans[i]);
    TakeIsPart(leftover, group(shards[i].topics[0]), room - |plans[i]|, group);
    FillBalance(desired, plans, leftover, i, take);
    FillNoRoom(shards, room, group, plans, leftover, i, take);
    FilledMore(shards[i], desired, room, group, plans[i], take);
    var put := plans[i := plans[i] + take];
    forall j | 0 <= j < |shards| ensures Filled(shards[j], desired, room, group, put[j]) {
      assert j != i ==> put[j] == plans[j];
    }
  }

  lemma FilledMore(shard: Shard, desired: seq<Topic>, room: nat, group: Topic -> Group, plan: seq<Topic>,
                   take: seq<Topic>)
    requires Filled(shard, desired, room, group, plan) && |plan| + |take| <= room
    requires forall x :: x in take ==> group(x) == group(shard.topics[0])
    ensures Filled(shard, desired, room, group, plan + take)
  {
  }

  function KeepAll(lists: seq<seq<Topic>>, wanted: set<Topic>): seq<seq<Topic>> {
    seq(|lists|, i requires 0 <= i < |lists| => Keep(lists[i], wanted))
  }

  lemma {:induction false} FlatKeepCounts(lists: seq<seq<Topic>>, wanted: set<Topic>, x: Topic)
    ensures multiset(Flat(KeepAll(lists, wanted)))[x] == if x in wanted then multiset(Flat(lists))[x] else 0
  {
    if lists != [] {
      var n := |lists| - 1;
      FlatKeepCounts(lists[..n], wanted, x);
      KeepCounts(lists[n], wanted, x);
      assert KeepAll(lists, wanted)[..n] == KeepAll(lists[..n], wanted);
    }
  }

  lemma {:induction false} InFlat(lists: seq<seq<Topic>>, i: nat, x: Topic)
    requires i < |lists| && x in lists[i]
    ensures x in Flat(lists)
  {
    var n := |lists| - 1;
    if i < n { InFlat(lists[..n], i, x); }
  }

  /** Dropping what is no longer wanted and listing what is not yet placed balances. */
  lemma StartBalanced(lists: seq<seq<Topic>>, before: seq<Topic>, desired: seq<Topic>, wanted: set<Topic>,
                      placed: set<Topic>)
    requires multiset(Flat(lists)) == multiset(before) && Once(before) && Once(desired)
    requires forall x :: x in wanted <==> x in desired
    requires forall x :: x in placed <==> x in wanted && x in Flat(lists)
    ensures Balanced(desired, KeepAll(lists, wanted), Keep(desired, wanted - placed))
  {
    forall x
      ensures multiset(Flat(KeepAll(lists, wanted)))[x] + multiset(Keep(desired, wanted - placed))[x]
              == multiset(desired)[x]
    {
      FlatKeepCounts(lists, wanted, x);
      KeepCounts(desired, wanted - placed, x);
      assert multiset(before)[x] <= 1 && multiset(desired)[x] <= 1;
      assert x in desired <==> multiset(desired)[x] > 0;
      assert x in Flat(lists) <==> multiset(Flat(lists))[x] > 0;
    }
    assert multiset(Flat(KeepAll(lists, wanted))) + multiset(Keep(desired, wanted - placed)) == multiset(desired);
  }

  lemma StartFilling(shards: seq<Shard>, before: seq<Topic>, desired: seq<Topic>, room: nat, group: Topic -> Group,
                     wanted: set<Topic>, placed: set<Topic>)
    requires WellFormed(Topics(shards), room, group) && multiset(Flat(Topics(shards))) == multiset(before)
             && Once(before) && Once(desired)
    requires forall x :: x in wanted <==> x in desired
    requires forall x :: x in placed <==> x in wanted && x in Flat(Topics(shards))
    ensures Filling(shards, desired, room, group, KeepAll(Topics(shards), wanted), Keep(desired, wanted - placed), 0)
  {
    StartBalanced(Topics(shards), before, desired, wanted, placed);
    forall i | 0 <= i < |shards|
      ensures Filled(shards[i], desired, room, group, KeepAll(Topics(shards), wanted)[i])
    {
      assert Topics(shards)[i] == shards[i].topics;
      StartFilled(shards[i], desired, room, group, wanted);
    }
  }

  lemma StartFilled(shard: Shard, desired: seq<Topic>, room: nat, group: Topic -> Group, wanted: set<Topic>)
    requires shard.topics != [] && |shard.topics| <= room && OneGroup(shard.topics, group)
    requires forall x :: x in wanted <==> x in desired
    ensures Filled(shard, desired, room, group, Keep(shard.topics, wanted))
  {
    var topics := shard.topics;
    KeepIsPart(topics, wanted);
    forall x | x in Keep(topics, wanted)
      ensures group(x) == group(topics[0])
    {
      var k :| 0 <= k < |topics| && topics[k] == x;
      assert k > 0 ==> group(topics[0]) == group(topics[k]);
    }
  }

  /** Fill the free room of the connections a tier has. */
  method FillShards(shards: seq<Shard>, desired: seq<Topic>, room: nat, group: Topic -> Group, ghost before: seq<Topic>)
    returns (plans: seq<seq<Topic>>, leftover: seq<Topic>)
    requires WellFormed(Topics(shards), room, group) && multiset(Flat(Topics(shards))) == multiset(before)
             && Once(before) && Once(desired)
    ensures Filling(shards, desired, room, group, plans, leftover, |shards|)
  {
    var wanted := set x | x in desired;
    plans := KeepAll(Topics(shards), wanted);
    var placed := set x | x in Flat(Topics(shards)) && x in wanted;
    leftover := Keep(desired, wanted - placed);
    StartFilling(shards, before, desired, room, group, wanted, placed);
    for i := 0 to |shards|
      invariant Filling(shards, desired, room, group, plans, leftover, i)
    {
      assert Filled(shards[i], desired, room, group, plans[i]);
      // The plan's own first topic, or the shard's: the same group.
      var anchor := if plans[i] != [] then plans[i][0] else shards[i].topics[0];
      assert group(anchor) == group(shards[i].topics[0]) by { if plans[i] != [] { assert plans[i][0] in plans[i]; } }
      var take := Take(leftover, group(anchor), room - |plans[i]|, group);
      FillOne(shards, desired, room, group, plans, leftover, i, take);
      plans := plans[i := plans[i] + take];
      leftover := Keep(leftover, Rest(leftover, take));
    }
  }

  lemma TopicsMore(shards: seq<Shard>, s: Shard)
    ensures Topics(shards + [s]) == Topics(shards) + [s.topics]
    ensures Flat(Topics(shards + [s])) == Flat(Topics(shards)) + s.topics
  {
    assert Topics(shards + [s]) == Topics(shards) + [s.topics];
    assert (Topics(shards) + [s.topics])[..|shards|] == Topics(shards);
  }

  /** Connections left with something to carry, under the index they had. */
  function Staying(shards: seq<Shard>, plans: seq<seq<Topic>>): seq<Shard>
    requires |shards| == |plans|
  {
    if shards == [] then []
    else
      var n := |shards| - 1;
      Staying(shards[..n], plans[..n]) + (if plans[n] != [] then [Shard(shards[n].index, plans[n])] else [])
  }

  lemma {:induction false} StayingFlat(shards: seq<Shard>, plans: seq<seq<Topic>>)
    requires |shards| == |plans|
    ensures Flat(Topics(Staying(shards, plans))) == Flat(plans)
  {
    if shards == [] {
      assert Topics(Staying(shards, plans)) == [];
    } else {
      var n := |shards| - 1;
      StayingFlat(shards[..n], plans[..n]);
      var init := Staying(shards[..n], plans[..n]);
      TopicsMore(init, Shard(shards[n].index, plans[n]));
      if plans[n] == [] {
        assert Staying(shards, plans) == init;
        assert Flat(plans) == Flat(plans[..n]);
      } else {
        assert Staying(shards, plans) == init + [Shard(shards[n].index, plans[n])];
      }
    }
  }

  /** Where a connection that stays comes from. */
  lemma {:induction false} StayingFrom(shards: seq<Shard>, plans: seq<seq<Topic>>, j: nat) returns (i: nat)
    requires |shards| == |plans| && j < |Staying(shards, plans)|
    ensures i < |shards| && plans[i] != [] && Staying(shards, plans)[j] == Shard(shards[i].index, plans[i])
  {
    var n := |shards| - 1;
    var init := Staying(shards[..n], plans[..n]);
    if j < |init| { i := StayingFrom(shards[..n], plans[..n], j); } else { i := n; }
  }

  lemma {:induction false} StayingHas(shards: seq<Shard>, plans: seq<seq<Topic>>, i: nat)
    requires |shards| == |plans| && i < |shards| && plans[i] != []
    ensures Shard(shards[i].index, plans[i]) in Staying(shards, plans)
  {
    var n := |shards| - 1;
    if i < n { StayingHas(shards[..n], plans[..n], i); }
  }

  ghost predicate Indexed(shards: seq<Shard>) {
    forall i, j :: 0 <= i < j < |shards| ==> shards[i].index != shards[j].index
  }

  lemma {:induction false} StayingIndexed(shards: seq<Shard>, plans: seq<seq<Topic>>)
    requires |shards| == |plans| && Indexed(shards)
    ensures Indexed(Staying(shards, plans))
  {
    if shards != [] {
      var n := |shards| - 1;
      StayingIndexed(shards[..n], plans[..n]);
      var init := Staying(shards[..n], plans[..n]);
      forall j | 0 <= j < |init|
        ensures init[j].index != shards[n].index
      {
        var i := StayingFrom(shards[..n], plans[..n], j);
      }
    }
  }

  method KeepShards(shards: seq<Shard>, plans: seq<seq<Topic>>) returns (kept: seq<Shard>)
    requires |shards| == |plans|
    ensures kept == Staying(shards, plans)
  {
    kept := [];
    for i := 0 to |shards|
      invariant kept == Staying(shards[..i], plans[..i])
    {
      assert shards[..i + 1][..i] == shards[..i] && plans[..i + 1][..i] == plans[..i];
      if plans[i] != [] {
        kept := kept + [Shard(shards[i].index, plans[i])];
      }
    }
    assert shards[..|shards|] == shards && plans[..|plans|] == plans;
  }

  /** New connections, numbered from `nextIndex`. */
  function Numbered(chunks: seq<seq<Topic>>, nextIndex: nat): seq<Shard> {
    seq(|chunks|, i requires 0 <= i < |chunks| => Shard(nextIndex + i, chunks[i]))
  }

  /** A topic wanted before and after stays where it is. */
  ghost predicate NothingMoves(shards: seq<Shard>, desired: seq<Topic>, after: seq<Shard>) {
    forall i, x :: 0 <= i < |shards| && x in shards[i].topics && x in desired ==>
      exists j :: 0 <= j < |after| && after[j].index == shards[i].index && x in after[j].topics
  }

  /** The connection numbered `index` is still there, and full. */
  ghost predicate StillFull(after: seq<Shard>, index: nat, room: nat) {
    exists m :: 0 <= m < |after| && after[m].index == index && |after[m].topics| == room
  }

  /** The new connection is of the old one's group. */
  ghost predicate NewOfGroup(old_: Shard, new_: Shard, group: Topic -> Group, nextIndex: nat) {
    new_.index >= nextIndex && old_.topics != [] && new_.topics != [] && group(old_.topics[0]) == group(new_.topics[0])
  }

  /** A connection numbered `nextIndex` or more was opened only because every connection of its group there was
      before, even one that lost all its topics, is still open and full. */
  ghost predicate OpenedOnlyWhenFull(shards: seq<Shard>, after: seq<Shard>, room: nat, group: Topic -> Group,
                                     nextIndex: nat) {
    forall i, j {:trigger NewOfGroup(shards[i], after[j], group, nextIndex)} ::
      0 <= i < |shards| && 0 <= j < |after| && NewOfGroup(shards[i], after[j], group, nextIndex) ==>
        StillFull(after, shards[i].index, room)
  }

  /** Make a tier's connections carry exactly `desired`. */
  method ReconcileTier(shards: seq<Shard>, desired: seq<Topic>, room: nat, group: Topic -> Group, nextIndex: nat,
                       ghost before: seq<Topic>, ghost start: nat)
    returns (after: seq<Shard>, next: nat)
    requires TierValid(shards, before, room, group, start) && start <= nextIndex && Once(desired) && room > 0
    ensures TierValid(after, desired, room, group, next) && nextIndex <= next
    ensures NothingMoves(shards, desired, after)
    ensures OpenedOnlyWhenFull(shards, after, room, group, start)
  {
    var plans, leftover := FillShards(shards, desired, room, group, before);
    var kept := KeepShards(shards, plans);
    var chunks := ShardTopics(leftover, room, group);
    after := kept + Numbered(chunks, nextIndex);
    next := nextIndex + |chunks|;
    StayingWellFormed(shards, desired, room, group, plans);
    PlanIsValid(shards, desired, room, group, nextIndex, plans, leftover, chunks);
    PlanMovesNothing(shards, desired, room, group, nextIndex, plans, leftover, chunks);
    PlanOpensWhenFull(shards, desired, room, group, start, nextIndex, plans, leftover, chunks);
  }

  lemma PlanIsValid(shards: seq<Shard>, desired: seq<Topic>, room: nat, group: Topic -> Group, nextIndex: nat,
                    plans: seq<seq<Topic>>, leftover: seq<Topic>, chunks: seq<seq<Topic>>)
    requires |plans| == |shards| && Balanced(desired, plans, leftover)
    requires WellFormed(Topics(Staying(shards, plans)), room, group)
    requires WellFormed(chunks, room, group) && multiset(Flat(chunks)) == multiset(leftover)
    requires Indexed(shards) && forall i :: 0 <= i < |shards| ==> shards[i].index < nextIndex
    ensures TierValid(Staying(shards, plans) + Numbered(chunks, nextIndex), desired, room, group, nextIndex + |chunks|)
  {
    PlanIsBalanced(desired, shards, plans, leftover, chunks);
    WellFormedTogether(Topics(Staying(shards, plans)), chunks, room, group);
    TopicsTogether(Staying(shards, plans), chunks, nextIndex);
    StayingNumbered(shards, plans, chunks, nextIndex);
  }

  lemma TopicsTogether(shards: seq<Shard>, chunks: seq<seq<Topic>>, nextIndex: nat)
    ensures Topics(shards + Numbered(chunks, nextIndex)) == Topics(shards) + chunks
  {
  }

  lemma PlanIsBalanced(desired: seq<Topic>, shards: seq<Shard>, plans: seq<seq<Topic>>, leftover: seq<Topic>,
                       chunks: seq<seq<Topic>>)
    requires |plans| == |shards| && Balanced(desired, plans, leftover) && multiset(Flat(chunks)) == multiset(leftover)
    ensures multiset(Flat(Topics(Staying(shards, plans)) + chunks)) == multiset(desired)
  {
    FlatApart(Topics(Staying(shards, plans)), chunks);
    StayingFlat(shards, plans);
  }

  lemma WellFormedTogether(a: seq<seq<Topic>>, b: seq<seq<Topic>>, room: nat, group: Topic -> Group)
    requires WellFormed(a, room, group) && WellFormed(b, room, group)
    ensures WellFormed(a + b, room, group)
  {
  }

  lemma StayingNumbered(shards: seq<Shard>, plans: seq<seq<Topic>>, chunks: seq<seq<Topic>>, nextIndex: nat)
    requires |plans| == |shards| && Indexed(shards) && forall i :: 0 <= i < |shards| ==> shards[i].index < nextIndex
    ensures Indexed(Staying(shards, plans) + Numbered(chunks, nextIndex))
    ensures forall j :: 0 <= j < |Staying(shards, plans) + Numbered(chunks, nextIndex)| ==>
              (Staying(shards, plans) + Numbered(chunks, nextIndex))[j].index < nextIndex + |chunks|
  {
    StayingIndexed(shards, plans);
    StayingBelow(shards, plans, nextIndex);
  }

  lemma StayingWellFormed(shards: seq<Shard>, desired: seq<Topic>, room: nat, group: Topic -> Group,
                          plans: seq<seq<Topic>>)
    requires |plans| == |shards| && forall i :: 0 <= i < |shards| ==> Filled(shards[i], desired, room, group, plans[i])
    ensures WellFormed(Topics(Staying(shards, plans)), room, group)
  {
    forall j | 0 <= j < |Staying(shards, plans)|
      ensures Topics(Staying(shards, plans))[j] != [] && |Topics(Staying(shards, plans))[j]| <= room
              && OneGroup(Topics(Staying(shards, plans))[j], group)
    {
      var i := StayingFrom(shards, plans, j);
      FilledIsSound(shards[i], desired, room, group, plans[i]);
    }
  }

  lemma StayingBelow(shards: seq<Shard>, plans: seq<seq<Topic>>, nextIndex: nat)
    requires |plans| == |shards| && forall i :: 0 <= i < |shards| ==> shards[i].index < nextIndex
    ensures forall j :: 0 <= j < |Staying(shards, plans)| ==> Staying(shards, plans)[j].index < nextIndex
  {
    forall j | 0 <= j < |Staying(shards, plans)|
      ensures Staying(shards, plans)[j].index < nextIndex
    {
      var i := StayingFrom(shards, plans, j);
    }
  }

  lemma FilledIsSound(shard: Shard, desired: seq<Topic>, room: nat, group: Topic -> Group, plan: seq<Topic>)
    requires Filled(shard, desired, room, group, plan)
    ensures |plan| <= room && OneGroup(plan, group)
  {
    assert forall k :: 0 <= k < |plan| ==> plan[k] in plan;
  }

  lemma PlanMovesNothing(shards: seq<Shard>, desired: seq<Topic>, room: nat, group: Topic -> Group, nextIndex: nat,
                         plans: seq<seq<Topic>>, leftover: seq<Topic>, chunks: seq<seq<Topic>>)
    requires Filling(shards, desired, room, group, plans, leftover, |shards|)
    ensures NothingMoves(shards, desired, Staying(shards, plans) + Numbered(chunks, nextIndex))
  {
    var kept := Staying(shards, plans);
    var after := kept + Numbered(chunks, nextIndex);
    forall i, x | 0 <= i < |shards| && x in shards[i].topics && x in desired
      ensures exists j :: 0 <= j < |after| && after[j].index == shards[i].index && x in after[j].topics
    {
      assert Filled(shards[i], desired, room, group, plans[i]);
      var s := Shard(shards[i].index, plans[i]);
      StayingHas(shards, plans, i);
      var j :| 0 <= j < |kept| && kept[j] == s;
      assert after[j] == s;
    }
  }

  /** A connection whose group still has topics left over was filled to the brim, and so stays. */
  lemma BrimStays(shards: seq<Shard>, desired: seq<Topic>, room: nat, group: Topic -> Group,
                  plans: seq<seq<Topic>>, leftover: seq<Topic>, after: seq<Shard>, i: nat, x: Topic)
    requires Filling(shards, desired, room, group, plans, leftover, |shards|) && i < |shards| && room > 0
    requires x in leftover && shards[i].topics != [] && group(x) == group(shards[i].topics[0])
    requires forall j :: 0 <= j < |Staying(shards, plans)| ==> j < |after| && after[j] == Staying(shards, plans)[j]
    ensures StillFull(after, shards[i].index, room)
  {
    assert Filled(shards[i], desired, room, group, plans[i]) && |plans[i]| >= room;
    StayingHas(shards, plans, i);
    var s := Shard(shards[i].index, plans[i]);
    var j :| 0 <= j < |Staying(shards, plans)| && Staying(shards, plans)[j] == s;
    assert after[j] == s;
  }

  lemma PlanOpensWhenFull(shards: seq<Shard>, desired: seq<Topic>, room: nat, group: Topic -> Group, start: nat,
                          nextIndex: nat, plans: seq<seq<Topic>>, leftover: seq<Topic>, chunks: seq<seq<Topic>>)
    requires Filling(shards, desired, room, group, plans, leftover, |shards|) && room > 0
    requires multiset(Flat(chunks)) == multiset(leftover)
    requires start <= nextIndex && forall i :: 0 <= i < |shards| ==> shards[i].index < start
    ensures OpenedOnlyWhenFull(shards, Staying(shards, plans) + Numbered(chunks, nextIndex), room, group, start)
  {
    var kept := Staying(shards, plans);
    var after := kept + Numbered(chunks, nextIndex);
    StayingBelow(shards, plans, start);
    forall i, j | 0 <= i < |shards| && 0 <= j < |after| && NewOfGroup(shards[i], after[j], group, start)
      ensures StillFull(after, shards[i].index, room)
    {
      assert j >= |kept| && after[j].topics == chunks[j - |kept|];
      LeftoverOf(chunks, leftover, j - |kept|);
      BrimStays(shards, desired, room, group, plans, leftover, after, i, after[j].topics[0]);
    }
  }

  lemma LeftoverOf(chunks: seq<seq<Topic>>, leftover: seq<Topic>, c: nat)
    requires multiset(Flat(chunks)) == multiset(leftover) && c < |chunks| && chunks[c] != []
    ensures chunks[c][0] in leftover
  {
    InFlat(chunks, c, chunks[c][0]);
    assert chunks[c][0] in multiset(leftover);
  }

  // ------------------------------------------------------------------- all tiers

  ghost predicate FirstToWant(wanted: seq<seq<Topic>>, t: nat, x: Topic)
    requires t < |wanted|
  {
    x in wanted[t] && forall u :: 0 <= u < t ==> x !in wanted[u]
  }

  /** Each wanted topic is claimed by the first tier that wants it, and once. */
  ghost predicate Claimed(wanted: seq<seq<Topic>>, topics: seq<seq<Topic>>) {
    && |topics| == |wanted|
    && (forall t :: 0 <= t < |wanted| ==> Once(topics[t]))
    && (forall t, x :: 0 <= t < |wanted| ==> (x in topics[t] <==> FirstToWant(wanted, t, x)))
  }

  method ClaimTier(wanted: seq<Topic>, claimed: set<Topic>) returns (mine: seq<Topic>, after: set<Topic>)
    ensures after == claimed + (set x | x in wanted)
    ensures Once(mine) && forall x :: x in mine <==> x in wanted && x !in claimed
  {
    mine, after := [], claimed;
    for k := 0 to |wanted|
      invariant after == claimed + (set x | x in wanted[..k])
      invariant Once(mine) && forall x :: x in mine <==> x in wanted[..k] && x !in claimed
    {
      var t := wanted[k];
      assert wanted[..k + 1] == wanted[..k] + [t];
      if t !in after {
        assert multiset(mine)[t] == 0;
        mine, after := mine + [t], after + {t};
      }
    }
    assert wanted[..|wanted|] == wanted;
  }

  method PlanTopics(wanted: seq<seq<Topic>>) returns (topics: seq<seq<Topic>>)
    ensures Claimed(wanted, topics)
  {
    topics := [];
    var claimed: set<Topic> := {};
    for t := 0 to |wanted|
      invariant Claimed(wanted[..t], topics)
      invariant forall x :: x in claimed <==> exists u :: 0 <= u < t && x in wanted[u]
    {
      var mine, after := ClaimTier(wanted[t], claimed);
      ClaimOne(wanted, t, topics, claimed, mine);
      topics := topics + [mine];
      claimed := after;
    }
    assert wanted[..|wanted|] == wanted;
  }

  lemma ClaimOne(wanted: seq<seq<Topic>>, t: nat, topics: seq<seq<Topic>>, claimed: set<Topic>, mine: seq<Topic>)
    requires t < |wanted| && Claimed(wanted[..t], topics)
    requires forall x :: x in claimed <==> exists u :: 0 <= u < t && x in wanted[u]
    requires Once(mine) && forall x :: x in mine <==> x in wanted[t] && x !in claimed
    ensures Claimed(wanted[..t + 1], topics + [mine])
  {
    forall v, x | 0 <= v < t + 1
      ensures x in (topics + [mine])[v] <==> FirstToWant(wanted[..t + 1], v, x)
    {
      assert FirstToWant(wanted[..t + 1], v, x) == FirstToWant(wanted, v, x);
      if v < t {
        assert x in topics[v] <==> FirstToWant(wanted[..t], v, x);
        assert FirstToWant(wanted[..t], v, x) == FirstToWant(wanted, v, x);
      } else {
        assert x in claimed <==> exists u :: 0 <= u < t && x in wanted[u];
      }
    }
  }

  /** What every tier's connections carry together. */
  ghost function Carried(tiers: seq<seq<Shard>>): seq<Topic> {
    if tiers == [] then [] else Carried(tiers[..|tiers| - 1]) + Flat(Topics(tiers[|tiers| - 1]))
  }

  ghost predicate TiersValid(tiers: seq<seq<Shard>>, topics: seq<seq<Topic>>, room: nat, group: Topic -> Group,
                             nextIndex: nat) {
    && |tiers| == |topics|
    && forall t :: 0 <= t < |tiers| ==> TierValid(tiers[t], topics[t], room, group, nextIndex)
  }

  lemma ClaimedBefore(wanted: seq<seq<Topic>>, topics: seq<seq<Topic>>, n: nat)
    requires Claimed(wanted, topics) && n <= |wanted|
    ensures Claimed(wanted[..n], topics[..n])
  {
    forall t, y | 0 <= t < n
      ensures y in topics[..n][t] <==> FirstToWant(wanted[..n], t, y)
    {
      assert y in topics[t] <==> FirstToWant(wanted, t, y);
    }
  }

  ghost predicate WantedBy(wanted: seq<seq<Topic>>, n: nat, x: Topic)
    requires n <= |wanted|
  {
    exists t :: 0 <= t < n && x in wanted[t]
  }

  /** Across all tiers, a topic someone wants is on exactly one connection, and no other topic is on any. */
  lemma {:induction false} CarriedExactlyOnce(tiers: seq<seq<Shard>>, wanted: seq<seq<Topic>>,
                                              topics: seq<seq<Topic>>, room: nat, group: Topic -> Group,
                                              nextIndex: nat, x: Topic)
    requires TiersValid(tiers, topics, room, group, nextIndex) && Claimed(wanted, topics)
    ensures multiset(Carried(tiers))[x] == if WantedBy(wanted, |wanted|, x) then 1 else 0
  {
    if tiers != [] {
      var n := |tiers| - 1;
      ClaimedBefore(wanted, topics, n);
      CarriedExactlyOnce(tiers[..n], wanted[..n], topics[..n], room, group, nextIndex, x);
      assert WantedBy(wanted[..n], n, x) == WantedBy(wanted, n, x);
      CarriedByLast(tiers[n], wanted, topics, room, group, nextIndex, x);
    }
  }

  lemma CarriedByLast(shards: seq<Shard>, wanted: seq<seq<Topic>>, topics: seq<seq<Topic>>, room: nat,
                      group: Topic -> Group, nextIndex: nat, x: Topic)
    requires wanted != [] && Claimed(wanted, topics) && TierValid(shards, topics[|topics| - 1], room, group, nextIndex)
    ensures multiset(Flat(Topics(shards)))[x]
            == if WantedBy(wanted, |wanted|, x) && !WantedBy(wanted, |wanted| - 1, x) then 1 else 0
  {
    var n := |wanted| - 1;
    assert multiset(topics[n])[x] <= 1;
    assert x in topics[n] <==> multiset(topics[n])[x] > 0;
    assert x in topics[n] <==> FirstToWant(wanted, n, x);
  }

  /** The recorder's connections, tier by tier. */
  class Recorder {
    const room: nat
    const group: Topic -> Group
    var tiers: seq<seq<Shard>>
    var nextIndex: nat
    ghost var planned: seq<seq<Topic>>

    ghost predicate Valid() reads this {
      room > 0 && TiersValid(tiers, planned, room, group, nextIndex)
    }

    constructor (count: nat, room: nat, group: Topic -> Group)
      requires room > 0
      ensures Valid() && |tiers| == count && Carried(tiers) == []
    {
      this.room, this.group, nextIndex := room, group, 0;
      tiers := seq(count, _ => []);
      planned := seq(count, _ => []);
      new;
      NothingCarried(tiers);
    }

    /** Move to what the tiers now want. A topic wanted before and after by the same tier keeps its
        connection; a connection is opened only when every older one of its group in that tier is full. */
    method Replan(wanted: seq<seq<Topic>>)
      requires Valid() && |wanted| == |tiers|
      modifies this
      ensures Valid() && Claimed(wanted, planned)
      ensures forall t :: 0 <= t < |tiers| ==> NothingMoves(old(tiers)[t], planned[t], tiers[t])
      ensures forall t :: 0 <= t < |tiers| ==> OpenedOnlyWhenFull(old(tiers)[t], tiers[t], room, group, old(nextIndex))
    {
      var topics := PlanTopics(wanted);
      var after, next := ReconcileTiers(tiers, topics, room, group, nextIndex, planned);
      tiers, nextIndex, planned := after, next, topics;
    }
  }

  lemma {:induction false} NothingCarried(tiers: seq<seq<Shard>>)
    requires forall t :: 0 <= t < |tiers| ==> tiers[t] == []
    ensures Carried(tiers) == []
  {
    if tiers != [] {
      NothingCarried(tiers[..|tiers| - 1]);
      assert Topics([]) == [];
    }
  }

  lemma LaterIndex(shards: seq<Shard>, desired: seq<Topic>, room: nat, group: Topic -> Group, nextIndex: nat,
                   later: nat)
    requires TierValid(shards, desired, room, group, nextIndex) && nextIndex <= later
    ensures TierValid(shards, desired, room, group, later)
  {
  }

  method ReconcileTiers(tiers: seq<seq<Shard>>, topics: seq<seq<Topic>>, room: nat, group: Topic -> Group,
                        nextIndex: nat, ghost before: seq<seq<Topic>>)
    returns (after: seq<seq<Shard>>, next: nat)
    requires TiersValid(tiers, before, room, group, nextIndex) && |topics| == |tiers| && room > 0
    requires forall t :: 0 <= t < |topics| ==> Once(topics[t])
    ensures TiersValid(after, topics, room, group, next)
    ensures forall t :: 0 <= t < |after| ==> NothingMoves(tiers[t], topics[t], after[t])
    ensures forall t :: 0 <= t < |after| ==> OpenedOnlyWhenFull(tiers[t], after[t], room, group, nextIndex)
  {
    after, next := [], nextIndex;
    for t := 0 to |tiers|
      invariant nextIndex <= next && |after| == t
      invariant forall u :: 0 <= u < t ==> Reconciled(tiers, topics, after, u, room, group, nextIndex, next)
    {
      var shards, later := ReconcileTier(tiers[t], topics[t], room, group, next, before[t], nextIndex);
      ReconciledMore(tiers, topics, after, shards, room, group, nextIndex, next, later);
      after, next := after + [shards], later;
    }
    forall t | 0 <= t < |tiers|
      ensures TierValid(after[t], topics[t], room, group, next) && NothingMoves(tiers[t], topics[t], after[t])
              && OpenedOnlyWhenFull(tiers[t], after[t], room, group, nextIndex)
    {
      assert Reconciled(tiers, topics, after, t, room, group, nextIndex, next);
    }
  }

  /** Tier `u` carries what it should, nothing moved, and what opened had to. */
  ghost predicate Reconciled(tiers: seq<seq<Shard>>, topics: seq<seq<Topic>>, after: seq<seq<Shard>>, u: int,
                             room: nat, group: Topic -> Group, start: nat, next: nat)
    requires 0 <= u < |after| <= |tiers| == |topics|
  {
    && TierValid(after[u], topics[u], room, group, next) && NothingMoves(tiers[u], topics[u], after[u])
    && OpenedOnlyWhenFull(tiers[u], after[u], room, group, start)
  }

  lemma ReconciledMore(tiers: seq<seq<Shard>>, topics: seq<seq<Topic>>, after: seq<seq<Shard>>, shards: seq<Shard>,
                       room: nat, group: Topic -> Group, start: nat, next: nat, later: nat)
    requires |after| < |tiers| == |topics| && next <= later
    requires forall u :: 0 <= u < |after| ==> Reconciled(tiers, topics, after, u, room, group, start, next)
    requires TierValid(shards, topics[|after|], room, group, later)
             && NothingMoves(tiers[|after|], topics[|after|], shards)
    requires OpenedOnlyWhenFull(tiers[|after|], shards, room, group, start)
    ensures forall u :: 0 <= u < |after| + 1 ==>
              Reconciled(tiers, topics, after + [shards], u, room, group, start, later)
  {
    var more := after + [shards];
    forall u | 0 <= u < |more| ensures Reconciled(tiers, topics, more, u, room, group, start, later) {
      if u < |after| {
        assert Reconciled(tiers, topics, after, u, room, group, start, next) && more[u] == after[u];
        LaterIndex(after[u], topics[u], room, group, next, later);
      }
    }
  }
}
