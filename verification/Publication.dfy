/** Publishing a staged dataset pair over the live one (liquidity_migration/data/binance_vision.py).

    A disk is the trees under the data root, the staging, backup and quarantine directories of one
    build, and the durable marker. A rename may work, fail, or work and be interrupted before the
    program notes it; `trace` keeps every disk the build passes through, so a kill at any point
    leaves one of its elements. */
module Publication {
  import opened Options

  type Tree = nat

  datatype Place = Live | Staging | Backup | Quarantine

  datatype Loc = Loc(place: Place, dataset: string)

  /** `verified`: the pair now live has passed the check that follows publication. */
  datatype Disk = Disk(trees: map<Loc, Tree>, marker: bool, verified: bool)

  datatype Fault = Fine | Before | After

  datatype Outcome = Refused | Published | RolledBack | Incomplete

  function At(trees: map<Loc, Tree>, place: Place, d: string): Option<Tree> {
    if Loc(place, d) in trees then Some(trees[Loc(place, d)]) else None
  }

  /** The two datasets that move together. */
  const DATASETS: seq<string> := ["klines_1h", "archive_trade_manifest"]

  ghost predicate Dataset(d: string) { d in DATASETS }

  /** Every dataset at `place` in `a` is what `from` holds of it in `b`. */
  ghost predicate SamePair(a: map<Loc, Tree>, place: Place, b: map<Loc, Tree>, from: Place) {
    forall d :: Dataset(d) ==> At(a, place, d) == At(b, from, d)
  }

  /** What was live is live still or in the backup. */
  ghost predicate Kept(start: map<Loc, Tree>, trees: map<Loc, Tree>, d: string) {
    At(start, Live, d).Some? ==>
      At(trees, Live, d) == At(start, Live, d) || At(trees, Backup, d) == At(start, Live, d)
  }

  /** The promise for a disk left by a build that started from `start`: unmarked it is one whole
      generation, a new one only verified; marked, nothing of the old one is lost. */
  ghost predicate CrashSafe(start: map<Loc, Tree>, disk: Disk) {
    && (!disk.marker ==>
          || SamePair(disk.trees, Live, start, Live)
          || (disk.verified && SamePair(disk.trees, Live, start, Staging)))
    && (disk.marker ==> forall d :: Dataset(d) ==> Kept(start, disk.trees, d))
  }

  ghost predicate AllCrashSafe(start: map<Loc, Tree>, trace: seq<Disk>, since: nat) {
    forall i :: since <= i < |trace| ==> CrashSafe(start, trace[i])
  }

  lemma CrashSafeOn(start: map<Loc, Tree>, so: seq<Disk>, trace: seq<Disk>, since: nat)
    requires so <= trace && AllCrashSafe(start, so, since) && AllCrashSafe(start, trace, |so|)
    ensures AllCrashSafe(start, trace, since)
  {
    forall i | since <= i < |trace| ensures CrashSafe(start, trace[i]) {
      if i < |so| { assert trace[i] == so[i]; }
    }
  }

  function Moved(trees: map<Loc, Tree>, src: Loc, dst: Loc): map<Loc, Tree>
    requires src in trees
  {
    (trees - {src})[dst := trees[src]]
  }

  lemma MovedAt(trees: map<Loc, Tree>, src: Loc, dst: Loc)
    requires src in trees && dst !in trees
    ensures forall p, d :: At(Moved(trees, src, dst), p, d) ==
              if Loc(p, d) == dst then Some(trees[src]) else if Loc(p, d) == src then None else At(trees, p, d)
  {
  }

  lemma OneMore(i: nat)
    requires i < |DATASETS|
    ensures DATASETS[i] !in DATASETS[..i]
    ensures forall d :: d in DATASETS[..i + 1] <==> d in DATASETS[..i] || d == DATASETS[i]
  {
    assert DATASETS[0] != DATASETS[1] by { assert |DATASETS[0]| != |DATASETS[1]|; }
    assert DATASETS[..i + 1] == DATASETS[..i] + [DATASETS[i]];
  }

  /** Where one dataset may stand while the new pair goes in. */
  ghost predicate Standing(start: map<Loc, Tree>, trees: map<Loc, Tree>, backedUp: seq<string>,
                           published: seq<string>, d: string) {
    var live, backup := At(trees, Live, d), At(trees, Backup, d);
    var prior, staged := At(start, Live, d), At(start, Staging, d);
    && (d in published ==> live == staged && staged.Some?)
    && if prior.Some? then
         || (live == prior && backup.None? && d !in backedUp && d !in published)
         || (live.None? && backup == prior)
         || (live == staged && staged.Some? && backup == prior && d in backedUp)
       else
         && backup.None? && d !in backedUp
         && (live.None? || live == staged)
  }

  /** The first `i` datasets are in the backup, or were not there; the others stand as they did. */
  ghost predicate BackingUp(start: map<Loc, Tree>, trees: map<Loc, Tree>, backedUp: seq<string>, i: nat)
    requires i <= |DATASETS|
  {
    && (forall d :: d in backedUp <==> d in DATASETS[..i] && At(start, Live, d).Some?)
    && (forall d :: Dataset(d) ==> Standing(start, trees, backedUp, [], d) && Kept(start, trees, d))
    && (forall d :: d in DATASETS[..i] ==> At(trees, Live, d).None?)
    && (forall d :: Dataset(d) && d !in DATASETS[..i] ==>
          At(trees, Live, d) == At(start, Live, d) && At(trees, Backup, d).None?)
    && (forall d :: At(trees, Quarantine, d).None? && At(trees, Staging, d) == At(start, Staging, d))
  }

  lemma BackOne(start: map<Loc, Tree>, trees: map<Loc, Tree>, backedUp: seq<string>, i: nat)
    requires i < |DATASETS| && BackingUp(start, trees, backedUp, i) && Loc(Live, DATASETS[i]) in trees
    ensures var d := DATASETS[i];
            var after := Moved(trees, Loc(Live, d), Loc(Backup, d));
            && Loc(Backup, d) !in trees
            && BackingUp(start, after, backedUp + [d], i + 1)
            && (forall e :: Dataset(e) ==> Standing(start, after, backedUp, [], e))
  {
    var d := DATASETS[i];
    OneMore(i);
    assert Dataset(d) && At(trees, Backup, d).None?;
    MovedAt(trees, Loc(Live, d), Loc(Backup, d));
  }

  lemma BackNone(start: map<Loc, Tree>, trees: map<Loc, Tree>, backedUp: seq<string>, i: nat)
    requires i < |DATASETS| && BackingUp(start, trees, backedUp, i) && Loc(Live, DATASETS[i]) !in trees
    ensures BackingUp(start, trees, backedUp, i + 1)
  {
    OneMore(i);
    assert Dataset(DATASETS[i]);
  }

  class Root {
    var trees: map<Loc, Tree>
    var marker: bool
    var verified: bool
    var renames: nat
    const fault: nat -> Fault
    ghost var trace: seq<Disk>

    constructor (trees: map<Loc, Tree>, marker: bool, fault: nat -> Fault)
      ensures this.trees == trees && this.marker == marker && this.fault == fault && trace == []
    {
      this.trees, this.marker, this.fault := trees, marker, fault;
      verified, renames, trace := false, 0, [];
    }

    /** Move a tree, refusing to replace one. */
    method Rename(src: Loc, dst: Loc) returns (how: Fault)
      modifies this
      ensures marker == old(marker) && verified == old(verified)
      ensures how == Before ==> trees == old(trees)
      ensures how != Before ==> src in old(trees) && dst !in old(trees) && trees == Moved(old(trees), src, dst)
      ensures trace == old(trace) + [Disk(trees, marker, verified)]
    {
      how := fault(renames);
      renames := renames + 1;
      if dst in trees || src !in trees {
        how := Before;
      }
      if how != Before {
        trees := Moved(trees, src, dst);
      }
      trace := trace + [Disk(trees, marker, verified)];
    }

    /** Move what is live into the backup; false when a rename failed or was interrupted. */
    method BackUp(ghost start: map<Loc, Tree>) returns (ok: bool, backedUp: seq<string>)
      requires trees == start && marker
      requires forall d :: At(start, Backup, d).None? && At(start, Quarantine, d).None?
      modifies this
      ensures marker && verified == old(verified)
      ensures forall d :: Dataset(d) ==> Standing(start, trees, backedUp, [], d)
      ensures forall d :: At(trees, Quarantine, d).None? && At(trees, Staging, d) == At(start, Staging, d)
      ensures forall d :: d in backedUp ==> Dataset(d)
      ensures ok ==> forall d :: Dataset(d) ==> At(trees, Live, d).None? && (At(start, Live, d).Some? ==> d in backedUp)
      ensures old(trace) <= trace && AllCrashSafe(start, trace, |old(trace)|)
    {
      backedUp, ok := [], false;
      for i := 0 to |DATASETS|
        invariant marker && verified == old(verified) && BackingUp(start, trees, backedUp, i)
        invariant old(trace) <= trace && AllCrashSafe(start, trace, |old(trace)|)
      {
        var d := DATASETS[i];
        if Loc(Live, d) in trees {
          BackOne(start, trees, backedUp, i);
          var how := Rename(Loc(Live, d), Loc(Backup, d));
          if how != Fine { return; }
          backedUp := backedUp + [d];
        } else {
          BackNone(start, trees, backedUp, i);
        }
      }
      ok := true;
    }

    /** Move the staged pair in where the live one was. */
    method PutIn(ghost start: map<Loc, Tree>, ghost backedUp: seq<string>) returns (ok: bool, published: seq<string>)
      requires marker
      requires forall d :: Dataset(d) ==> Standing(start, trees, backedUp, [], d)
      requires forall d :: At(trees, Quarantine, d).None? && At(trees, Staging, d) == At(start, Staging, d)
      requires forall d :: Dataset(d) ==> At(trees, Live, d).None? && (At(start, Live, d).Some? ==> d in backedUp)
      modifies this
      ensures marker && verified == old(verified)
      ensures forall d :: Dataset(d) ==> Standing(start, trees, backedUp, published, d)
      ensures forall d :: At(trees, Quarantine, d).None?
      ensures forall d :: d in published ==> Dataset(d)
      ensures ok ==> SamePair(trees, Live, start, Staging)
      ensures old(trace) <= trace && AllCrashSafe(start, trace, |old(trace)|)
    {
      published, ok := [], false;
      for i := 0 to |DATASETS|
        invariant marker && verified == old(verified)
        invariant forall d :: d in published <==> d in DATASETS[..i]
        invariant forall d :: Dataset(d) ==> Standing(start, trees, backedUp, published, d)
        invariant forall d :: Dataset(d) && d !in DATASETS[..i] ==>
                    At(trees, Live, d).None? && At(trees, Staging, d) == At(start, Staging, d)
        invariant forall d :: At(trees, Quarantine, d).None?
        invariant old(trace) <= trace && AllCrashSafe(start, trace, |old(trace)|)
      {
        var d := DATASETS[i];
        OneMore(i);
        if Loc(Staging, d) !in trees { return; }
        ghost var was := trees;
        var how := Rename(Loc(Staging, d), Loc(Live, d));
        if how != Before { MovedAt(was, Loc(Staging, d), Loc(Live, d)); }
        if how != Fine { return; }
        published := published + [d];
      }
      ok := true;
    }

    /** Quarantine the new trees that went live, last first: `ok` when all moved, `cut` when interrupted. */
    method TakeOut(ghost start: map<Loc, Tree>, published: seq<string>) returns (ok: bool, cut: bool)
      requires marker && (forall d :: Dataset(d) ==> Kept(start, trees, d))
      requires forall d :: d in published ==>
                 Dataset(d) && (At(start, Live, d).Some? ==> At(trees, Backup, d) == At(start, Live, d))
      modifies this
      ensures marker && verified == old(verified)
      ensures forall d :: At(trees, Backup, d) == At(old(trees), Backup, d)
      ensures forall d :: At(trees, Live, d) == At(old(trees), Live, d) || (At(trees, Live, d).None? && d in published)
      ensures ok ==> forall d :: d in published ==> At(trees, Live, d).None?
      ensures forall d :: Dataset(d) ==> Kept(start, trees, d)
      ensures old(trace) <= trace && AllCrashSafe(start, trace, |old(trace)|)
    {
      ok, cut := true, false;
      var i := |published|;
      while i > 0
        invariant 0 <= i <= |published|
        invariant marker && verified == old(verified)
        invariant forall d :: At(trees, Backup, d) == At(old(trees), Backup, d)
        invariant forall d ::
                    At(trees, Live, d) == At(old(trees), Live, d)
                    || (At(trees, Live, d).None? && d in published[i..])
        invariant ok ==> forall d :: d in published[i..] ==> At(trees, Live, d).None?
        invariant forall d :: Dataset(d) ==> Kept(start, trees, d)
        invariant old(trace) <= trace && AllCrashSafe(start, trace, |old(trace)|)
      {
        i := i - 1;
        var d := published[i];
        assert published[i..] == [d] + published[i + 1..];
        if Loc(Live, d) in trees {
          ghost var before := trees;
          var how := Rename(Loc(Live, d), Loc(Quarantine, d));
          if how != Before { MovedAt(before, Loc(Live, d), Loc(Quarantine, d)); }
          if how == After { return false, true; }
          if how == Before { ok := false; }
        }
      }
      assert published[0..] == published;
    }

    /** Move the backed-up trees home, last first. */
    method PutBack(ghost start: map<Loc, Tree>, backedUp: seq<string>) returns (ok: bool, cut: bool)
      requires marker && (forall d :: Dataset(d) ==> Kept(start, trees, d))
      requires forall d :: d in backedUp ==>
                 Dataset(d) && At(start, Live, d).Some? && At(trees, Backup, d) == At(start, Live, d)
      modifies this
      ensures marker && verified == old(verified)
      ensures forall d :: At(trees, Live, d) == At(old(trees), Live, d) || d in backedUp
      ensures ok ==> forall d :: d in backedUp ==> At(trees, Live, d) == At(start, Live, d)
      ensures forall d :: Dataset(d) ==> Kept(start, trees, d)
      ensures old(trace) <= trace && AllCrashSafe(start, trace, |old(trace)|)
    {
      ok, cut := true, false;
      var i := |backedUp|;
      while i > 0
        invariant 0 <= i <= |backedUp|
        invariant marker && verified == old(verified)
        invariant forall d :: At(trees, Live, d) == At(old(trees), Live, d) || d in backedUp
        invariant forall d :: d in backedUp ==>
                    At(trees, Backup, d) == At(start, Live, d) || At(trees, Live, d) == At(start, Live, d)
        invariant ok ==> forall d :: d in backedUp[i..] ==> At(trees, Live, d) == At(start, Live, d)
        invariant forall d :: Dataset(d) ==> Kept(start, trees, d)
        invariant old(trace) <= trace && AllCrashSafe(start, trace, |old(trace)|)
      {
        i := i - 1;
        var d := backedUp[i];
        assert d in backedUp;
        assert backedUp[i..] == [d] + backedUp[i + 1..];
        if Loc(Backup, d) in trees {
          ghost var before := trees;
          var how := Rename(Loc(Backup, d), Loc(Live, d));
          if how != Before { MovedAt(before, Loc(Backup, d), Loc(Live, d)); }
          if how == After { return false, true; }
          if how == Before { ok := false; }
        }
      }
      assert backedUp[0..] == backedUp;
    }

    /** Is exactly what was present before present now? */
    method PresenceHolds(present: set<string>) returns (ok: bool)
      ensures ok <==> forall d :: Dataset(d) ==> (At(trees, Live, d).Some? <==> d in present)
    {
      ok := true;
      for k := 0 to |DATASETS|
        invariant ok <==> forall d :: d in DATASETS[..k] ==> (At(trees, Live, d).Some? <==> d in present)
      {
        OneMore(k);
        if (Loc(Live, DATASETS[k]) in trees) != (DATASETS[k] in present) { ok := false; }
      }
    }

    /** Take the new pair out again and put the old one back; true is a rollback without an error. */
    method Rollback(ghost start: map<Loc, Tree>, present: set<string>, backedUp: seq<string>, published: seq<string>)
      returns (ok: bool)
      requires forall d :: d in present <==> Dataset(d) && At(start, Live, d).Some?
      requires marker
      requires forall d :: Dataset(d) ==> Standing(start, trees, backedUp, published, d)
      requires forall d :: d in backedUp || d in published ==> Dataset(d)
      modifies this
      ensures marker && verified == old(verified)
      ensures ok ==> SamePair(trees, Live, start, Live)
      ensures forall d :: Dataset(d) ==> Kept(start, trees, d)
      ensures old(trace) <= trace && AllCrashSafe(start, trace, |old(trace)|)
    {
      ghost var was := trees;
      var out, cut := TakeOut(start, published);
      if cut { return false; }
      var back;
      back, cut := PutBack(start, backedUp);
      if cut { return false; }
      var there := PresenceHolds(present);
      ok := out && back && there;
      if ok {
        forall d | Dataset(d)
          ensures At(trees, Live, d) == At(start, Live, d)
        {
          assert Standing(start, was, backedUp, published, d);
        }
      }
    }

    ghost function Now(): Disk
      reads this
    {
      Disk(trees, marker, verified)
    }

    method MarkVerified()
      modifies this
      ensures trees == old(trees) && marker == old(marker) && verified
      ensures trace == old(trace) + [Now()]
    {
      verified := true;
      trace := trace + [Disk(trees, marker, verified)];
    }

    method SetMarker(on: bool)
      modifies this
      ensures trees == old(trees) && verified == old(verified) && marker == on
      ensures trace == old(trace) + [Now()]
    {
      marker := on;
      trace := trace + [Disk(trees, marker, verified)];
    }

    /** Back the live pair up and move the staged one in. */
    method MoveIn(ghost start: map<Loc, Tree>) returns (ok: bool, backedUp: seq<string>, published: seq<string>)
      requires trees == start && marker
      requires forall d :: At(start, Backup, d).None? && At(start, Quarantine, d).None?
      modifies this
      ensures marker && verified == old(verified)
      ensures forall d :: Dataset(d) ==> Standing(start, trees, backedUp, published, d)
      ensures forall d :: d in backedUp || d in published ==> Dataset(d)
      ensures ok ==> SamePair(trees, Live, start, Staging)
      ensures old(trace) <= trace && AllCrashSafe(start, trace, |old(trace)|)
    {
      published := [];
      ok, backedUp := BackUp(start);
      if ok {
        ghost var so := trace;
        ok, published := PutIn(start, backedUp);
        CrashSafeOn(start, so, trace, |old(trace)|);
      }
    }

    /** Publish the staged pair. `passes` is the verdict of the check after publication and
        `synced` whether the directories could be flushed before the marker goes. */
    method Publish(passes: bool, synced: bool) returns (outcome: Outcome)
      requires forall d :: At(trees, Backup, d).None? && At(trees, Quarantine, d).None?
      modifies this
      ensures outcome == Refused <==> old(marker)
      ensures outcome == Refused ==> Now() == old(Now()) && trace == old(trace)
      ensures outcome == Published ==> !marker && verified && passes && SamePair(trees, Live, old(trees), Staging)
      ensures outcome == RolledBack ==> !marker && SamePair(trees, Live, old(trees), Live)
      ensures outcome == Incomplete ==> marker
      ensures old(trace) <= trace && AllCrashSafe(old(trees), trace, |old(trace)|)
      ensures !old(marker) ==> CrashSafe(old(trees), Now())
    {
      if marker { return Refused; }
      ghost var start := trees;
      var present := set d | d in DATASETS && Loc(Live, d) in trees;
      verified := false;
      SetMarker(true);
      var ok, backedUp, published := MoveIn(start);
      if ok && passes {
        MarkVerified();
        if !synced { return Incomplete; }
        SetMarker(false);
        return Published;
      }
      ok := Rollback(start, present, backedUp, published);
      if !ok || !synced { return Incomplete; }
      SetMarker(false);
      return RolledBack;
    }

    /** Remove every tree outside the data root, one at a time; each removal leaves a disk. */
    method Clear()
      modifies this
      ensures trees == StartOf(old(trees), map[]) && marker == old(marker) && verified == old(verified)
      ensures old(trace) <= trace && AllLike(old(Now()), trace, |old(trace)|)
    {
      ghost var base, first := trees, Now();
      var todo := set l | l in trees && l.place != Live;
      assert Cleared(base, todo) == base;
      while todo != {}
        invariant marker == first.marker && verified == first.verified && trees == Cleared(base, todo)
        invariant forall l :: l in todo ==> l in base && l.place != Live
        invariant old(trace) <= trace && AllLike(first, trace, |old(trace)|)
        decreases |todo|
      {
        var l :| l in todo;
        RemoveTree(l, base, todo, first);
        todo := todo - {l};
      }
      assert Cleared(base, {}) == StartOf(base, map[]);
    }

    method RemoveTree(l: Loc, ghost base: map<Loc, Tree>, ghost todo: set<Loc>, ghost first: Disk)
      requires trees == Cleared(base, todo) && l in todo && first == Disk(base, marker, verified)
      requires l in base && l.place != Live
      modifies this
      ensures trees == Cleared(base, todo - {l}) && marker == old(marker) && verified == old(verified)
      ensures trace == old(trace) + [Now()] && Like(first, Now())
    {
      trees := trees - {l};
      assert trees == Cleared(base, todo - {l});
      trace := trace + [Disk(trees, marker, verified)];
    }

    /** Build the staged trees, one at a time. */
    method Stage(staged: map<Loc, Tree>)
      requires trees == StartOf(trees, map[])
      modifies this
      ensures trees == StartOf(old(trees), staged) && marker == old(marker) && verified == old(verified)
      ensures old(trace) <= trace && AllLike(old(Now()), trace, |old(trace)|)
    {
      ghost var base, first := trees, Now();
      var todo := set l | l in staged && l.place == Staging;
      assert StartOf(base, Done(staged, todo)) == StartOf(base, map[]);
      while todo != {}
        invariant marker == first.marker && verified == first.verified && trees == StartOf(base, Done(staged, todo))
        invariant todo <= staged.Keys && (forall l :: l in todo ==> l.place == Staging)
        invariant old(trace) <= trace && AllLike(first, trace, |old(trace)|)
        decreases |todo|
      {
        var l :| l in todo;
        StageMore(base, staged, todo, l);
        StageTree(l, staged[l], base, Done(staged, todo - {l}), first);
        todo := todo - {l};
      }
      assert Done(staged, {}) == staged;
    }

    method StageTree(l: Loc, tree: Tree, ghost base: map<Loc, Tree>, ghost done: map<Loc, Tree>, ghost first: Disk)
      requires trees[l := tree] == StartOf(base, done) && first == Disk(base, marker, verified)
      modifies this
      ensures trees == StartOf(base, done) && marker == old(marker) && verified == old(verified)
      ensures trace == old(trace) + [Now()] && Like(first, Now())
    {
      trees := trees[l := tree];
      StartKeepsLive(base, done);
      trace := trace + [Disk(trees, marker, verified)];
    }

    /** One build: refuse on a marker, start from fresh directories, stage, publish, and clear this build's
        directories unless the marker says they may be needed. `staged` is what staging built, `complete`
        whether it got through. */
    method Build(staged: map<Loc, Tree>, complete: bool, passes: bool, synced: bool) returns (outcome: Outcome)
      modifies this
      ensures old(marker) ==> outcome == Refused && Now() == old(Now()) && trace == old(trace)
      ensures outcome == Published ==>
                complete && passes && !marker && SamePair(trees, Live, StartOf(old(trees), staged), Staging)
      ensures outcome == RolledBack || (outcome == Refused && !old(marker)) ==>
                !marker && SamePair(trees, Live, old(trees), Live)
      ensures outcome == Incomplete ==> marker
      ensures old(trace) <= trace && AllLegs(old(Now()), staged, trace, |old(trace)|)
      ensures Leg(old(Now()), staged, Now())
    {
      if marker { return Refused; }
      ghost var first := Now();
      StartKeepsLive(trees, staged);
      StartKeepsLive(trees, map[]);
      StartTwice(trees, map[]);
      StartTwice(trees, staged);
      // The sweep and the per-run tokens: this build sees only the live trees.
      Clear();
      Stage(staged);
      LikeIsLeg(first, staged, trace, |old(trace)|);
      if complete {
        outcome := PublishStaged(passes, synced, first, staged, |old(trace)|);
      } else {
        outcome := Refused;
      }
      ghost var left, since := Now(), |trace|;
      if !marker {
        StartKeepsLive(trees, map[]);
        Clear();
        LegsMore(first, staged, trace, |old(trace)|, since, left);
      }
    }

    /** `Publish`, told from the disk the build began with. */
    method PublishStaged(passes: bool, synced: bool, ghost first: Disk, ghost staged: map<Loc, Tree>, ghost since: nat)
      returns (outcome: Outcome)
      requires !first.marker && !marker && trees == StartOf(first.trees, staged)
      requires since <= |trace| && AllLegs(first, staged, trace, since)
      modifies this
      ensures outcome != Refused
      ensures outcome == Published ==> !marker && passes && SamePair(trees, Live, StartOf(first.trees, staged), Staging)
      ensures outcome == RolledBack ==> !marker && SamePair(trees, Live, first.trees, Live)
      ensures outcome == Incomplete ==> marker
      ensures old(trace) <= trace && AllLegs(first, staged, trace, since) && Leg(first, staged, Now())
    {
      StartKeepsLive(first.trees, staged);
      outcome := Publish(passes, synced);
    }
  }

  /** Live trees, and `staged` in the staging directory. */
  function StartOf(trees: map<Loc, Tree>, staged: map<Loc, Tree>): map<Loc, Tree> {
    (map l | l in trees && l.place == Live :: trees[l]) + (map l | l in staged && l.place == Staging :: staged[l])
  }

  lemma StartAt(trees: map<Loc, Tree>, staged: map<Loc, Tree>, d: string)
    ensures At(StartOf(trees, staged), Live, d) == At(trees, Live, d)
    ensures At(StartOf(trees, staged), Staging, d) == At(staged, Staging, d)
    ensures At(StartOf(trees, staged), Backup, d).None? && At(StartOf(trees, staged), Quarantine, d).None?
  {
  }

  lemma StartKeepsLive(trees: map<Loc, Tree>, staged: map<Loc, Tree>)
    ensures forall d :: At(StartOf(trees, staged), Live, d) == At(trees, Live, d)
    ensures forall d :: At(StartOf(trees, staged), Staging, d) == At(staged, Staging, d)
    ensures forall d :: At(StartOf(trees, staged), Backup, d).None? && At(StartOf(trees, staged), Quarantine, d).None?
  {
    forall d { StartAt(trees, staged, d); }
  }

  lemma StartTwice(trees: map<Loc, Tree>, staged: map<Loc, Tree>)
    ensures StartOf(StartOf(trees, map[]), staged) == StartOf(trees, staged)
  {
  }

  /** What one build, finished, failed or killed anywhere, may make of a disk. */
  ghost predicate Leg(a: Disk, staged: map<Loc, Tree>, b: Disk) {
    if a.marker then b == a else CrashSafe(StartOf(a.trees, staged), b)
  }

  ghost predicate AllLegs(a: Disk, staged: map<Loc, Tree>, trace: seq<Disk>, since: nat) {
    forall i :: since <= i < |trace| ==> Leg(a, staged, trace[i])
  }

  /** Only trees outside the data root differ. */
  ghost predicate Like(a: Disk, b: Disk) {
    && b.marker == a.marker && b.verified == a.verified
    && forall d :: At(b.trees, Live, d) == At(a.trees, Live, d)
  }

  ghost predicate AllLike(a: Disk, trace: seq<Disk>, since: nat) {
    forall i :: since <= i < |trace| ==> Like(a, trace[i])
  }

  /** The trees when, of those outside the data root, only `todo` are still there. */
  function Cleared(trees: map<Loc, Tree>, todo: set<Loc>): map<Loc, Tree> {
    map l | l in trees && (l.place == Live || l in todo) :: trees[l]
  }

  /** The staged trees built when `todo` are still to do. */
  function Done(staged: map<Loc, Tree>, todo: set<Loc>): map<Loc, Tree> {
    map l | l in staged && l !in todo :: staged[l]
  }

  lemma StageMore(trees: map<Loc, Tree>, staged: map<Loc, Tree>, todo: set<Loc>, l: Loc)
    requires l in todo && l in staged && l.place == Staging
    ensures StartOf(trees, Done(staged, todo))[l := staged[l]] == StartOf(trees, Done(staged, todo - {l}))
  {
  }

  /** A disk with the same live trees, unmarked, is what the build began with. */
  lemma LikeIsLeg(a: Disk, staged: map<Loc, Tree>, trace: seq<Disk>, since: nat)
    requires !a.marker && AllLike(a, trace, since)
    ensures AllLegs(a, staged, trace, since)
  {
    StartKeepsLive(a.trees, staged);
  }

  /** Clearing after the end keeps the promise the end kept. */
  lemma LegsMore(a: Disk, staged: map<Loc, Tree>, trace: seq<Disk>, since: nat, from: nat, left: Disk)
    requires !a.marker && !left.marker && Leg(a, staged, left) && since <= from <= |trace|
    requires AllLegs(a, staged, trace[..from], since) && AllLike(left, trace, from)
    ensures AllLegs(a, staged, trace, since)
  {
    forall i | since <= i < |trace| ensures Leg(a, staged, trace[i]) {
      if i < from { assert trace[i] == trace[..from][i]; } else { assert Like(left, trace[i]); }
    }
  }

  // --------------------------------------------------------- any number of builds

  /** Generation `k`: the pair live at the beginning, or the one build `k - 1` staged. */
  ghost function Generation(first: Disk, builds: seq<map<Loc, Tree>>, k: nat, d: string): Option<Tree>
    requires k <= |builds|
  {
    if k == 0 then At(first.trees, Live, d)
    else At(builds[k - 1], Staging, d)
  }

  /** Unmarked, the live pair is one generation whole; marked, one generation whole is still there,
      each of its trees live or in the backup. */
  ghost predicate Whole(first: Disk, builds: seq<map<Loc, Tree>>, k: nat, disk: Disk)
    requires k <= |builds|
  {
    forall d :: Dataset(d) ==>
      var g := Generation(first, builds, k, d);
      if disk.marker then g.Some? ==> At(disk.trees, Live, d) == g || At(disk.trees, Backup, d) == g
      else At(disk.trees, Live, d) == g
  }

  ghost predicate BuildAt(disks: seq<Disk>, builds: seq<map<Loc, Tree>>, k: nat)
    requires |disks| == |builds| + 1 && k < |builds|
  {
    Leg(disks[k], builds[k], disks[k + 1])
  }

  ghost predicate SomeWhole(first: Disk, builds: seq<map<Loc, Tree>>, n: nat, disk: Disk)
    requires n <= |builds|
  {
    exists k :: 0 <= k <= n && Whole(first, builds, k, disk)
  }

  /** After any number of builds, each finished, failed or killed at any point, some generation is
      whole, and the disk says by its marker whether it is the live one. */
  lemma {:induction false} SomeGenerationSurvives(disks: seq<Disk>, builds: seq<map<Loc, Tree>>, n: nat)
    requires |disks| == |builds| + 1 && !disks[0].marker && n <= |builds|
    requires forall k :: 0 <= k < |builds| ==> BuildAt(disks, builds, k)
    ensures SomeWhole(disks[0], builds, n, disks[n])
  {
    if n == 0 {
      assert Whole(disks[0], builds, 0, disks[0]);
    } else {
      SomeGenerationSurvives(disks, builds, n - 1);
      assert BuildAt(disks, builds, n - 1);
      OneMoreBuild(disks[0], builds, n - 1, disks[n - 1], disks[n]);
    }
  }

  lemma OneMoreBuild(first: Disk, builds: seq<map<Loc, Tree>>, n: nat, a: Disk, b: Disk)
    requires n < |builds| && SomeWhole(first, builds, n, a) && Leg(a, builds[n], b)
    ensures SomeWhole(first, builds, n + 1, b)
  {
    var k :| 0 <= k <= n && Whole(first, builds, k, a);
    StartKeepsLive(a.trees, builds[n]);
    var start := StartOf(a.trees, builds[n]);
    if a.marker || b.marker || SamePair(b.trees, Live, start, Live) {
      assert Whole(first, builds, k, b);
    } else {
      assert SamePair(b.trees, Live, start, Staging);
      assert Whole(first, builds, n + 1, b);
    }
  }
}
