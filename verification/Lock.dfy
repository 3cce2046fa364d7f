/** The persistent lock file of a dataset (liquidity_migration/data/storage.py), as a step system
    over one lock directory: its names, the inodes they link, kernel `flock` ownership and where
    each process stands in `exclusive_file_lock`. A process stands for its one thread past the
    per-path mutex. A crash or an exception may come between any two steps. */
module LockProtocol {
  import opened Options

  type Proc = nat
  type Inode = nat
  type Alias = nat

  datatype Pc =
    | Idle                                              // about to look for the lock path
    | Sweeping(target: Alias)                           // stat'ed an old staging name, about to unlink it
    | Missing                                           // the lock path was not there to open
    | Staged(alias: Alias, fd: Inode)                   // created a staging name
    | StagedLocked(alias: Alias, fd: Inode)             // holds the staged inode's flock
    | Linked(alias: Alias, fd: Inode, published: bool)  // tried to link it as the lock path
    | Opened(fd: Inode)                                 // opened the lock path, waiting for its flock
    | Holding(fd: Inode)                                // owns the flock
    | Statted(fd: Inode, links: nat)                    // read the link count
    | Recovering(fd: Inode, todo: set<Alias>)           // unlinking staging names a dead creator left
    | Checking(fd: Inode)                               // about to validate the path
    | Critical(fd: Inode)

  datatype State = State(
    canonical: Option<Inode>,     // what the lock path links
    aliases: map<Alias, Inode>,   // the staging names
    used: set<Alias>,             // staging names ever drawn: random, never drawn twice
    nextInode: Inode,                 // the next inode the filesystem will hand out
    owner: map<Inode, Proc>,      // kernel flock ownership
    pcs: map<Proc, Pc>)           // processes alive in the protocol

  const INIT := State(None, map[], {}, 0, map[], map[])

  function Names(s: State, i: Inode): set<Alias> {
    set a | a in s.aliases && s.aliases[a] == i
  }

  function Links(s: State, i: Inode): nat {
    (if s.canonical == Some(i) then 1 else 0) + |Names(s, i)|
  }

  datatype Act =
    | Arrive | SweepStat(target: Alias) | SweepUnlink
    | Open | FindMissing | Stage(name: Alias) | FlockStaged | Link | UnlinkStaged
    | Flock | Stat | List | UnlinkAlias(gone: Alias) | Recovered | Validate | Release
    | Raise | Crash

  /** A descriptor the process holds the flock of. */
  predicate Owning(pc: Pc) {
    pc.StagedLocked? || pc.Linked? || pc.Holding? || pc.Statted? || pc.Recovering? || pc.Checking? || pc.Critical?
  }

  predicate HasFd(pc: Pc) { Owning(pc) || pc.Staged? || pc.Opened? }

  predicate Enabled(s: State, p: Proc, act: Act) {
    if act.Arrive? then p !in s.pcs
    else
      && p in s.pcs
      && var pc := s.pcs[p];
         match act
         case Arrive => false
         case SweepStat(a) => pc.Idle? && a in s.aliases && Links(s, s.aliases[a]) == 1
         case SweepUnlink => pc.Sweeping?
         case Open => pc.Idle? && s.canonical.Some?
         case FindMissing => pc.Idle? && s.canonical.None?
         case Stage(a) => pc.Missing? && a !in s.used
         case FlockStaged => pc.Staged? && pc.fd !in s.owner
         case Link => pc.StagedLocked? && pc.alias in s.aliases && s.aliases[pc.alias] == pc.fd && Links(s, pc.fd) == 1
         case UnlinkStaged => pc.Linked? && pc.alias in s.aliases
         case Flock => pc.Opened? && pc.fd !in s.owner
         case Stat => pc.Holding?
         case List => pc.Statted? && (pc.links == 1 || pc.links == 1 + |Names(s, pc.fd)|)
         case UnlinkAlias(a) => pc.Recovering? && a in pc.todo && a in s.aliases
         case Recovered => pc.Recovering? && pc.todo == {}
         case Validate => pc.Checking? && s.canonical == Some(pc.fd) && Links(s, pc.fd) == 1
         case Release => pc.Critical?
         case Raise => true
         case Crash => true
  }

  function Goto(s: State, p: Proc, pc: Pc): State { s.(pcs := s.pcs[p := pc]) }

  /** Closing a descriptor gives up its flock. */
  function Close(s: State, p: Proc): State {
    if p in s.pcs && HasFd(s.pcs[p]) && s.pcs[p].fd in s.owner && s.owner[s.pcs[p].fd] == p
    then s.(owner := s.owner - {s.pcs[p].fd})
    else s
  }

  function Do(s: State, p: Proc, act: Act): State
    requires Enabled(s, p, act)
  {
    match act
    case Arrive => Goto(s, p, Idle)
    case SweepStat(a) => Goto(s, p, Sweeping(a))
    case SweepUnlink => Goto(s.(aliases := s.aliases - {s.pcs[p].target}), p, Idle)
    case Open => Goto(s, p, Opened(s.canonical.value))
    case FindMissing => Goto(s, p, Missing)
    case Stage(a) =>
      Goto(s.(aliases := s.aliases[a := s.nextInode], used := s.used + {a}, nextInode := s.nextInode + 1), p,
           Staged(a, s.nextInode))
    case FlockStaged =>
      Goto(s.(owner := s.owner[s.pcs[p].fd := p]), p, StagedLocked(s.pcs[p].alias, s.pcs[p].fd))
    case Link =>
      var pc := s.pcs[p];
      // The link fails, harmlessly, when another creator published first.
      Goto(if s.canonical.None? then s.(canonical := Some(pc.fd)) else s, p, Linked(pc.alias, pc.fd, s.canonical.None?))
    case UnlinkStaged =>
      var pc := s.pcs[p];
      var t := s.(aliases := s.aliases - {pc.alias});
      if pc.published then Goto(t, p, Holding(pc.fd)) else Goto(Close(t, p), p, Idle)
    case Flock => Goto(s.(owner := s.owner[s.pcs[p].fd := p]), p, Holding(s.pcs[p].fd))
    case Stat => Goto(s, p, Statted(s.pcs[p].fd, Links(s, s.pcs[p].fd)))
    case List =>
      var pc := s.pcs[p];
      Goto(s, p, if pc.links == 1 then Checking(pc.fd) else Recovering(pc.fd, Names(s, pc.fd)))
    case UnlinkAlias(a) =>
      Goto(s.(aliases := s.aliases - {a}), p, Recovering(s.pcs[p].fd, s.pcs[p].todo - {a}))
    case Recovered => Goto(s, p, Checking(s.pcs[p].fd))
    case Validate => Goto(s, p, Critical(s.pcs[p].fd))
    case Release => Goto(Close(s, p), p, Idle)
    case Raise =>
      // An exception unlinks the process's own staging name and closes its descriptor.
      var pc := s.pcs[p];
      var t := if pc.Staged? || pc.StagedLocked? || pc.Linked? then s.(aliases := s.aliases - {pc.alias}) else s;
      Close(t, p).(pcs := s.pcs - {p})
    case Crash => Close(s, p).(pcs := s.pcs - {p})
  }

  // --------------------------------------------------------------- invariant

  predicate PastFlock(pc: Pc) {
    pc.Holding? || pc.Statted? || pc.Recovering? || pc.Checking? || pc.Critical?
  }

  predicate Creating(pc: Pc) { pc.Staged? || pc.StagedLocked? || pc.Linked? }

  /** What one process's place in the protocol says about the directory. */
  ghost predicate PcInv(s: State, p: Proc)
    requires p in s.pcs
  {
    var pc := s.pcs[p];
    && (HasFd(pc) ==> pc.fd < s.nextInode)
    && (Owning(pc) ==> pc.fd in s.owner && s.owner[pc.fd] == p)
    && (pc.Opened? || PastFlock(pc) ==> s.canonical == Some(pc.fd))
    && (Creating(pc) ==> pc.alias in s.used && (pc.alias in s.aliases ==> s.aliases[pc.alias] == pc.fd))
    && (pc.Staged? || pc.StagedLocked? ==> s.canonical != Some(pc.fd))
    && (pc.Linked? ==> (s.canonical == Some(pc.fd) <==> pc.published))
    && (pc.Critical? ==> Names(s, pc.fd) == {})
  }

  ghost predicate Inv(s: State) {
    && (s.canonical.Some? ==> s.canonical.value < s.nextInode)
    && (forall a :: a in s.aliases ==> a in s.used && s.aliases[a] < s.nextInode)
    && (forall i :: i in s.owner ==> s.owner[i] in s.pcs && Owning(s.pcs[s.owner[i]]) && s.pcs[s.owner[i]].fd == i)
    && (forall p :: p in s.pcs ==> PcInv(s, p))
    // No two creators share a staged inode or a staging name.
    && (forall p, q :: p in s.pcs && q in s.pcs && p != q && Creating(s.pcs[p]) && Creating(s.pcs[q]) ==>
          s.pcs[p].fd != s.pcs[q].fd && s.pcs[p].alias != s.pcs[q].alias)
  }

  /** What a step of `p` may change as the others see it. */
  ghost predicate Others(s: State, t: State, p: Proc) {
    && (forall q :: q != p ==> (q in t.pcs <==> q in s.pcs))
    && (forall q :: q != p && q in s.pcs ==> t.pcs[q] == s.pcs[q])
    && s.nextInode <= t.nextInode && s.used <= t.used
    && (forall a :: a in t.aliases ==>
          || (a in s.aliases && t.aliases[a] == s.aliases[a])
          || (a !in s.used && a in t.used && s.nextInode <= t.aliases[a] < t.nextInode))
    && (forall i :: i in s.owner && s.owner[i] != p ==> i in t.owner && t.owner[i] == s.owner[i])
    && (forall i :: i in t.owner && t.owner[i] != p ==> i in s.owner && t.owner[i] == s.owner[i])
    && (|| t.canonical == s.canonical
        || (s.canonical.None? && p in s.pcs && s.pcs[p].StagedLocked? && t.canonical == Some(s.pcs[p].fd)))
  }

  /** What the step must show of `p` itself. */
  ghost predicate Own(s: State, t: State, p: Proc) {
    && (forall i :: i in t.owner && t.owner[i] == p ==> p in t.pcs && Owning(t.pcs[p]) && t.pcs[p].fd == i)
    && (p in t.pcs ==>
          && PcInv(t, p)
          && (Creating(t.pcs[p]) ==>
                || (p in s.pcs && Creating(s.pcs[p]) && s.pcs[p].fd == t.pcs[p].fd && s.pcs[p].alias == t.pcs[p].alias)
                || (s.nextInode <= t.pcs[p].fd && t.pcs[p].alias !in s.used)))
  }

  lemma OtherKept(s: State, t: State, p: Proc, q: Proc)
    requires Inv(s) && Others(s, t, p) && q != p && q in t.pcs
    ensures PcInv(t, q)
  {
    assert PcInv(s, q);
    var pc := s.pcs[q];
    if pc.Critical? {
      forall a | a in t.aliases
        ensures t.aliases[a] != pc.fd
      {
        assert a !in Names(s, pc.fd);
      }
    }
    if t.canonical != s.canonical && Creating(pc) {
      assert Creating(s.pcs[p]) && s.pcs[p].fd != pc.fd;
    }
  }

  lemma Assemble(s: State, t: State, p: Proc)
    requires Inv(s) && Others(s, t, p) && Own(s, t, p)
    ensures Inv(t)
  {
    forall q | q in t.pcs
      ensures PcInv(t, q)
    {
      if q != p { OtherKept(s, t, p, q); }
    }
    if t.canonical != s.canonical { assert PcInv(s, p); }
    CreatorsApart(s, t, p);
  }

  lemma CreatorsApart(s: State, t: State, p: Proc)
    requires Inv(s) && Others(s, t, p) && Own(s, t, p)
    ensures forall q, r :: q in t.pcs && r in t.pcs && q != r && Creating(t.pcs[q]) && Creating(t.pcs[r]) ==>
              t.pcs[q].fd != t.pcs[r].fd && t.pcs[q].alias != t.pcs[r].alias
  {
    forall q, r | q in t.pcs && r in t.pcs && q != r && Creating(t.pcs[q]) && Creating(t.pcs[r])
      ensures t.pcs[q].fd != t.pcs[r].fd && t.pcs[q].alias != t.pcs[r].alias
    {
      if q != p { assert PcInv(s, q); }
      if r != p { assert PcInv(s, r); }
    }
  }

  /** Steps that only move `p`. */
  lemma MoveKeepsInv(s: State, p: Proc, pc: Pc)
    requires Inv(s) && (p in s.pcs ==> HasFd(s.pcs[p]) ==> HasFd(pc) && pc.fd == s.pcs[p].fd)
    requires PcInv(Goto(s, p, pc), p) && !Creating(pc)
    requires p in s.pcs && Owning(s.pcs[p]) ==> Owning(pc)
    ensures Inv(Goto(s, p, pc))
  {
    Assemble(s, Goto(s, p, pc), p);
  }

  /** A name goes away and `p` moves. */
  lemma UnlinkKeepsInv(s: State, p: Proc, a: Alias, pc: Pc)
    requires Inv(s) && p in s.pcs && !Creating(pc) && !pc.Critical? && !pc.Opened?
    requires HasFd(s.pcs[p]) <==> HasFd(pc)
    requires HasFd(pc) ==> pc.fd == s.pcs[p].fd && Owning(s.pcs[p]) && s.canonical == Some(pc.fd) && Owning(pc)
    ensures Inv(Goto(s.(aliases := s.aliases - {a}), p, pc))
  {
    assert PcInv(s, p);
    Assemble(s, Goto(s.(aliases := s.aliases - {a}), p, pc), p);
  }

  /** `p` gets a flock nobody had. */
  lemma FlockKeepsInv(s: State, p: Proc, pc: Pc)
    requires Inv(s) && p in s.pcs && HasFd(s.pcs[p]) && !Owning(s.pcs[p]) && s.pcs[p].fd !in s.owner
    requires HasFd(pc) && Owning(pc) && pc.fd == s.pcs[p].fd
    requires || (s.pcs[p].Opened? && pc.Holding?)
             || (s.pcs[p].Staged? && pc.StagedLocked? && pc.alias == s.pcs[p].alias)
    ensures Inv(Goto(s.(owner := s.owner[pc.fd := p]), p, pc))
  {
    assert PcInv(s, p);
    Assemble(s, Goto(s.(owner := s.owner[pc.fd := p]), p, pc), p);
  }

  lemma StageKeepsInv(s: State, p: Proc, a: Alias)
    requires Inv(s) && Enabled(s, p, Stage(a))
    ensures Inv(Do(s, p, Stage(a)))
  {
    Assemble(s, Do(s, p, Stage(a)), p);
  }

  lemma LinkKeepsInv(s: State, p: Proc)
    requires Inv(s) && Enabled(s, p, Link)
    ensures Inv(Do(s, p, Link))
  {
    assert PcInv(s, p);
    Assemble(s, Do(s, p, Link), p);
  }

  /** `p` closes its descriptor, some names unlinked, and starts over or is gone. */
  function Closed(s: State, p: Proc, gone: set<Alias>, stays: bool): State {
    Close(s.(aliases := s.aliases - gone), p).(pcs := if stays then s.pcs[p := Idle] else s.pcs - {p})
  }

  lemma CloseKeepsInv(s: State, p: Proc, gone: set<Alias>, stays: bool)
    requires Inv(s) && p in s.pcs
    ensures Inv(Closed(s, p, gone, stays))
  {
    CloseOthers(s, p, gone, stays);
    CloseOwn(s, p, gone, stays);
    Assemble(s, Closed(s, p, gone, stays), p);
  }

  lemma CloseOthers(s: State, p: Proc, gone: set<Alias>, stays: bool)
    requires Inv(s) && p in s.pcs
    ensures Others(s, Closed(s, p, gone, stays), p)
  {
    CloseFrees(s, s.(aliases := s.aliases - gone), p);
  }

  lemma CloseOwn(s: State, p: Proc, gone: set<Alias>, stays: bool)
    requires Inv(s) && p in s.pcs
    ensures Own(s, Closed(s, p, gone, stays), p)
  {
    CloseFrees(s, s.(aliases := s.aliases - gone), p);
  }

  lemma CloseFrees(s: State, t: State, p: Proc)
    requires Inv(s) && p in s.pcs && t.owner == s.owner && t.pcs == s.pcs
    ensures forall i :: i in Close(t, p).owner <==> i in s.owner && s.owner[i] != p
    ensures forall i :: i in Close(t, p).owner ==> Close(t, p).owner[i] == s.owner[i]
  {
    assert PcInv(s, p);
  }

  predicate Closes(s: State, p: Proc, act: Act) {
    act.Release? || act.Raise? || act.Crash?
    || (act.UnlinkStaged? && p in s.pcs && s.pcs[p].Linked? && !s.pcs[p].published)
  }

  lemma ClosingKeepsInv(s: State, p: Proc, act: Act)
    requires Inv(s) && Enabled(s, p, act) && Closes(s, p, act)
    ensures Inv(Do(s, p, act))
  {
    var pc := s.pcs[p];
    assert s.aliases - {} == s.aliases;
    var gone := if (act.Raise? && Creating(pc)) || act.UnlinkStaged? then {pc.alias} else {};
    CloseKeepsInv(s, p, gone, act.Release? || act.UnlinkStaged?);
    assert s.(aliases := s.aliases - {}) == s;
  }

  predicate Looks(act: Act) { act.Arrive? || act.SweepStat? || act.Open? || act.FindMissing? }

  lemma LookingKeepsInv(s: State, p: Proc, act: Act)
    requires Inv(s) && Enabled(s, p, act) && Looks(act)
    ensures Inv(Do(s, p, act))
  {
    match act
    case Arrive => MoveKeepsInv(s, p, Idle);
    case SweepStat(a) => MoveKeepsInv(s, p, Sweeping(a));
    case Open => MoveKeepsInv(s, p, Opened(s.canonical.value));
    case FindMissing => MoveKeepsInv(s, p, Missing);
  }

  predicate Inspects(act: Act) { act.Stat? || act.List? || act.Recovered? }

  lemma InspectingKeepsInv(s: State, p: Proc, act: Act)
    requires Inv(s) && Enabled(s, p, act) && Inspects(act)
    ensures Inv(Do(s, p, act))
  {
    assert PcInv(s, p);
    var pc := s.pcs[p];
    match act
    case Stat => MoveKeepsInv(s, p, Statted(pc.fd, Links(s, pc.fd)));
    case List => MoveKeepsInv(s, p, if pc.links == 1 then Checking(pc.fd) else Recovering(pc.fd, Names(s, pc.fd)));
    case Recovered => MoveKeepsInv(s, p, Checking(pc.fd));
  }

  /** With one link, the lock path's, no staging name is left on the inode. */
  lemma ValidateKeepsInv(s: State, p: Proc)
    requires Inv(s) && Enabled(s, p, Validate)
    ensures Inv(Do(s, p, Validate))
  {
    assert PcInv(s, p);
    assert Names(s, s.pcs[p].fd) == {};
    MoveKeepsInv(s, p, Critical(s.pcs[p].fd));
  }

  lemma StepKeepsInv(s: State, p: Proc, act: Act)
    requires Inv(s) && Enabled(s, p, act)
    ensures Inv(Do(s, p, act))
  {
    if Looks(act) {
      LookingKeepsInv(s, p, act);
    } else if Inspects(act) {
      InspectingKeepsInv(s, p, act);
    } else if Closes(s, p, act) {
      ClosingKeepsInv(s, p, act);
    } else {
      assert PcInv(s, p);
      match act
      case SweepUnlink => UnlinkKeepsInv(s, p, s.pcs[p].target, Idle);
      case Validate => ValidateKeepsInv(s, p);
      case Stage(a) => StageKeepsInv(s, p, a);
      case FlockStaged => FlockKeepsInv(s, p, StagedLocked(s.pcs[p].alias, s.pcs[p].fd));
      case Link => LinkKeepsInv(s, p);
      case UnlinkStaged => UnlinkKeepsInv(s, p, s.pcs[p].alias, Holding(s.pcs[p].fd));
      case Flock => FlockKeepsInv(s, p, Holding(s.pcs[p].fd));
      case UnlinkAlias(a) => UnlinkKeepsInv(s, p, a, Recovering(s.pcs[p].fd, s.pcs[p].todo - {a}));
    }
  }

  // --------------------------------------------------------------- whole runs

  datatype Move = Move(proc: Proc, act: Act)

  /** The state a schedule leads to; `None` when one of its moves is not possible. */
  function Exec(s: State, moves: seq<Move>): Option<State>
    decreases |moves|
  {
    if moves == [] then Some(s)
    else if Enabled(s, moves[0].proc, moves[0].act) then Exec(Do(s, moves[0].proc, moves[0].act), moves[1..])
    else None
  }

  ghost predicate MutualExclusion(s: State) {
    forall p, q :: p in s.pcs && q in s.pcs && s.pcs[p].Critical? && s.pcs[q].Critical? ==> p == q
  }

  /** Whoever is in the critical section has the lock path's inode, alone, under its one name. */
  ghost predicate HolderHasTheLeaf(s: State) {
    forall p :: p in s.pcs && s.pcs[p].Critical? ==>
      && s.canonical == Some(s.pcs[p].fd)
      && s.pcs[p].fd in s.owner && s.owner[s.pcs[p].fd] == p
      && Links(s, s.pcs[p].fd) == 1
  }

  lemma InvIsSafe(s: State)
    requires Inv(s)
    ensures MutualExclusion(s) && HolderHasTheLeaf(s)
  {
    forall p | p in s.pcs && s.pcs[p].Critical?
      ensures s.canonical == Some(s.pcs[p].fd) && s.pcs[p].fd in s.owner && s.owner[s.pcs[p].fd] == p
              && Links(s, s.pcs[p].fd) == 1
    {
      assert PcInv(s, p);
    }
  }

  lemma {:induction false} RunKeepsInv(s: State, moves: seq<Move>)
    requires Inv(s) && Exec(s, moves).Some?
    ensures Inv(Exec(s, moves).value)
    ensures s.canonical.Some? ==> Exec(s, moves).value.canonical == s.canonical
    decreases |moves|
  {
    if moves != [] {
      StepKeepsInv(s, moves[0].proc, moves[0].act);
      RunKeepsInv(Do(s, moves[0].proc, moves[0].act), moves[1..]);
    }
  }

  lemma {:induction false} ExecApart(s: State, a: seq<Move>, b: seq<Move>)
    requires Exec(s, a).Some?
    ensures Exec(s, a + b) == Exec(Exec(s, a).value, b)
    decreases |a|
  {
    if a == [] {
      assert a + b == b;
    } else {
      ExecApart(Do(s, a[0].proc, a[0].act), a[1..], b);
      assert (a + b)[1..] == a[1..] + b;
    }
  }

  /** Every schedule of arrivals, creators, openers, sweeps, exceptions and crashes: at most one
      process is ever in the critical section, it holds the lock path's only link, and once the
      lock path is linked it links the same inode ever after. */
  lemma EveryRunIsSafe(before: seq<Move>, after: seq<Move>)
    requires Exec(INIT, before + after).Some?
    requires Exec(INIT, before).Some?
    ensures var s, t := Exec(INIT, before).value, Exec(INIT, before + after).value;
            && MutualExclusion(t) && HolderHasTheLeaf(t)
            && (s.canonical.Some? ==> t.canonical == s.canonical)
  {
    RunKeepsInv(INIT, before);
    ExecApart(INIT, before, after);
    RunKeepsInv(Exec(INIT, before).value, after);
    InvIsSafe(Exec(INIT, before + after).value);
  }

  // --------------------------------------------------------------- recovery

  ghost predicate Alone(moves: seq<Move>, p: Proc) {
    forall i :: 0 <= i < |moves| ==> moves[i].proc == p
  }

  /** `p` on its own can take `s` to `t`. */
  ghost predicate CanTake(s: State, p: Proc, t: State) {
    exists moves :: Alone(moves, p) && Exec(s, moves) == Some(t)
  }

  lemma Stay(s: State, p: Proc)
    ensures CanTake(s, p, s)
  {
    assert Alone([], p) && Exec(s, []) == Some(s);
  }

  lemma First(s: State, p: Proc, act: Act, t: State)
    requires Enabled(s, p, act) && CanTake(Do(s, p, act), p, t)
    ensures CanTake(s, p, t)
  {
    var moves :| Alone(moves, p) && Exec(Do(s, p, act), moves) == Some(t);
    var more := [Move(p, act)] + moves;
    assert more[1..] == moves;
    assert Alone(more, p) && Exec(s, more) == Some(t);
  }

  /** The lock is `p`'s, under one link, and nobody else moved. */
  ghost predicate Acquired(s: State, p: Proc, t: State) {
    && p in t.pcs && t.pcs[p].Critical?
    && t.canonical == Some(t.pcs[p].fd) && Links(t, t.pcs[p].fd) == 1
    && t.owner == s.owner[t.pcs[p].fd := p]
    && t.pcs == s.pcs[p := t.pcs[p]]
  }

  lemma FromChecking(s: State, p: Proc) returns (t: State)
    requires p in s.pcs && s.pcs[p].Checking? && s.canonical == Some(s.pcs[p].fd) && Names(s, s.pcs[p].fd) == {}
    ensures CanTake(s, p, t) && t == Goto(s, p, Critical(s.pcs[p].fd)) && Links(t, s.pcs[p].fd) == 1
  {
    t := Do(s, p, Validate);
    Stay(t, p);
    First(s, p, Validate, t);
    assert Names(t, s.pcs[p].fd) == Names(s, s.pcs[p].fd);
  }

  lemma {:induction false} FromRecovering(s: State, p: Proc) returns (t: State)
    requires p in s.pcs && s.pcs[p].Recovering? && s.canonical == Some(s.pcs[p].fd)
    requires s.pcs[p].todo == Names(s, s.pcs[p].fd)
    ensures CanTake(s, p, t) && Links(t, s.pcs[p].fd) == 1
    ensures t.owner == s.owner && t.canonical == s.canonical && t.pcs == s.pcs[p := Critical(s.pcs[p].fd)]
    decreases |s.pcs[p].todo|
  {
    var pc := s.pcs[p];
    if pc.todo == {} {
      t := FromChecking(Do(s, p, Recovered), p);
      First(s, p, Recovered, t);
    } else {
      var a :| a in pc.todo;
      var next := Do(s, p, UnlinkAlias(a));
      assert Names(next, pc.fd) == pc.todo - {a};
      t := FromRecovering(next, p);
      First(s, p, UnlinkAlias(a), t);
    }
  }

  lemma FromHolding(s: State, p: Proc) returns (t: State)
    requires p in s.pcs && s.pcs[p].Holding? && s.canonical == Some(s.pcs[p].fd)
    ensures CanTake(s, p, t) && Links(t, s.pcs[p].fd) == 1
    ensures t.owner == s.owner && t.canonical == s.canonical && t.pcs == s.pcs[p := Critical(s.pcs[p].fd)]
  {
    var fd := s.pcs[p].fd;
    var seen := Do(s, p, Stat);
    assert Names(seen, fd) == Names(s, fd);
    var listed := Do(seen, p, List);
    assert Names(listed, fd) == Names(s, fd);
    if Names(s, fd) == {} {
      t := FromChecking(listed, p);
    } else {
      t := FromRecovering(listed, p);
    }
    First(seen, p, List, t);
    First(s, p, Stat, t);
  }

  lemma {:induction false} UnusedAlias(used: set<Alias>) returns (a: Alias)
    ensures forall b :: b in used ==> b < a
  {
    if used == {} {
      a := 0;
    } else {
      var b :| b in used;
      var c := UnusedAlias(used - {b});
      a := if b < c then c else b + 1;
      forall x | x in used
        ensures x < a
      {
        assert x == b || x in used - {b};
      }
    }
  }

  lemma FromStaged(s: State, p: Proc) returns (t: State)
    requires p in s.pcs && s.pcs[p].Staged? && s.canonical.None? && s.pcs[p].fd !in s.owner
    requires Names(s, s.pcs[p].fd) == {s.pcs[p].alias}
    ensures CanTake(s, p, t)
    ensures t.canonical == Some(s.pcs[p].fd) && Links(t, s.pcs[p].fd) == 1
    ensures t.owner == s.owner[s.pcs[p].fd := p] && t.pcs == s.pcs[p := Critical(s.pcs[p].fd)]
  {
    var a, fd := s.pcs[p].alias, s.pcs[p].fd;
    assert a in Names(s, fd);
    var locked := Do(s, p, FlockStaged);
    assert Names(locked, fd) == {a};
    var linked := Do(locked, p, Link);
    var held := Do(linked, p, UnlinkStaged);
    t := FromHolding(held, p);
    First(linked, p, UnlinkStaged, t);
    First(locked, p, Link, t);
    First(s, p, FlockStaged, t);
    assert t.pcs == s.pcs[p := Critical(fd)];
  }

  /** Arriving, finding no lock path and staging a fresh name. */
  lemma StageFresh(s: State, p: Proc, a: Alias) returns (t: State)
    requires p !in s.pcs && s.canonical.None? && a !in s.used && a !in s.aliases
    requires forall b :: b in s.aliases ==> s.aliases[b] < s.nextInode
    ensures t.canonical.None? && t.owner == s.owner && t.pcs == s.pcs[p := Staged(a, s.nextInode)]
    ensures Names(t, s.nextInode) == {a}
    ensures forall u :: CanTake(t, p, u) ==> CanTake(s, p, u)
  {
    var s1 := Do(s, p, Arrive);
    var s2 := Do(s1, p, FindMissing);
    t := Do(s2, p, Stage(a));
    assert Names(t, s.nextInode) == {a};
    forall u | CanTake(t, p, u) ensures CanTake(s, p, u) {
      First(s2, p, Stage(a), u);
      First(s1, p, FindMissing, u);
      First(s, p, Arrive, u);
    }
  }

  /** With no lock path, `p` alone creates it; the inodes already known may be in any use. */
  lemma CreateAlone(s: State, p: Proc) returns (t: State)
    requires p !in s.pcs && s.canonical.None?
    requires forall i :: i in s.owner ==> i < s.nextInode
    requires forall a :: a in s.aliases ==> s.aliases[a] < s.nextInode
    ensures CanTake(s, p, t) && Acquired(s, p, t)
  {
    var a := UnusedAlias(s.used + s.aliases.Keys);
    assert a !in s.used && a !in s.aliases;
    var staged := StageFresh(s, p, a);
    t := FromStaged(staged, p);
    assert t.pcs == s.pcs[p := Critical(s.nextInode)];
  }

  /** Arriving, opening the lock path and getting its flock. */
  lemma OpenFree(s: State, p: Proc) returns (t: State)
    requires p !in s.pcs && s.canonical.Some? && s.canonical.value !in s.owner
    ensures t == Goto(s.(owner := s.owner[s.canonical.value := p]), p, Holding(s.canonical.value))
    ensures forall u :: CanTake(t, p, u) ==> CanTake(s, p, u)
  {
    var s1 := Do(s, p, Arrive);
    var s2 := Do(s1, p, Open);
    t := Do(s2, p, Flock);
    assert t.pcs == s.pcs[p := Holding(s.canonical.value)];
    forall u | CanTake(t, p, u) ensures CanTake(s, p, u) {
      First(s2, p, Flock, u);
      First(s1, p, Open, u);
      First(s, p, Arrive, u);
    }
  }

  /** With a lock path nobody holds, `p` alone opens it and gets in. */
  lemma OpenAlone(s: State, p: Proc) returns (t: State)
    requires p !in s.pcs && s.canonical.Some? && s.canonical.value !in s.owner
    ensures CanTake(s, p, t) && Acquired(s, p, t) && t.canonical == s.canonical
  {
    var held := OpenFree(s, p);
    t := FromHolding(held, p);
    assert t.pcs == s.pcs[p := Critical(s.canonical.value)];
  }

  lemma OwnedInodesKnown(s: State)
    requires Inv(s)
    ensures forall i :: i in s.owner ==> i < s.nextInode
  {
    forall i | i in s.owner ensures i < s.nextInode { assert PcInv(s, s.owner[i]); }
  }

  /** From any reachable state whose lock nobody holds, a newcomer gets it by itself, and the
      lock path is left with exactly one link whatever staging names were left on it. */
  lemma NewcomerAcquires(s: State, p: Proc) returns (t: State)
    requires Inv(s) && p !in s.pcs
    requires s.canonical.Some? ==> s.canonical.value !in s.owner
    ensures CanTake(s, p, t) && Acquired(s, p, t)
    ensures s.canonical.Some? ==> t.canonical == s.canonical
  {
    if s.canonical.None? {
      OwnedInodesKnown(s);
      t := CreateAlone(s, p);
    } else {
      t := OpenAlone(s, p);
    }
  }

  /** A creator that dies between linking the lock path and unlinking its staging name leaves two
      links and no owner; the next acquirer ends with one. */
  lemma CrashAfterLinkIsRecovered(s: State, creator: Proc, p: Proc) returns (t: State)
    requires Inv(s) && creator in s.pcs && s.pcs[creator].Linked? && s.pcs[creator].published
    requires s.pcs[creator].alias in s.aliases && p !in s.pcs
    ensures var crashed, fd := Do(s, creator, Crash), s.pcs[creator].fd;
            && Links(crashed, fd) >= 2
            && CanTake(crashed, p, t) && Acquired(crashed, p, t) && t.canonical == Some(fd)
  {
    var crashed := Do(s, creator, Crash);
    assert PcInv(s, creator);
    StepKeepsInv(s, creator, Crash);
    CloseFrees(s, s, creator);
    var fd := s.pcs[creator].fd;
    assert s.pcs[creator].alias in Names(crashed, fd);
    t := NewcomerAcquires(crashed, p);
  }

  /** Why the leaf must persist: were anything to unlink the lock path while it is held, a newcomer
      would enter beside the holder. */
  lemma RemovingTheLeafBreaksExclusion(s: State, holder: Proc, p: Proc) returns (t: State)
    requires Inv(s) && holder in s.pcs && s.pcs[holder].Critical? && p !in s.pcs
    ensures CanTake(s.(canonical := None), p, t) && !MutualExclusion(t)
  {
    forall i | i in s.owner
      ensures i < s.nextInode
    {
      assert PcInv(s, s.owner[i]);
    }
    t := CreateAlone(s.(canonical := None), p);
    assert t.pcs[holder].Critical? && t.pcs[p].Critical?;
  }
}
