/** Re-subscribing books that lost continuity (market_tape/record.py, `_note_books`, `_resync_loop` and
    `_resync_books`), as a step system: the writer thread notes rows, the resyncer thread takes topics
    off a queue, and each lock section, event operation and re-subscribe attempt is one step. */
module ResyncProtocol {
  datatype Topic = Topic(name: string)

  datatype Writer = Idle | Setting  // queued a topic, about to set the event

  datatype Resyncer =
    | Top                           // about to test `stop`
    | Waiting                       // for the event
    | Clearing                      // woke up, about to clear the event
    | Cleared                       // about to test `stop` before draining
    | Draining                      // about to test `stop` before the next topic
    | Popping                       // about to take the next topic
    | Holding(topic: Topic)         // about to re-subscribe it
    | Failing(topic: Topic)         // could not, about to give it up
    | Done

  datatype Event = Queued(topic: Topic) | Based(topic: Topic) | Failed(topic: Topic)

  datatype State = State(
    pending: seq<Topic>,            // the queue; a topic may stand in it twice
    outstanding: set<Topic>,
    based: set<Topic>,              // topics some snapshot has based
    set_: bool,                     // the resync event
    stop: bool,
    released: bool,                 // shutdown has set the event after `stop`
    writer: Writer,
    resyncer: Resyncer,
    awaiting: set<Topic>,           // re-subscribed since last queued, no snapshot noted since
    unanswered: set<Topic>,         // re-subscribed, no snapshot noted since
    log: seq<Event>)                // what happened so far

  const INIT := State([], {}, {}, false, false, false, Idle, Top, {}, {}, [])

  datatype Act =
    | NoteSnapshot(topic: Topic) | NoteGap(topic: Topic) | SetEvent
    | Test | Wake | Clear | Pop | Send | Miss | GiveUp
    | Stop | Release

  predicate Enabled(s: State, act: Act) {
    match act
    case NoteSnapshot(_) => s.writer.Idle?
    case NoteGap(_) => s.writer.Idle?
    case SetEvent => s.writer.Setting?
    case Test => s.resyncer.Top? || s.resyncer.Cleared? || s.resyncer.Draining?
    case Wake => s.resyncer.Waiting? && s.set_
    case Clear => s.resyncer.Clearing?
    case Pop => s.resyncer.Popping?
    case Send => s.resyncer.Holding?
    case Miss => s.resyncer.Holding?
    case GiveUp => s.resyncer.Failing?
    case Stop => true
    case Release => s.stop
  }

  function Do(s: State, act: Act): State
    requires Enabled(s, act)
  {
    match act
    case NoteSnapshot(t) =>
      s.(based := s.based + {t}, outstanding := s.outstanding - {t}, awaiting := s.awaiting - {t},
         unanswered := s.unanswered - {t}, log := s.log + [Based(t)])
    case NoteGap(t) =>
      if t in s.outstanding || t !in s.based then s
      else s.(outstanding := s.outstanding + {t}, pending := s.pending + [t], writer := Setting,
              awaiting := s.awaiting - {t}, log := s.log + [Queued(t)])
    case SetEvent => s.(set_ := true, writer := Idle)
    case Test =>
      if s.resyncer.Top? then s.(resyncer := if s.stop then Done else Waiting)
      else if s.resyncer.Cleared? then s.(resyncer := if s.stop then Done else Draining)
      else s.(resyncer := if s.stop then Top else Popping)
    case Wake => s.(resyncer := Clearing)
    case Clear => s.(set_ := false, resyncer := Cleared)
    case Pop =>
      if s.pending == [] then s.(resyncer := Top)
      else s.(pending := s.pending[1..], resyncer := Holding(s.pending[0]))
    case Send =>
      s.(awaiting := s.awaiting + {s.resyncer.topic}, unanswered := s.unanswered + {s.resyncer.topic},
         resyncer := Draining)
    case Miss => s.(resyncer := Failing(s.resyncer.topic))
    case GiveUp =>
      s.(outstanding := s.outstanding - {s.resyncer.topic}, resyncer := Draining,
         log := s.log + [Failed(s.resyncer.topic)])
    case Stop => s.(stop := true)
    case Release => s.(set_ := true, released := true)
  }

  // ------------------------------------------------------------------- the invariant

  predicate Busy(r: Resyncer) { !r.Top? && !r.Waiting? && !r.Done? }

  predicate InHand(r: Resyncer, t: Topic) { (r.Holding? || r.Failing?) && r.topic == t }

  /** No wakeup is lost. */
  predicate WakeupPending(s: State) {
    && (!s.stop ==> !s.resyncer.Done?)
    && (!s.stop && s.pending != [] ==> s.set_ || s.writer.Setting? || Busy(s.resyncer))
    && (s.resyncer.Clearing? ==> s.set_)
    && (s.released ==> s.stop && (s.set_ || !s.resyncer.Waiting?))
  }

  /** An outstanding topic is queued, in hand, or re-subscribed and waiting for its snapshot. */
  ghost predicate Accounted(s: State) {
    forall t :: t in s.outstanding ==> t in s.pending || InHand(s.resyncer, t) || t in s.awaiting
  }

  predicate Closes(e: Event, t: Topic) { e == Based(t) || e == Failed(t) }

  /** The last thing that happened to the topic was that it was queued. */
  predicate Open(log: seq<Event>, t: Topic) {
    log != [] && var e := log[|log| - 1]; e == Queued(t) || (!Closes(e, t) && Open(log[..|log| - 1], t))
  }

  /** Two queueings of a topic have its snapshot, or a failed attempt, between them; and a topic is
      queued only after a snapshot has based it. */
  ghost predicate Separated(log: seq<Event>) {
    && (forall i, j :: 0 <= i < j < |log| && log[i].Queued? && log[j] == log[i] ==>
          exists k :: i < k < j && Closes(log[k], log[i].topic))
    && (forall j :: 0 <= j < |log| && log[j].Queued? ==> Based(log[j].topic) in log[..j])
  }

  /** The log explains the two sets. */
  ghost predicate Explained(s: State) { ExplainedBy(s.outstanding, s.based, s.log) }

  ghost predicate ExplainedBy(outstanding: set<Topic>, based: set<Topic>, log: seq<Event>) {
    && (forall t :: t in outstanding <==> Open(log, t))
    && (forall t :: t in based <==> Based(t) in log)
  }

  ghost predicate Inv(s: State) {
    WakeupPending(s) && Accounted(s) && Explained(s) && Separated(s.log)
  }

  // ------------------------------------------------------------- every step keeps it

  lemma StepKeepsWakeup(s: State, act: Act)
    requires WakeupPending(s) && Enabled(s, act)
    ensures WakeupPending(Do(s, act))
  {
  }

  lemma StepKeepsAccounted(s: State, act: Act)
    requires Accounted(s) && Enabled(s, act)
    ensures Accounted(Do(s, act))
  {
    if act.Pop? && s.pending != [] {
      assert s.pending == [s.pending[0]] + s.pending[1..];
    }
  }

  lemma OpenAfter(log: seq<Event>, e: Event)
    ensures forall t :: Open(log + [e], t) <==> e == Queued(t) || (!Closes(e, t) && Open(log, t))
  {
    assert (log + [e])[..|log|] == log;
  }

  /** The sets a log explains, after one more event. */
  lemma ExplainedMore(outstanding: set<Topic>, based: set<Topic>, log: seq<Event>, e: Event)
    requires ExplainedBy(outstanding, based, log)
    ensures ExplainedBy(if e.Queued? then outstanding + {e.topic} else outstanding - {e.topic},
                        if e.Based? then based + {e.topic} else based, log + [e])
  {
    OpenAfter(log, e);
  }

  lemma StepKeepsExplained(s: State, act: Act)
    requires Explained(s) && Enabled(s, act)
    ensures Explained(Do(s, act))
  {
    var t := Do(s, act);
    if t.log != s.log {
      ExplainedMore(s.outstanding, s.based, s.log, t.log[|s.log|]);
    }
  }

  /** A topic that is not open has been closed since it was last queued. */
  lemma {:induction false} ClosedSince(log: seq<Event>, i: nat) returns (k: nat)
    requires i < |log| && log[i].Queued? && !Open(log, log[i].topic)
    ensures i < k < |log| && Closes(log[k], log[i].topic)
  {
    var n := |log| - 1;
    if Closes(log[n], log[i].topic) {
      k := n;
    } else {
      k := ClosedSince(log[..n], i);
    }
  }

  lemma QueueKeepsSeparated(log: seq<Event>, t: Topic)
    requires Separated(log) && !Open(log, t) && Based(t) in log
    ensures Separated(log + [Queued(t)])
  {
    var more := log + [Queued(t)];
    forall i, j | 0 <= i < j < |more| && more[i].Queued? && more[j] == more[i]
      ensures exists k :: i < k < j && Closes(more[k], more[i].topic)
    {
      if j < |log| {
        assert log[i].Queued? && log[j] == log[i];
        var k :| i < k < j && Closes(log[k], log[i].topic);
        assert Closes(more[k], more[i].topic);
      } else {
        var k := ClosedSince(log, i);
        assert Closes(more[k], more[i].topic);
      }
    }
    BasedBefore(log, Queued(t));
  }

  lemma BasedBefore(log: seq<Event>, e: Event)
    requires Separated(log) && (e.Queued? ==> Based(e.topic) in log)
    ensures forall j :: 0 <= j < |log + [e]| && (log + [e])[j].Queued? ==>
              Based((log + [e])[j].topic) in (log + [e])[..j]
  {
    forall j | 0 <= j < |log + [e]| && (log + [e])[j].Queued?
      ensures Based((log + [e])[j].topic) in (log + [e])[..j]
    {
      assert (log + [e])[..j] == log[..j];
      if j == |log| { assert log[..j] == log; }
    }
  }

  lemma CloseKeepsSeparated(log: seq<Event>, e: Event)
    requires Separated(log) && !e.Queued?
    ensures Separated(log + [e])
  {
    var more := log + [e];
    forall i, j | 0 <= i < j < |more| && more[i].Queued? && more[j] == more[i]
      ensures exists k :: i < k < j && Closes(more[k], more[i].topic)
    {
      assert log[i].Queued? && log[j] == log[i];
      var k :| i < k < j && Closes(log[k], log[i].topic);
      assert Closes(more[k], more[i].topic);
    }
    BasedBefore(log, e);
  }

  lemma StepKeepsSeparated(s: State, act: Act)
    requires Separated(s.log) && Explained(s) && Enabled(s, act)
    ensures Separated(Do(s, act).log)
  {
    match act
    case NoteSnapshot(t) => CloseKeepsSeparated(s.log, Based(t));
    case NoteGap(t) => if t !in s.outstanding && t in s.based { QueueKeepsSeparated(s.log, t); }
    case GiveUp => CloseKeepsSeparated(s.log, Failed(s.resyncer.topic));
    case _ =>
  }

  lemma StepKeepsInv(s: State, act: Act)
    requires Inv(s) && Enabled(s, act)
    ensures Inv(Do(s, act))
  {
    StepKeepsWakeup(s, act);
    StepKeepsAccounted(s, act);
    StepKeepsExplained(s, act);
    StepKeepsSeparated(s, act);
  }

  // ----------------------------------------------------------------- whole runs

  ghost predicate Runs(s: State, acts: seq<Act>)
    decreases |acts|
  {
    acts == [] || (Enabled(s, acts[0]) && Runs(Do(s, acts[0]), acts[1..]))
  }

  ghost function Exec(s: State, acts: seq<Act>): State
    requires Runs(s, acts)
    decreases |acts|
  {
    if acts == [] then s else Exec(Do(s, acts[0]), acts[1..])
  }

  lemma {:induction false} RunKeepsInv(s: State, acts: seq<Act>)
    requires Inv(s) && Runs(s, acts)
    ensures Inv(Exec(s, acts))
    decreases |acts|
  {
    if acts != [] {
      StepKeepsInv(s, acts[0]);
      RunKeepsInv(Do(s, acts[0]), acts[1..]);
    }
  }

  /** Every interleaving of the two threads, and of shutdown, from a fresh start. */
  lemma EveryRunIsSound(acts: seq<Act>)
    requires Runs(INIT, acts)
    ensures Inv(Exec(INIT, acts))
  {
    RunKeepsInv(INIT, acts);
  }

  // ------------------------------------------------- one re-subscribe for each topic

  /** The run passes through a state where `bad` holds. */
  ghost predicate Visits(s: State, acts: seq<Act>, bad: State -> bool)
    requires Runs(s, acts)
    decreases |acts|
  {
    bad(s) || (acts != [] && Visits(Do(s, acts[0]), acts[1..], bad))
  }

  /** The run takes a step where `guard` holds. */
  ghost predicate Takes(s: State, acts: seq<Act>, guard: (State, Act) -> bool)
    requires Runs(s, acts)
    decreases |acts|
  {
    acts != [] && (guard(s, acts[0]) || Takes(Do(s, acts[0]), acts[1..], guard))
  }

  ghost predicate Guards(bad: State -> bool, guard: (State, Act) -> bool, s: State, act: Act)
    requires Enabled(s, act)
  {
    !bad(s) ==> (bad(Do(s, act)) <==> guard(s, act))
  }

  /** What exactly the guarded steps bring about one step at a time, they bring about over whole runs. */
  lemma {:induction false} VisitsIffTakes(s: State, acts: seq<Act>, bad: State -> bool, guard: (State, Act) -> bool)
    requires Runs(s, acts) && !bad(s)
    requires forall s, act :: Enabled(s, act) ==> Guards(bad, guard, s, act)
    ensures Visits(s, acts, bad) <==> Takes(s, acts, guard)
    decreases |acts|
  {
    if acts != [] {
      assert Guards(bad, guard, s, acts[0]);
      if !guard(s, acts[0]) { VisitsIffTakes(Do(s, acts[0]), acts[1..], bad, guard); }
    }
  }

  /** Some topic stands in the queue twice. */
  ghost predicate Repeats(s: State) { exists i, j :: 0 <= i < j < |s.pending| && s.pending[i] == s.pending[j] }

  /** A gap on a based topic that is not outstanding is what queues it. */
  predicate Queues(s: State, act: Act) { act.NoteGap? && act.topic in s.based && act.topic !in s.outstanding }

  /** It is queued while it still stands in the queue. */
  predicate Requeues(s: State, act: Act) { Queues(s, act) && act.topic in s.pending }

  lemma RequeueRepeats(s: State, act: Act)
    requires Enabled(s, act)
    ensures Guards(Repeats, Requeues, s, act)
  {
    var t := Do(s, act);
    if Requeues(s, act) {
      var i :| 0 <= i < |s.pending| && s.pending[i] == act.topic;
      assert t.pending[i] == t.pending[|s.pending|];
    }
  }

  /** From a state whose queue holds no topic twice, a run gets one twice if and only if some step queues a
      topic that still stands in it. */
  lemma QueueRepeatsIff(s: State, acts: seq<Act>)
    requires Runs(s, acts) && !Repeats(s)
    ensures Visits(s, acts, Repeats) <==> Takes(s, acts, Requeues)
  {
    forall s, act | Enabled(s, act) ensures Guards(Repeats, Requeues, s, act) { RequeueRepeats(s, act); }
    VisitsIffTakes(s, acts, Repeats, Requeues);
  }

  /** How many re-subscribes of a topic are under way: queued, in hand, or sent and not answered by a snapshot. */
  ghost function UnderWay(s: State, t: Topic): nat { TimesQueued(s.pending, t) + PickedUp(s.resyncer, s.unanswered, t) }

  function TimesQueued(pending: seq<Topic>, t: Topic): nat { multiset(pending)[t] }

  function PickedUp(resyncer: Resyncer, unanswered: set<Topic>, t: Topic): nat {
    (if InHand(resyncer, t) then 1 else 0) + (if t in unanswered then 1 else 0)
  }

  /** Some topic has more than one. */
  ghost predicate Overlaps(s: State) { exists t :: UnderWay(s, t) >= 2 }

  /** A topic is queued while an earlier re-subscribe of it is under way. */
  predicate QueuesEarly(s: State, act: Act) {
    && Queues(s, act)
    && (act.topic in s.pending || InHand(s.resyncer, act.topic) || act.topic in s.unanswered)
  }

  /** Only queueing a topic adds to what is under way for it. */
  lemma OnlyQueueingAdds(s: State, act: Act, t: Topic)
    requires Enabled(s, act)
    ensures Queues(s, act) && act.topic == t ==> UnderWay(Do(s, act), t) == UnderWay(s, t) + 1
    ensures !(Queues(s, act) && act.topic == t) ==> UnderWay(Do(s, act), t) <= UnderWay(s, t)
  {
    if act.Pop? {
      if s.pending != [] { PopCounts(s.pending, t); }
    } else if Queues(s, act) {
      PushCounts(s.pending, act.topic, t);
    } else {
      OthersPickUpNoMore(s, act, t);
    }
  }

  lemma OthersPickUpNoMore(s: State, act: Act, t: Topic)
    requires Enabled(s, act) && !act.Pop? && !Queues(s, act)
    ensures var after := Do(s, act);
            && after.pending == s.pending
            && PickedUp(after.resyncer, after.unanswered, t) <= PickedUp(s.resyncer, s.unanswered, t)
  {
  }

  lemma PushCounts(pending: seq<Topic>, last: Topic, t: Topic)
    ensures TimesQueued(pending + [last], t) == TimesQueued(pending, t) + if last == t then 1 else 0
  {
  }

  lemma PopCounts(pending: seq<Topic>, t: Topic)
    requires pending != []
    ensures TimesQueued(pending, t) == TimesQueued(pending[1..], t) + if pending[0] == t then 1 else 0
  {
    assert pending == [pending[0]] + pending[1..];
  }

  lemma EarlyOverlaps(s: State, act: Act)
    requires Enabled(s, act)
    ensures Guards(Overlaps, QueuesEarly, s, act)
  {
    if !Overlaps(s) {
      if QueuesEarly(s, act) {
        OnlyQueueingAdds(s, act, act.topic);
        assert UnderWay(s, act.topic) >= 1;
      } else if Overlaps(Do(s, act)) {
        var t :| UnderWay(Do(s, act), t) >= 2;
        OnlyQueueingAdds(s, act, t);
      }
    }
  }

  /** From a state with at most one re-subscribe of each topic under way, a run gets to more than one if and only
      if some step queues a topic that has one. */
  lemma OneUnderWayIff(s: State, acts: seq<Act>)
    requires Runs(s, acts) && !Overlaps(s)
    ensures Visits(s, acts, Overlaps) <==> Takes(s, acts, QueuesEarly)
  {
    forall s, act | Enabled(s, act) ensures Guards(Overlaps, QueuesEarly, s, act) { EarlyOverlaps(s, act); }
    VisitsIffTakes(s, acts, Overlaps, QueuesEarly);
  }

  /** One more step after a run. */
  lemma {:induction false} RunsOn(s: State, acts: seq<Act>, act: Act, guard: (State, Act) -> bool)
    requires Runs(s, acts) && Enabled(Exec(s, acts), act)
    ensures Runs(s, acts + [act]) && Exec(s, acts + [act]) == Do(Exec(s, acts), act)
    ensures Takes(s, acts + [act], guard) <==> Takes(s, acts, guard) || guard(Exec(s, acts), act)
    decreases |acts|
  {
    if acts == [] {
      assert [act][1..] == [];
    } else {
      RunsOn(Do(s, acts[0]), acts[1..], act, guard);
      assert (acts + [act])[1..] == acts[1..] + [act];
    }
  }

  /** A run that leads to `s` without a requeueing step. */
  ghost predicate LeadsTo(acts: seq<Act>, s: State) {
    Runs(INIT, acts) && Exec(INIT, acts) == s && !Takes(INIT, acts, Requeues)
  }

  lemma Goes(acts: seq<Act>, s: State, act: Act) returns (more: seq<Act>, t: State)
    requires LeadsTo(acts, s) && Enabled(s, act) && !Requeues(s, act)
    ensures more == acts + [act] && t == Do(s, act) && LeadsTo(more, t)
  {
    more, t := acts + [act], Do(s, act);
    RunsOn(INIT, acts, act, Requeues);
  }

  /** A snapshot that comes before the queue is drained clears the mark and not the queue. */
  lemma QueuedTwice(t: Topic)
    ensures var acts := [NoteSnapshot(t), NoteGap(t), SetEvent, NoteSnapshot(t), NoteGap(t)];
            Runs(INIT, acts) && Exec(INIT, acts).pending == [t, t]
  {
    var acts, s := Noted(t);
    acts, s := Goes(acts, s, NoteSnapshot(t));
    RunsOn(INIT, acts, NoteGap(t), Requeues);
    assert acts + [NoteGap(t)] == [NoteSnapshot(t), NoteGap(t), SetEvent, NoteSnapshot(t), NoteGap(t)];
  }

  /** A snapshot that comes while a topic is in hand clears the mark too: the queue never holds the topic twice, and
      it is about to be re-subscribed again although its first re-subscribe is not answered. */
  lemma SentAgain(t: Topic)
    ensures var acts := [NoteSnapshot(t), NoteGap(t), SetEvent, Test, Wake, Clear, Test, Test, Pop, NoteSnapshot(t),
                         Send, NoteGap(t), SetEvent, Test, Pop];
            && Runs(INIT, acts) && !Takes(INIT, acts, Requeues)
            && var s := Exec(INIT, acts); s.resyncer == Holding(t) && t in s.unanswered
  {
    var acts, s := HandedOver(t);
    acts, s := Goes(acts, s, NoteSnapshot(t));
    acts, s := Goes(acts, s, Send);
    acts, s := Goes(acts, s, NoteGap(t));
    acts, s := Goes(acts, s, SetEvent);
    acts, s := Goes(acts, s, Test);
    acts, s := Goes(acts, s, Pop);
    assert acts == [NoteSnapshot(t), NoteGap(t), SetEvent, Test, Wake, Clear, Test, Test, Pop, NoteSnapshot(t),
                    Send, NoteGap(t), SetEvent, Test, Pop];
  }

  lemma HandedOver(t: Topic) returns (acts: seq<Act>, s: State)
    ensures acts == [NoteSnapshot(t), NoteGap(t), SetEvent, Test, Wake, Clear, Test, Test, Pop] && LeadsTo(acts, s)
    ensures s.resyncer == Holding(t) && s.pending == [] && s.based == {t} && s.writer.Idle? && !s.stop
  {
    acts, s := Noted(t);
    acts, s := Goes(acts, s, Test);
    acts, s := Goes(acts, s, Wake);
    acts, s := Goes(acts, s, Clear);
    acts, s := Goes(acts, s, Test);
    acts, s := Goes(acts, s, Test);
    acts, s := Goes(acts, s, Pop);
  }

  lemma Noted(t: Topic) returns (acts: seq<Act>, s: State)
    ensures acts == [NoteSnapshot(t), NoteGap(t), SetEvent] && LeadsTo(acts, s)
    ensures s.resyncer.Top? && s.pending == [t] && s.based == {t} && s.writer.Idle? && s.set_ && !s.stop
  {
    acts, s := Goes([], INIT, NoteSnapshot(t));
    acts, s := Goes(acts, s, NoteGap(t));
    acts, s := Goes(acts, s, SetEvent);
  }

  // --------------------------------------------------- the resyncer left to itself

  predicate OfResyncer(act: Act) {
    act.Test? || act.Wake? || act.Clear? || act.Pop? || act.Send? || act.Miss? || act.GiveUp?
  }

  /** The resyncer can do nothing until another thread acts. */
  predicate AtRest(s: State) {
    s.resyncer.Done? || (s.resyncer.Waiting? && !s.set_)
  }

  /** How many resyncer steps can follow at most. */
  function Work(s: State): nat {
    6 * |s.pending| + (if s.set_ then 10 else 0) +
    match s.resyncer
    case Done => 0
    case Clearing => 0
    case Waiting => 1
    case Top => 2
    case Popping => 3
    case Draining => 4
    case Cleared => 5
    case Failing(_) => 6
    case Holding(_) => 8
  }

  lemma ResyncerStepWorks(s: State, act: Act)
    requires Inv(s) && OfResyncer(act) && Enabled(s, act)
    ensures Work(Do(s, act)) < Work(s)
  {
  }

  /** Left alone, the resyncer comes to rest after at most `Work` steps, whatever each re-subscribe
      attempt does. At rest nothing is queued and every outstanding topic has been re-subscribed since
      it was queued; after shutdown has set the event, rest means the thread has ended. */
  lemma {:induction false} ResyncerComesToRest(s: State, acts: seq<Act>)
    requires Inv(s) && Runs(s, acts) && (forall i :: 0 <= i < |acts| ==> OfResyncer(acts[i]))
    ensures |acts| + Work(Exec(s, acts)) <= Work(s)
    ensures var t := Exec(s, acts);
            (forall act :: OfResyncer(act) ==> !Enabled(t, act)) <==> AtRest(t)
    ensures var t := Exec(s, acts);
            AtRest(t) && !t.stop && t.writer.Idle? ==> t.pending == [] && t.outstanding <= t.awaiting
    ensures var t := Exec(s, acts); AtRest(t) && t.released ==> t.resyncer.Done?
    decreases |acts|
  {
    if acts == [] {
      RestIsStuck(s);
      if AtRest(s) { RestIsClean(s); }
    } else {
      ResyncerStepWorks(s, acts[0]);
      StepKeepsInv(s, acts[0]);
      ResyncerComesToRest(Do(s, acts[0]), acts[1..]);
    }
  }

  function NextAct(s: State): Act {
    match s.resyncer
    case Waiting => Wake
    case Clearing => Clear
    case Popping => Pop
    case Holding(_) => Send
    case Failing(_) => GiveUp
    case _ => Test
  }

  lemma RestIsStuck(s: State)
    ensures (forall act :: OfResyncer(act) ==> !Enabled(s, act)) <==> AtRest(s)
  {
    if !AtRest(s) {
      assert OfResyncer(NextAct(s)) && Enabled(s, NextAct(s));
    }
  }

  lemma RestIsClean(s: State)
    requires Inv(s) && AtRest(s)
    ensures !s.stop && s.writer.Idle? ==> s.pending == [] && s.outstanding <= s.awaiting
    ensures s.released ==> s.resyncer.Done?
  {
  }
}
