/**
 The bounded queue of src/log/log_async_dispatcher.cpp: any number of submitting threads, the worker and one
 stopping thread.  A step is one critical section, one call of the writer or one atomic access; only a refused
 submit and the final drain hold the mutex over several steps.
 */
module AsyncDispatcher {

  datatype Level = Trace | Debug | Info | Warn | Error | Fatal | Off

  /** A line to be logged; each submit is made by a thread of its own. */
  datatype Item = Item(id: nat, line: string, level: Level)

  const BATCH_SIZE := 64

  predicate HighPriority(level: Level) { level.Error? || level.Fatal? }

  /** What the first critical section of submit settles on; a second one, after the sleep, never retries again. */
  datatype Decision = Push | WriteDirectly | SleepAndRetry | Drop

  function Decide(queued: nat, limit: nat, level: Level, retried: bool): Decision {
    if queued < limit then Push
    else if retried then Drop
    else if HighPriority(level) then WriteDirectly
    else if level.Warn? then SleepAndRetry
    else Drop
  }

  /** What the worker takes at once. */
  function FirstBatch(queue: seq<Item>): (batch: seq<Item>)
    ensures batch <= queue
  {
    if |queue| < BATCH_SIZE then queue else queue[..BATCH_SIZE]
  }

  datatype Submit =
    | Trying
    | Sleeping
    | Bypassing
    | Dropping                    // holds the mutex, the drop not counted yet
    | Counted                     // holds the mutex, the drop counted
    | Accepted(queued: bool)      // returned true: through the queue, or written by the submitter
    | Refused                     // returned false

  datatype Worker = NotStarted | Top | Taking | Writing(batch: seq<Item>, next: nat) | Ended

  datatype Stopper = Idle | Joining | Draining(frontWritten: bool) | Stopped

  datatype Mutex = Free | HeldBySubmit(id: nat) | HeldByStop

  /**
   enqueued: every item that ever entered the queue, in order; written: the items the worker and the drain gave to
   the writer, in order; bypassed: the items submitters gave to it themselves.
   */
  datatype State = State(
    limit: nat, running: bool, queue: seq<Item>, dropped: nat, mutex: Mutex,
    items: map<nat, Item>, submits: map<nat, Submit>, worker: Worker, stopper: Stopper,
    enqueued: seq<Item>, written: seq<Item>, bypassed: seq<Item>)

  datatype Step =
    | Start
    | Submit(item: Item)
    | FirstSection(id: nat)
    | SecondSection(id: nat)
    | Bypass(id: nat)
    | CountDrop(id: nat)
    | Refuse(id: nat)
    | WorkerTest
    | WorkerTake
    | WorkerWrite
    | WorkerRepeat
    | StopFlip
    | StopJoin
    | DrainWrite
    | DrainPop
    | DrainEnd

  function Initial(limit: nat): State {
    State(limit, false, [], 0, Free, map[], map[], NotStarted, Idle, [], [], [])
  }

  predicate SubmitIs(s: State, id: nat, phase: Submit) {
    id in s.submits && id in s.items && s.submits[id] == phase
  }

  predicate Enabled(s: State, step: Step) {
    match step
    case Start => !s.running && s.worker.NotStarted? && s.stopper.Idle?
    case Submit(item) => item.id !in s.submits
    case FirstSection(id) => SubmitIs(s, id, Trying) && s.mutex.Free?
    case SecondSection(id) => SubmitIs(s, id, Sleeping) && s.mutex.Free?
    case Bypass(id) => SubmitIs(s, id, Bypassing)
    case CountDrop(id) => SubmitIs(s, id, Dropping)
    case Refuse(id) => SubmitIs(s, id, Counted)
    case WorkerTest => s.worker.Top?
    case WorkerTake => s.worker.Taking? && s.mutex.Free?
    case WorkerWrite => s.worker.Writing? && s.worker.next < |s.worker.batch|
    case WorkerRepeat => s.worker.Writing? && s.worker.next == |s.worker.batch|
    case StopFlip => s.running && s.stopper.Idle?
    case StopJoin => s.stopper.Joining? && s.worker.Ended? && s.mutex.Free?
    case DrainWrite => s.stopper == Draining(false) && s.queue != []
    case DrainPop => s.stopper == Draining(true) && s.queue != []
    case DrainEnd => s.stopper == Draining(false) && s.queue == []
  }

  function Section(s: State, id: nat, retried: bool): State
    requires id in s.items
  {
    var item := s.items[id];
    match Decide(|s.queue|, s.limit, item.level, retried)
    case Push =>
      s.(queue := s.queue + [item], enqueued := s.enqueued + [item], submits := s.submits[id := Accepted(true)])
    case WriteDirectly => s.(submits := s.submits[id := Bypassing])
    case SleepAndRetry => s.(submits := s.submits[id := Sleeping])
    case Drop => s.(submits := s.submits[id := Dropping], mutex := HeldBySubmit(id))
  }

  function Apply(s: State, step: Step): State
    requires Enabled(s, step)
  {
    match step
    case Start => s.(running := true, worker := Top)
    case Submit(item) => s.(items := s.items[item.id := item], submits := s.submits[item.id := Trying])
    case FirstSection(id) => Section(s, id, false)
    case SecondSection(id) => Section(s, id, true)
    case Bypass(id) => s.(bypassed := s.bypassed + [s.items[id]], submits := s.submits[id := Accepted(false)])
    case CountDrop(id) => s.(dropped := s.dropped + 1, submits := s.submits[id := Counted])
    case Refuse(id) => s.(mutex := Free, submits := s.submits[id := Refused])
    case WorkerTest => s.(worker := if s.running then Taking else Ended)
    case WorkerTake =>
      var batch := FirstBatch(s.queue);
      s.(queue := s.queue[|batch|..], worker := Writing(batch, 0))
    case WorkerWrite =>
      s.(written := s.written + [s.worker.batch[s.worker.next]], worker := Writing(s.worker.batch, s.worker.next + 1))
    case WorkerRepeat => s.(worker := Top)
    case StopFlip => s.(running := false, stopper := Joining)
    case StopJoin => s.(mutex := HeldByStop, stopper := Draining(false))
    case DrainWrite => s.(written := s.written + [s.queue[0]], stopper := Draining(true))
    case DrainPop => s.(queue := s.queue[1..], stopper := Draining(false))
    case DrainEnd => s.(mutex := Free, stopper := Stopped)
  }

  ghost predicate Run(states: seq<State>, steps: seq<Step>, limit: nat) {
    && |states| == |steps| + 1
    && states[0] == Initial(limit)
    && forall i | 0 <= i < |steps| :: Enabled(states[i], steps[i]) && states[i + 1] == Apply(states[i], steps[i])
  }

  // The invariant

  /** What the worker has taken and not written. */
  function InHand(s: State): seq<Item> {
    if s.worker.Writing? && s.worker.next <= |s.worker.batch| then s.worker.batch[s.worker.next..] else []
  }

  /** What is in the queue and not written. */
  function Waiting(s: State): seq<Item> {
    if s.stopper == Draining(true) && s.queue != [] then s.queue[1..] else s.queue
  }

  ghost predicate OrderInv(s: State) {
    && s.enqueued == s.written + InHand(s) + Waiting(s)
    && |s.queue| <= s.limit
    && (s.worker.Writing? ==> s.worker.next <= |s.worker.batch|)
  }

  ghost predicate ThreadInv(s: State) {
    && (s.mutex.HeldByStop? <==> s.stopper.Draining?)
    && (s.stopper.Draining? || s.stopper.Stopped? ==> s.worker.Ended?)
    && (s.stopper == Draining(true) ==> s.queue != [])
    && (s.worker.Ended? ==> !s.running)
    && (s.running ==> s.stopper.Idle?)
    && (s.worker.NotStarted? ==> s.stopper.Idle? && !s.running)
  }

  ghost predicate SubmitInv(s: State) {
    && s.items.Keys == s.submits.Keys
    && (forall id | id in s.items :: s.items[id].id == id)
    && (forall id | id in s.submits ::
          s.submits[id].Dropping? || s.submits[id].Counted? <==> s.mutex == HeldBySubmit(id))
    && (s.mutex.HeldBySubmit? ==> s.mutex.id in s.submits)
    && (forall id | id in s.submits && HighPriority(s.items[id].level) ::
          s.submits[id].Trying? || s.submits[id].Bypassing? || s.submits[id].Accepted?)
    && (forall id | id in s.submits && s.submits[id].Bypassing? :: HighPriority(s.items[id].level))
    && (forall id | id in s.submits && s.submits[id].Sleeping? :: s.items[id].level.Warn?)
    && s.dropped == |RefusedIds(s)| + if s.mutex.HeldBySubmit? && s.submits[s.mutex.id].Counted? then 1 else 0
  }

  function RefusedIds(s: State): set<nat> { set id | id in s.submits && s.submits[id].Refused? }

  /** Each item is in the queue's history once if it was accepted there, and never otherwise. */
  ghost predicate OnceInv(s: State) {
    && (forall i, j | 0 <= i < j < |s.enqueued| :: s.enqueued[i].id != s.enqueued[j].id)
    && (forall item | item in s.enqueued :: SubmitIs(s, item.id, Accepted(true)) && s.items[item.id] == item)
    && (forall id | id in s.submits && id in s.items && s.submits[id] == Accepted(true) :: s.items[id] in s.enqueued)
    && (forall id | id in s.submits && id in s.items && s.submits[id] == Accepted(false) :: s.items[id] in s.bypassed)
  }

  ghost predicate Inv(s: State) { OrderInv(s) && ThreadInv(s) && SubmitInv(s) && OnceInv(s) }

  lemma StepKeepsOrder(s: State, step: Step)
    requires OrderInv(s) && ThreadInv(s) && Enabled(s, step)
    ensures OrderInv(Apply(s, step))
  {
    match step {
      case FirstSection(id) => SectionKeepsOrder(s, id, false);
      case SecondSection(id) => SectionKeepsOrder(s, id, true);
      case WorkerTake => TakeKeepsOrder(s);
      case WorkerWrite => WriteKeepsOrder(s);
      case DrainWrite => assert s.written + [s.queue[0]] + s.queue[1..] == s.written + s.queue;
      case _ =>
    }
  }

  lemma SectionKeepsOrder(s: State, id: nat, retried: bool)
    requires OrderInv(s) && s.stopper != Draining(true) && id in s.items
    ensures OrderInv(Section(s, id, retried))
  {
    hide Decide;
    assert s.written + InHand(s) + (s.queue + [s.items[id]]) == s.enqueued + [s.items[id]];
    PushNeedsRoom(s, id, retried);
  }

  lemma PushNeedsRoom(s: State, id: nat, retried: bool)
    requires id in s.items
    ensures Decide(|s.queue|, s.limit, s.items[id].level, retried).Push? <==> |s.queue| < s.limit
  {
  }

  lemma TakeKeepsOrder(s: State)
    requires OrderInv(s) && ThreadInv(s) && Enabled(s, WorkerTake)
    ensures OrderInv(Apply(s, WorkerTake))
  {
    hide FirstBatch;
    var batch := FirstBatch(s.queue);
    assert Apply(s, WorkerTake).worker == Writing(batch, 0) && batch[0..] == batch;
    BatchThenRest(s.written, batch, s.queue);
  }

  lemma BatchThenRest(written: seq<Item>, batch: seq<Item>, queue: seq<Item>)
    requires batch <= queue
    ensures written + batch + queue[|batch|..] == written + queue
  {
  }

  lemma WriteKeepsOrder(s: State)
    requires OrderInv(s) && Enabled(s, WorkerWrite)
    ensures OrderInv(Apply(s, WorkerWrite))
  {
    var Writing(batch, n) := s.worker;
    assert s.written + [batch[n]] + batch[n + 1..] == s.written + batch[n..];
  }

  lemma StepKeepsThreads(s: State, step: Step)
    requires OrderInv(s) && ThreadInv(s) && SubmitInv(s) && Enabled(s, step)
    ensures ThreadInv(Apply(s, step))
  {
  }

  lemma StepKeepsSubmits(s: State, step: Step)
    requires ThreadInv(s) && SubmitInv(s) && Enabled(s, step)
    ensures SubmitInv(Apply(s, step))
  {
    match step {
      case FirstSection(id) =>
        hide SubmitInv;
        SectionKeepsSubmits(s, id, false);
      case SecondSection(id) =>
        hide SubmitInv;
        SectionKeepsSubmits(s, id, true);
      case Refuse(id) => hide *; RefuseKeepsSubmits(s, id);
      case Submit(item) => hide *; SubmitKeepsSubmits(s, item);
      case CountDrop(id) => hide *; CountKeepsSubmits(s, id);
      case Bypass(id) => hide *; BypassKeepsSubmits(s, id);
      case _ =>
        hide SubmitInv;
        OthersKeepSubmits(s, Apply(s, step));
    }
  }

  lemma SubmitKeepsSubmits(s: State, item: Item)
    requires SubmitInv(s) && Enabled(s, Submit(item))
    ensures SubmitInv(Apply(s, Submit(item)))
  {
    assert RefusedIds(Apply(s, Submit(item))) == RefusedIds(s);
  }

  lemma CountKeepsSubmits(s: State, id: nat)
    requires SubmitInv(s) && Enabled(s, CountDrop(id))
    ensures SubmitInv(Apply(s, CountDrop(id)))
  {
    assert RefusedIds(Apply(s, CountDrop(id))) == RefusedIds(s);
  }

  lemma BypassKeepsSubmits(s: State, id: nat)
    requires SubmitInv(s) && Enabled(s, Bypass(id))
    ensures SubmitInv(Apply(s, Bypass(id)))
  {
    assert RefusedIds(Apply(s, Bypass(id))) == RefusedIds(s);
  }

  lemma SectionKeepsSubmits(s: State, id: nat, retried: bool)
    requires SubmitInv(s) && SubmitIs(s, id, if retried then Sleeping else Trying) && s.mutex.Free?
    ensures SubmitInv(Section(s, id, retried))
  {
    var t := Section(s, id, retried);
    assert RefusedIds(t) == RefusedIds(s);
    assert t.submits == s.submits[id := t.submits[id]] && t.items == s.items && t.dropped == s.dropped;
    assert t.submits[id].Bypassing? ==> HighPriority(s.items[id].level);
    assert t.submits[id].Sleeping? ==> s.items[id].level.Warn?;
    hide Decide;
  }

  lemma RefuseKeepsSubmits(s: State, id: nat)
    requires SubmitInv(s) && SubmitIs(s, id, Counted)
    ensures SubmitInv(Apply(s, Refuse(id)))
  {
    assert RefusedIds(Apply(s, Refuse(id))) == RefusedIds(s) + {id};
  }

  lemma OthersKeepSubmits(s: State, t: State)
    requires SubmitInv(s) && t.items == s.items && t.submits == s.submits && t.dropped == s.dropped
    requires t.mutex == s.mutex || (!t.mutex.HeldBySubmit? && !s.mutex.HeldBySubmit?)
    ensures SubmitInv(t)
  {
    assert RefusedIds(t) == RefusedIds(s);
  }

  lemma StepKeepsOnce(s: State, step: Step)
    requires SubmitInv(s) && OnceInv(s) && Enabled(s, step)
    ensures OnceInv(Apply(s, step))
  {
    var t := Apply(s, step);
    match step {
      case FirstSection(id) => SectionKeepsOnce(s, id, false);
      case SecondSection(id) => SectionKeepsOnce(s, id, true);
      case Bypass(id) => BypassKeepsOnce(s, id);
      case Submit(item) => OthersKeepOnce(s, t, item.id);
      case CountDrop(id) => OthersKeepOnce(s, t, id);
      case Refuse(id) => OthersKeepOnce(s, t, id);
      case _ =>
    }
  }

  lemma SectionKeepsOnce(s: State, id: nat, retried: bool)
    requires SubmitInv(s) && OnceInv(s) && SubmitIs(s, id, if retried then Sleeping else Trying)
    ensures OnceInv(Section(s, id, retried))
  {
    hide SubmitInv, OnceInv;
    var t := Section(s, id, retried);
    if t.submits[id] == Accepted(true) {
      ItemsKnowTheirId(s, id);
      PushKeepsOnce(s, t, id);
    } else {
      OthersKeepOnce(s, t, id);
    }
  }

  lemma PushKeepsOnce(s: State, t: State, id: nat)
    requires OnceInv(s) && id in s.submits && id in s.items && !s.submits[id].Accepted? && s.items[id].id == id
    requires t.enqueued == s.enqueued + [s.items[id]] && t.bypassed == s.bypassed
    requires t.items == s.items && t.submits == s.submits[id := Accepted(true)]
    ensures OnceInv(t)
  {
    forall item | item in t.enqueued ensures SubmitIs(t, item.id, Accepted(true)) && t.items[item.id] == item {
      assert item in s.enqueued || item == s.items[id];
    }
    assert forall item | item in s.enqueued :: item.id != id && item in t.enqueued;
    assert t.enqueued[|s.enqueued|] == s.items[id];
  }

  lemma ItemsKnowTheirId(s: State, id: nat)
    requires SubmitInv(s) && id in s.items
    ensures s.items[id].id == id
  {
  }

  lemma BypassKeepsOnce(s: State, id: nat)
    requires OnceInv(s) && SubmitIs(s, id, Bypassing)
    ensures OnceInv(Apply(s, Bypass(id)))
  {
    var t := Apply(s, Bypass(id));
    assert t.bypassed[|s.bypassed|] == s.items[id];
    assert forall item | item in s.bypassed :: item in t.bypassed;
  }

  /** A submit moves on without being accepted. */
  lemma OthersKeepOnce(s: State, t: State, id: nat)
    requires OnceInv(s) && t.enqueued == s.enqueued && t.bypassed == s.bypassed
    requires id in t.items && id in t.submits && !t.submits[id].Accepted?
    requires id in s.submits ==> !s.submits[id].Accepted?
    requires t.items == s.items[id := t.items[id]] && t.submits == s.submits[id := t.submits[id]]
    ensures OnceInv(t)
  {
  }

  lemma StepKeepsInv(s: State, step: Step)
    requires Inv(s) && Enabled(s, step)
    ensures Inv(Apply(s, step)) && Apply(s, step).limit == s.limit
  {
    StepKeepsLimit(s, step);
    hide OrderInv, ThreadInv, SubmitInv, OnceInv, Apply, Enabled;
    StepKeepsOrder(s, step);
    StepKeepsThreads(s, step);
    StepKeepsSubmits(s, step);
    StepKeepsOnce(s, step);
  }

  lemma StepKeepsLimit(s: State, step: Step)
    requires Enabled(s, step)
    ensures Apply(s, step).limit == s.limit
  {
  }

  lemma {:induction false} RunKeepsInv(states: seq<State>, steps: seq<Step>, limit: nat, i: nat)
    requires Run(states, steps, limit) && i < |states|
    ensures Inv(states[i]) && states[i].limit == limit
  {
    if i > 0 {
      hide Inv, Apply, Enabled;
      RunKeepsInv(states, steps, limit, i - 1);
      StepKeepsInv(states[i - 1], steps[i - 1]);
    } else {
      hide Inv;
      InitialInv(limit);
    }
  }

  lemma InitialInv(limit: nat)
    ensures Inv(Initial(limit))
  {
  }

  // Main results, for every interleaving

  /**
   Lines leave the queue in the order in which they entered it and none is lost or written twice: what was ever
   enqueued is what was written from the queue, then the unwritten rest of the worker's batch, then the queue.
   */
  lemma Conservation(states: seq<State>, steps: seq<Step>, limit: nat, i: nat)
    requires Run(states, steps, limit) && i < |states|
    ensures var s := states[i];
            && s.enqueued == s.written + InHand(s) + Waiting(s)
            && |s.queue| <= limit
            && (forall j, k | 0 <= j < k < |s.enqueued| :: s.enqueued[j] != s.enqueued[k])
  {
    RunKeepsInv(states, steps, limit, i);
  }

  /** With nobody in the middle of being refused, the drop counter is the number of submits that returned false. */
  lemma DropsAreCounted(states: seq<State>, steps: seq<Step>, limit: nat, i: nat)
    requires Run(states, steps, limit) && i < |states|
    ensures states[i].mutex.Free? ==> states[i].dropped == |RefusedIds(states[i])|
    ensures |RefusedIds(states[i])| <= states[i].dropped <= |RefusedIds(states[i])| + 1
  {
    RunKeepsInv(states, steps, limit, i);
  }

  /** A submit that returned true has its line in the queue's history or written by itself; errors are never dropped. */
  lemma AcceptedLinesAreKept(states: seq<State>, steps: seq<Step>, limit: nat, i: nat, id: nat)
    requires Run(states, steps, limit) && i < |states| && id in states[i].submits && id in states[i].items
    ensures states[i].submits[id].Accepted? ==>
      states[i].items[id] in if states[i].submits[id].queued then states[i].enqueued else states[i].bypassed
    ensures states[i].items[id].level == Error || states[i].items[id].level == Fatal ==>
      states[i].submits[id] !in {Refused, Dropping, Counted, Sleeping}
  {
    RunKeepsInv(states, steps, limit, i);
  }

  /** The first look of a submit: a line enters a queue with room; at the limit its level decides. */
  lemma LevelDecides(states: seq<State>, steps: seq<Step>, limit: nat, i: nat, id: nat)
    requires Run(states, steps, limit) && i < |steps| && steps[i] == FirstSection(id)
    ensures id in states[i].items && id in states[i + 1].submits
    ensures var s, t, level := states[i], states[i + 1], states[i].items[id].level;
            if |s.queue| < limit then t.submits[id] == Accepted(true) && t.queue == s.queue + [s.items[id]]
            else
              && t.queue == s.queue
              && (t.submits[id] == Bypassing <==> level == Error || level == Fatal)
              && (t.submits[id] == Sleeping <==> level == Warn)
              && (t.submits[id] == Dropping <==> level in {Trace, Debug, Info, Off})
  {
    hide Inv;
    RunKeepsInv(states, steps, limit, i);
    assert states[i + 1] == Apply(states[i], steps[i]);
  }

  /** The second look, which only a warning gets: it enters the queue exactly if there is room now. */
  lemma SecondLook(states: seq<State>, steps: seq<Step>, limit: nat, i: nat, id: nat)
    requires Run(states, steps, limit) && i < |steps| && steps[i] == SecondSection(id)
    ensures id in states[i].items && states[i].items[id].level == Warn && id in states[i + 1].submits
    ensures var s, t := states[i], states[i + 1];
            if |s.queue| < limit then t.submits[id] == Accepted(true) && t.queue == s.queue + [s.items[id]]
            else t.submits[id] == Dropping && t.queue == s.queue
  {
    RunKeepsInv(states, steps, limit, i);
    assert states[i + 1] == Apply(states[i], steps[i]);
  }

  /** When the drain of stop ends, everything ever enqueued has been written. */
  lemma StopWritesEverything(states: seq<State>, steps: seq<Step>, limit: nat, i: nat)
    requires Run(states, steps, limit) && i < |steps| && steps[i].DrainEnd?
    ensures states[i + 1].written == states[i + 1].enqueued && states[i + 1].stopper.Stopped?
  {
    RunKeepsInv(states, steps, limit, i);
  }

  lemma StepAfterStop(s: State, step: Step)
    requires ThreadInv(s) && s.stopper.Stopped? && Enabled(s, step)
    ensures Apply(s, step).stopper.Stopped? && Apply(s, step).written == s.written
  {
  }

  /** From then on nothing is written from the queue, and what is left in it was enqueued since. */
  lemma {:induction false} StopIsFinal(states: seq<State>, steps: seq<Step>, limit: nat, i: nat, j: nat)
    requires Run(states, steps, limit) && i < j < |states| && steps[i].DrainEnd?
    ensures states[j].stopper.Stopped? && states[j].written == states[i + 1].enqueued
    ensures states[j].enqueued == states[i + 1].enqueued + states[j].queue
    decreases j
  {
    hide SubmitInv, OnceInv, Apply, Enabled;
    if j == i + 1 {
      StopWritesEverything(states, steps, limit, i);
    } else {
      StopIsFinal(states, steps, limit, i, j - 1);
      RunKeepsInv(states, steps, limit, j - 1);
      StepAfterStop(states[j - 1], steps[j - 1]);
    }
    RunKeepsInv(states, steps, limit, j);
  }

  // A stop that has begun can always end

  predicate Ending(s: State) { s.stopper.Joining? || s.stopper.Draining? }

  function StopperRank(s: State): nat { if s.stopper.Joining? then 2 else if s.stopper.Draining? then 1 else 0 }

  function WorkRank(s: State): nat {
    match s.stopper
    case Draining(frontWritten) => 2 * |s.queue| + if frontWritten then 0 else 1
    case _ =>
      match s.worker
      case Taking => |s.queue| + 4
      case Writing(batch, next) => if next <= |batch| then |batch| - next + 3 else 3
      case Top => 2
      case _ => 1
  }

  function MutexRank(s: State): nat {
    if s.mutex.HeldBySubmit? && s.mutex.id in s.submits then
      if s.submits[s.mutex.id].Dropping? then 2 else 1
    else 0
  }

  predicate Closer(t: State, s: State) {
    || StopperRank(t) < StopperRank(s)
    || (StopperRank(t) == StopperRank(s) && WorkRank(t) < WorkRank(s))
    || (StopperRank(t) == StopperRank(s) && WorkRank(t) == WorkRank(s) && MutexRank(t) < MutexRank(s))
  }

  lemma NextTowardsEnd(s: State) returns (step: Step)
    requires ThreadInv(s) && SubmitInv(s) && OrderInv(s) && Ending(s)
    ensures Enabled(s, step) && !step.Submit? && Closer(Apply(s, step), s)
    ensures Ending(Apply(s, step)) || Apply(s, step).stopper.Stopped?
  {
    if s.mutex.HeldBySubmit? {
      step := if s.submits[s.mutex.id].Dropping? then CountDrop(s.mutex.id) else Refuse(s.mutex.id);
    } else {
      step :=
        match s.stopper
        case Draining(frontWritten) => if frontWritten then DrainPop else if s.queue == [] then DrainEnd else DrainWrite
        case _ =>
          match s.worker
          case Taking => WorkerTake
          case Writing(batch, next) => if next < |batch| then WorkerWrite else WorkerRepeat
          case Top => WorkerTest
          case _ => StopJoin;
    }
  }

  /** Every run in which stop has begun can go on, without a new submit, until stop has drained the queue. */
  lemma {:induction false} StopCanEnd(states: seq<State>, steps: seq<Step>, limit: nat)
      returns (states': seq<State>, steps': seq<Step>)
    requires Run(states, steps, limit) && Ending(states[|steps|])
    ensures Run(states', steps', limit) && states <= states' && steps <= steps'
    ensures forall k | |steps| <= k < |steps'| :: !steps'[k].Submit?
    ensures states'[|steps'|].stopper.Stopped?
    decreases StopperRank(states[|steps|]), WorkRank(states[|steps|]), MutexRank(states[|steps|])
  {
    hide ThreadInv, SubmitInv, OrderInv, OnceInv, Enabled, Apply, WorkRank, MutexRank, StopperRank;
    var s := states[|steps|];
    RunKeepsInv(states, steps, limit, |steps|);
    var step := NextTowardsEnd(s);
    states', steps' := states + [Apply(s, step)], steps + [step];
    if Ending(Apply(s, step)) {
      states', steps' := StopCanEnd(states', steps', limit);
    }
  }

  predicate Returned(s: State, id: nat) {
    id in s.submits && id in s.items && (s.submits[id].Accepted? || s.submits[id].Refused?)
  }

  lemma ReturnedStays(s: State, step: Step, id: nat)
    requires Enabled(s, step) && Returned(s, id)
    ensures Returned(Apply(s, step), id) && Apply(s, step).submits[id] == s.submits[id]
  {
  }

  lemma {:induction false} ReturnedForGood(states: seq<State>, steps: seq<Step>, limit: nat, i: nat, j: nat, id: nat)
    requires Run(states, steps, limit) && i <= j < |states| && Returned(states[i], id)
    ensures Returned(states[j], id) && states[j].submits[id] == states[i].submits[id]
    decreases j
  {
    hide Apply, Enabled;
    if i < j {
      ReturnedForGood(states, steps, limit, i, j - 1, id);
      ReturnedStays(states[j - 1], steps[j - 1], id);
    }
  }

  /** A line that stop leaves in the queue belongs to a submit that had not returned when the drain ended. */
  lemma OnlyLateLinesAreLeft(states: seq<State>, steps: seq<Step>, limit: nat, i: nat, j: nat, item: Item)
    requires Run(states, steps, limit) && i < j < |states| && steps[i].DrainEnd? && item in states[j].queue
    ensures !Returned(states[i], item.id)
  {
    hide Apply, Enabled, SubmitInv, OnceInv, OrderInv, ThreadInv;
    StopIsFinal(states, steps, limit, i, j);
    RunKeepsInv(states, steps, limit, i);
    RunKeepsInv(states, steps, limit, j);
    if Returned(states[i], item.id) {
      ReturnedForGood(states, steps, limit, i, j, item.id);
      DrainEndKeepsLines(states[i], steps[i]);
      NotEnqueuedAgain(states[i], states[j], item);
    }
  }

  lemma DrainEndKeepsLines(s: State, step: Step)
    requires Enabled(s, step) && step.DrainEnd?
    ensures Apply(s, step).enqueued == s.enqueued
  {
  }

  /** A submit that had returned has no line among those enqueued since. */
  lemma NotEnqueuedAgain(s: State, t: State, item: Item)
    requires SubmitInv(s) && OnceInv(s) && OnceInv(t) && t.enqueued == s.enqueued + t.queue
    requires Returned(s, item.id) && Returned(t, item.id) && t.submits[item.id] == s.submits[item.id]
    ensures item !in t.queue
  {
    ItemsKnowTheirId(s, item.id);
    hide SubmitInv;
    var n := |s.enqueued|;
    if s.submits[item.id] == Accepted(true) {
      assert s.items[item.id] in s.enqueued;
      var i: nat :| i < |s.enqueued| && s.enqueued[i] == s.items[item.id];
      assert t.enqueued[i].id == item.id;
      forall j | 0 <= j < |t.queue| ensures t.queue[j] != item {
        assert t.enqueued[n + j] == t.queue[j];
      }
    } else {
      forall j | 0 <= j < |t.queue| ensures t.queue[j] != item {
        assert t.enqueued[n + j] == t.queue[j] && t.queue[j] in t.enqueued;
      }
    }
  }

  // The loops behind the steps

  /** The object itself; output is what the writer callback has been given. */
  class Dispatcher {
    const queueSize: nat
    var queue: seq<Item>
    var dropped: nat
    var output: seq<Item>

    constructor (queueSize: nat)
      ensures this.queueSize == queueSize && queue == [] && dropped == 0 && output == []
    {
      this.queueSize := queueSize;
      queue, dropped, output := [], 0, [];
    }

    method CallWriter(item: Item)
      modifies `output
      ensures output == old(output) + [item]
    {
      output := output + [item];
    }

    /** While a submitter sleeps without the mutex, the worker may take batches and write them. */
    method Sleep()
      modifies this
      ensures output + queue == old(output) + old(queue) && dropped == old(dropped) && |queue| <= |old(queue)|
    {
      var workerRuns: bool := *;
      while workerRuns && queue != []
        invariant output + queue == old(output) + old(queue) && dropped == old(dropped) && |queue| <= |old(queue)|
        decreases |queue|
      {
        var batch := TakeBatch();
        WriteBatch(batch);
        workerRuns := *;
      }
    }

    /** A submit with no other submitter about; found is the length of the queue at its last look. */
    method Submit(item: Item) returns (ok: bool, ghost found: nat)
      modifies this
      ensures found <= |old(queue)|
      ensures |old(queue)| < queueSize ==>
        ok && queue == old(queue) + [item] && output == old(output) && dropped == old(dropped)
      ensures |old(queue)| >= queueSize && item.level in {Error, Fatal} ==>
        ok && queue == old(queue) && output == old(output) + [item] && dropped == old(dropped)
      ensures |old(queue)| >= queueSize && item.level == Warn ==>
        && output + queue == old(output) + old(queue) + (if ok then [item] else [])
        && (ok <==> found < queueSize) && |queue| == found + (if ok then 1 else 0)
        && dropped == old(dropped) + (if ok then 0 else 1)
      ensures |old(queue)| >= queueSize && item.level in {Trace, Debug, Info, Off} ==>
        !ok && queue == old(queue) && output == old(output) && dropped == old(dropped) + 1
    {
      found := |queue|;
      if |queue| < queueSize {
        queue := queue + [item];
        return true, found;
      }
      if HighPriority(item.level) {
        CallWriter(item);
        return true, found;
      }
      if item.level.Warn? {
        Sleep();
        found := |queue|;
        if |queue| < queueSize {
          queue := queue + [item];
          return true, found;
        }
      }
      dropped := dropped + 1;
      ok := false;
    }

    /** The inner loop of the worker's critical section. */
    method TakeBatch() returns (batch: seq<Item>)
      modifies `queue
      ensures batch == FirstBatch(old(queue)) && queue == old(queue)[|batch|..]
      ensures |batch| == if |old(queue)| < 64 then |old(queue)| else 64
    {
      batch := [];
      while queue != [] && |batch| < BATCH_SIZE
        invariant |batch| <= BATCH_SIZE && old(queue) == batch + queue
        decreases |queue|
      {
        batch := batch + [queue[0]];
        queue := queue[1..];
      }
    }

    method WriteBatch(batch: seq<Item>)
      modifies `output
      ensures output == old(output) + batch
    {
      for i := 0 to |batch|
        invariant output == old(output) + batch[..i]
      {
        CallWriter(batch[i]);
      }
    }

    /** What stop does after the join. */
    method Drain()
      modifies this
      ensures queue == [] && output == old(output) + old(queue) && dropped == old(dropped)
    {
      while queue != []
        invariant output + queue == old(output) + old(queue) && dropped == old(dropped)
        decreases |queue|
      {
        CallWriter(queue[0]);
        queue := queue[1..];
      }
    }
  }
}
