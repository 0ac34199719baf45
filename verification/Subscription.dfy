/**
 The life of a subscription in src/ipc/ipc_client.cpp: the thread that starts it, its read thread, any number of
 concurrent cancels made by other threads, and its reconnect backoff.  A step is one atomic access, one system call,
 one end of a callback, the spawn of the read thread or the assignment of its handle.
 */
module Subscription {
  import opened Numerals
  import opened Shared

  type Thread = nat

  /** Where the read thread is; a connection is numbered by the order in which its descriptor was opened. */
  datatype Loop =
    | NotStarted
    | Top
    | Opening
    | Opened(conn: nat)
    | Connected(conn: nat)
    | Requested(conn: nat)
    | Subscribed(conn: nat)
    | Events(conn: nat)
    | Reading(conn: nat)
    | Callback(conn: nat)
    | Broken(conn: nat)
    | Closing(conn: nat)
    | Retrying
    | Rejected
    | Exiting
    | Exited

  /** m_thread: start spawns the read thread first and assigns the handle afterwards. */
  datatype Handle = Unassigned | Joinable | Joined

  /** Where a cancel is; Took has exchanged m_fd and holds what was in it. */
  datatype Phase = Entered | Won | Took(fd: Option<nat>) | Ready | Passed

  /** The thread in possession of the cancel mutex. */
  datatype Cancel = Cancel(thread: Thread, phase: Phase)

  /**
   params: m_params; published: m_fd, as the number of a connection; sent: the params of every request begun;
   closes: the connections closed, in order; callbacks: how many callbacks have been entered; returned: the threads
   whose cancel has returned.
   */
  datatype State = State(
    params: string, active: bool, loop: Loop, handle: Handle, published: Option<nat>, cancel: Option<Cancel>,
    opens: nat, closes: seq<nat>, sent: seq<string>, callbacks: nat, joins: nat, returned: set<Thread>)

  datatype Step =
    | Spawn                           // the read thread exists
    | Assign                          // m_thread is assigned
    | Test                            // the loop test of m_active
    | Open                            // socket succeeds
    | OpenFails
    | Connect(ok: bool)
    | Request(ok: bool)
    | Respond(ok: bool, accepted: bool)
    | Publish                         // m_fd.store(fd)
    | Poll                            // the test of m_active in front of a read
    | Read(ok: bool)
    | Return                          // the callback ends
    | Unpublish                       // m_fd.store(-1)
    | Close
    | Proceed                         // after a failure or a broken connection
    | Exit
    | CancelEnter(thread: Thread)
    | CancelFlip(thread: Thread)      // compare_exchange on m_active
    | CancelTake(thread: Thread)      // m_fd.exchange(-1)
    | CancelShutdown(thread: Thread)
    | CancelJoin(thread: Thread)      // the test of joinable, with the join if it says so
    | CancelReturn(thread: Thread)

  function Initial(params: string): State {
    State(params, true, NotStarted, Unassigned, None, None, 0, [], [], 0, 0, {})
  }

  predicate In(s: State, thread: Thread, phase: Phase) { s.cancel == Some(Cancel(thread, phase)) }

  predicate Enabled(s: State, step: Step) {
    match step
    case Spawn => s.loop.NotStarted?
    case Assign => !s.loop.NotStarted? && s.handle.Unassigned?
    case Test => s.loop.Top?
    case Open => s.loop.Opening?
    case OpenFails => s.loop.Opening?
    case Connect(_) => s.loop.Opened?
    case Request(_) => s.loop.Connected?
    case Respond(_, _) => s.loop.Requested?
    case Publish => s.loop.Subscribed?
    case Poll => s.loop.Events?
    case Read(_) => s.loop.Reading?
    case Return => s.loop.Callback?
    case Unpublish => s.loop.Broken?
    case Close => s.loop.Closing?
    case Proceed => s.loop.Retrying? || s.loop.Rejected?
    case Exit => s.loop.Exiting?
    case CancelEnter(_) => s.cancel.None?
    case CancelFlip(t) => In(s, t, Entered)
    case CancelTake(t) => In(s, t, Won)
    case CancelShutdown(t) => s.cancel.Some? && s.cancel.value.thread == t && s.cancel.value.phase.Took?
    case CancelJoin(t) => In(s, t, Ready) && (s.handle.Joinable? ==> s.loop.Exited?)
    case CancelReturn(t) => In(s, t, Passed)
  }

  /** The read thread closes what it opened and goes on to next. */
  function CloseAnd(s: State, conn: nat, next: Loop): State { s.(closes := s.closes + [conn], loop := next) }

  function Apply(s: State, step: Step): State
    requires Enabled(s, step)
  {
    match step
    case Spawn => s.(loop := Top)
    case Assign => s.(handle := Joinable)
    case Test => s.(loop := if s.active then Opening else Exiting)
    case Open => s.(loop := Opened(s.opens), opens := s.opens + 1)
    case OpenFails => s.(loop := Retrying)
    case Connect(ok) => if ok then s.(loop := Connected(s.loop.conn)) else CloseAnd(s, s.loop.conn, Retrying)
    case Request(ok) =>
      var t := s.(sent := s.sent + [s.params]);
      if ok then t.(loop := Requested(s.loop.conn)) else CloseAnd(t, s.loop.conn, Retrying)
    case Respond(ok, accepted) =>
      if ok && accepted then s.(loop := Subscribed(s.loop.conn))
      else CloseAnd(s, s.loop.conn, if ok then Rejected else Retrying)
    case Publish => s.(loop := Events(s.loop.conn), published := Some(s.loop.conn))
    case Poll => s.(loop := if s.active then Reading(s.loop.conn) else Broken(s.loop.conn))
    case Read(ok) =>
      if ok then s.(loop := Callback(s.loop.conn), callbacks := s.callbacks + 1) else s.(loop := Broken(s.loop.conn))
    case Return => s.(loop := Events(s.loop.conn))
    case Unpublish => s.(loop := Closing(s.loop.conn), published := None)
    case Close => CloseAnd(s, s.loop.conn, Retrying)
    case Proceed =>
      s.(loop := if !s.active || s.loop.Rejected? then Exiting else Top, active := s.active && !s.loop.Rejected?)
    case Exit => s.(active := false, loop := Exited)
    case CancelEnter(t) => s.(cancel := Some(Cancel(t, Entered)))
    case CancelFlip(t) => s.(active := false, cancel := Some(Cancel(t, if s.active then Won else Ready)))
    case CancelTake(t) => s.(published := None, cancel := Some(Cancel(t, Took(s.published))))
    case CancelShutdown(t) => s.(cancel := Some(Cancel(t, Ready)))
    case CancelJoin(t) =>
      var u := s.(cancel := Some(Cancel(t, Passed)));
      if s.handle.Joinable? then u.(handle := Joined, joins := s.joins + 1) else u
    case CancelReturn(t) => s.(cancel := None, returned := s.returned + {t})
  }

  ghost predicate Run(states: seq<State>, params: string, steps: seq<Step>) {
    && |states| == |steps| + 1
    && states[0] == Initial(params)
    && forall i | 0 <= i < |steps| ::
      Enabled(states[i], steps[i]) && states[i + 1] == Apply(states[i], steps[i])
  }

  // The invariant

  /** The connection whose descriptor the read thread has open. */
  predicate HasOpen(loop: Loop) {
    loop.Opened? || loop.Connected? || loop.Requested? || loop.Subscribed? || loop.Events? || loop.Reading?
    || loop.Callback? || loop.Broken? || loop.Closing?
  }

  /** Between the store of the descriptor into m_fd and the store of -1. */
  predicate IsPublic(loop: Loop) { loop.Events? || loop.Reading? || loop.Callback? || loop.Broken? }

  function UpTo(n: nat): seq<nat> { seq(n, i => i) }

  ghost predicate DescriptorInv(s: State) {
    && (if HasOpen(s.loop) then s.opens > 0 && s.loop.conn == s.opens - 1 && s.closes == UpTo(s.opens - 1)
        else s.closes == UpTo(s.opens))
    && (s.published.Some? ==> IsPublic(s.loop) && s.published.value == s.loop.conn)
  }

  ghost predicate ThreadInv(s: State) {
    && s.joins == (if s.handle.Joined? then 1 else 0)
    && (s.handle.Joined? ==> s.loop.Exited?)
    && (!s.handle.Unassigned? ==> !s.loop.NotStarted?)
    && (s.cancel.Some? && !s.cancel.value.phase.Entered? ==> !s.active)
    && (s.loop.Exited? ==> !s.active)
  }

  ghost predicate Inv(s: State, params: string) {
    DescriptorInv(s) && ThreadInv(s) && s.params == params && forall i | 0 <= i < |s.sent| :: s.sent[i] == params
  }

  lemma StepKeepsDescriptors(s: State, step: Step)
    requires DescriptorInv(s) && Enabled(s, step)
    ensures DescriptorInv(Apply(s, step))
  {
    hide UpTo;
    ClosedAppend(s.opens);
  }

  lemma ClosedAppend(opens: nat)
    ensures opens > 0 ==> UpTo(opens - 1) + [opens - 1] == UpTo(opens)
  {
  }

  lemma StepKeepsInv(s: State, params: string, step: Step)
    requires Inv(s, params) && Enabled(s, step)
    ensures Inv(Apply(s, step), params)
  {
    hide DescriptorInv;
    StepKeepsDescriptors(s, step);
  }

  lemma {:induction false} RunKeepsInv(states: seq<State>, params: string, steps: seq<Step>, i: nat)
    requires Run(states, params, steps) && i < |states|
    ensures Inv(states[i], params)
  {
    hide Inv, Apply, Enabled;
    if i > 0 {
      RunKeepsInv(states, params, steps, i - 1);
      StepKeepsInv(states[i - 1], params, steps[i - 1]);
    } else {
      InitialInv(params);
    }
  }

  lemma InitialInv(params: string)
    ensures Inv(Initial(params), params)
  {
  }

  // Main results, for every interleaving of the starting thread, the read thread and the cancels

  /** The thread is joined at most once, when ended; a cancel leaves it joined exactly if the handle was assigned. */
  lemma JoinedOnce(states: seq<State>, params: string, steps: seq<Step>, i: nat)
    requires Run(states, params, steps) && i < |states|
    ensures states[i].joins <= 1
    ensures states[i].joins == 1 ==> states[i].loop.Exited? && states[i].handle.Joined?
    ensures i < |steps| && steps[i].CancelJoin? ==> (states[i + 1].joins == 1 <==> !states[i].handle.Unassigned?)
  {
    RunKeepsInv(states, params, steps, i);
  }

  /** Descriptors are closed in the order of opening, each once; at most the newest is open, and none at the end. */
  lemma ClosedExactlyOnce(states: seq<State>, params: string, steps: seq<Step>, i: nat)
    requires Run(states, params, steps) && i < |states|
    ensures var s := states[i];
            s.closes == UpTo(if HasOpen(s.loop) && s.opens > 0 then s.opens - 1 else s.opens)
            && (s.loop.Exited? ==> s.closes == UpTo(s.opens))
  {
    RunKeepsInv(states, params, steps, i);
  }

  /** Every connect and reconnect sends the same params. */
  lemma SameParams(states: seq<State>, params: string, steps: seq<Step>, i: nat, k: nat)
    requires Run(states, params, steps) && i < |states| && k < |states[i].sent|
    ensures states[i].sent[k] == params
  {
    RunKeepsInv(states, params, steps, i);
  }

  function Requests(steps: seq<Step>): nat {
    if steps == [] then 0 else Requests(steps[..|steps| - 1]) + if steps[|steps| - 1].Request? then 1 else 0
  }

  function EventsRead(steps: seq<Step>): nat {
    if steps == [] then 0 else EventsRead(steps[..|steps| - 1]) + if steps[|steps| - 1] == Read(true) then 1 else 0
  }

  /** Each of them sends one request, and each event read enters the callback once. */
  lemma {:induction false} EachOnce(states: seq<State>, params: string, steps: seq<Step>, i: nat)
    requires Run(states, params, steps) && i < |states|
    ensures |states[i].sent| == Requests(steps[..i]) && states[i].callbacks == EventsRead(steps[..i])
  {
    hide Apply, Enabled;
    if i > 0 {
      EachOnce(states, params, steps, i - 1);
      assert steps[..i][..i - 1] == steps[..i - 1];
      OneStepCounts(states[i - 1], steps[i - 1]);
    }
  }

  lemma OneStepCounts(s: State, step: Step)
    requires Enabled(s, step)
    ensures |Apply(s, step).sent| == |s.sent| + if step.Request? then 1 else 0
    ensures Apply(s, step).callbacks == s.callbacks + if step == Read(true) then 1 else 0
  {
  }

  // Acceptance, rejection and retry

  /** The server has accepted the subscription on this connection. */
  predicate Accepted(loop: Loop) { loop.Subscribed? || IsPublic(loop) || loop.Closing? }

  /** The read thread gets to the events of a connection only after the server has answered 0 on it. */
  lemma {:induction false} AcceptedFirst(states: seq<State>, params: string, steps: seq<Step>, i: nat)
    requires Run(states, params, steps) && i < |states| && Accepted(states[i].loop)
    ensures exists k: nat :: k < i && steps[k] == Respond(true, true)
                             && states[k].loop == Requested(states[i].loop.conn)
  {
    assert i > 0 && states[i] == Apply(states[i - 1], steps[i - 1]);
    if Accepted(states[i - 1].loop) {
      AcceptedFirst(states, params, steps, i - 1);
    } else {
      assert steps[i - 1] == Respond(true, true);
    }
  }

  /** The server has refused, and the read thread can only end. */
  predicate Refused(s: State) { s.loop.Rejected? || (!s.active && (s.loop.Exiting? || s.loop.Exited?)) }

  lemma RefusedStays(s: State, step: Step)
    requires Refused(s) && Enabled(s, step)
    ensures var t := Apply(s, step);
            && Refused(t) && t.opens == s.opens && t.sent == s.sent && t.callbacks == s.callbacks
  {
  }

  /** After a rejection nothing is opened or sent any more and no callback is entered. */
  lemma {:induction false} RejectionIsFinal(
      states: seq<State>, params: string, steps: seq<Step>, i: nat, j: nat)
    requires Run(states, params, steps) && i < j < |states| && steps[i] == Respond(true, false)
    ensures Refused(states[j]) && states[j].opens == states[i].opens
    ensures states[j].sent == states[i].sent && states[j].callbacks == states[i].callbacks
    decreases j
  {
    if i + 1 < j {
      hide Apply, Enabled, Refused;
      RejectionIsFinal(states, params, steps, i, j - 1);
      RefusedStays(states[j - 1], steps[j - 1]);
    }
  }

  /** Something went wrong short of a rejection, and the descriptor is closed. */
  predicate Fails(step: Step) {
    step.OpenFails? || step == Connect(false) || step == Request(false) || (step.Respond? && !step.ok) || step.Close?
  }

  /** After any other failure the next step of the read thread is another round, unless it has been cancelled. */
  lemma FailureIsRetried(states: seq<State>, params: string, steps: seq<Step>, i: nat, j: nat)
    requires Run(states, params, steps) && i < j < |steps| && Fails(steps[i]) && steps[j].Proceed?
    requires forall k | i < k < j :: !steps[k].Proceed?
    ensures states[j + 1].loop == if states[j].active then Top else Exiting
  {
    RetryingUntil(states, params, steps, i, j);
  }

  lemma {:induction false} RetryingUntil(states: seq<State>, params: string, steps: seq<Step>, i: nat, j: nat)
    requires Run(states, params, steps) && i < j <= |steps| && Fails(steps[i])
    requires forall k | i < k < j :: !steps[k].Proceed?
    ensures states[j].loop.Retrying?
    decreases j
  {
    if i + 1 < j {
      RetryingUntil(states, params, steps, i, j - 1);
    }
  }

  /** The read thread ends by itself for no other reason than a rejection. */
  lemma EndsForAReason(states: seq<State>, params: string, steps: seq<Step>, i: nat)
    requires Run(states, params, steps) && i < |states| && states[i].loop.Exited?
    ensures exists k: nat :: k < i && (steps[k].CancelFlip? || steps[k] == Respond(true, false))
  {
    if forall k: nat | k < i :: !steps[k].CancelFlip? && steps[k] != Respond(true, false) {
      ActiveUntilAReason(states, params, steps, i);
    }
  }

  lemma {:induction false} ActiveUntilAReason(states: seq<State>, params: string, steps: seq<Step>, i: nat)
    requires Run(states, params, steps) && i < |states|
    requires forall k: nat | k < i :: !steps[k].CancelFlip? && steps[k] != Respond(true, false)
    ensures states[i].active && !states[i].loop.Rejected? && !states[i].loop.Exiting? && !states[i].loop.Exited?
  {
    if i > 0 {
      ActiveUntilAReason(states, params, steps, i - 1);
    }
  }

  /** It leaves the events of a connection only after a failed read or once the subscription is not active. */
  lemma {:induction false} LeavesForAReason(states: seq<State>, params: string, steps: seq<Step>, i: nat)
    requires Run(states, params, steps) && i < |states| && (states[i].loop.Broken? || states[i].loop.Closing?)
    ensures exists k: nat :: k < i && (steps[k] == Read(false) || (steps[k].Poll? && !states[k].active))
                             && IsPublic(states[k].loop) && states[k].loop.conn == states[i].loop.conn
  {
    assert i > 0 && states[i] == Apply(states[i - 1], steps[i - 1]);
    if states[i - 1].loop.Broken? || states[i - 1].loop.Closing? {
      LeavesForAReason(states, params, steps, i - 1);
    }
  }

  /** The connections opened, and the one about to be. */
  function Begun(s: State): nat { s.opens + if s.loop.Opening? then 1 else 0 }

  lemma InactiveStep(s: State, step: Step)
    requires !s.active && Enabled(s, step)
    ensures !Apply(s, step).active && Begun(Apply(s, step)) <= Begun(s)
  {
  }

  /** Once it is cancelled no connection is begun any more. */
  lemma {:induction false} CancelledOpensNoMore(
      states: seq<State>, params: string, steps: seq<Step>, i: nat, j: nat)
    requires Run(states, params, steps) && i <= j < |states| && !states[i].active
    ensures !states[j].active && Begun(states[j]) <= Begun(states[i])
    decreases j
  {
    hide Apply, Enabled, Begun;
    if i < j {
      CancelledOpensNoMore(states, params, steps, i, j - 1);
      InactiveStep(states[j - 1], steps[j - 1]);
    }
  }

  // No callback after cancel, and when that holds

  /** No callback runs, and none can be entered any more. */
  predicate Quiet(s: State) { !s.active && !s.loop.Reading? && !s.loop.Callback? }

  lemma QuietStays(s: State, step: Step)
    requires Quiet(s) && Enabled(s, step)
    ensures Quiet(Apply(s, step)) && Apply(s, step).callbacks == s.callbacks
  {
  }

  lemma {:induction false} QuietForGood(states: seq<State>, params: string, steps: seq<Step>, i: nat, j: nat)
    requires Run(states, params, steps) && i <= j < |states| && Quiet(states[i])
    ensures Quiet(states[j]) && states[j].callbacks == states[i].callbacks
    decreases j
  {
    hide Apply, Enabled, Quiet;
    if i < j {
      QuietForGood(states, params, steps, i, j - 1);
      QuietStays(states[j - 1], steps[j - 1]);
    }
  }

  /** When a cancel makes its join test: before the thread is spawned, before its handle is assigned, or after. */
  datatype Moment = BeforeSpawn | Between | AfterAssign

  function MomentOf(s: State): Moment {
    if s.loop.NotStarted? then BeforeSpawn else if s.handle.Unassigned? then Between else AfterAssign
  }

  lemma QuietAtJoin(s: State, params: string, step: Step)
    requires Inv(s, params) && Enabled(s, step) && step.CancelJoin?
    ensures !s.active && (MomentOf(s) != Between ==> Quiet(s))
  {
  }

  /** A cancel that makes its join test at step i has returned by step k, and state j comes after. */
  ghost predicate Returns(states: seq<State>, params: string, steps: seq<Step>, i: nat, k: nat, j: nat) {
    && Run(states, params, steps) && i < k < j < |states|
    && steps[i].CancelJoin? && steps[k] == CancelReturn(steps[i].thread)
  }

  /** No callback is running and none has been entered since the cancel returned. */
  predicate Silent(states: seq<State>, k: nat, j: nat)
    requires k < |states| && j < |states|
  {
    !states[j].loop.Callback? && states[j].callbacks == states[k].callbacks
  }

  /** Whatever the run, a cancel whose join test comes at this moment is followed by no callback. */
  ghost predicate CancelIsFinal(moment: Moment) {
    forall states, params, steps, i: nat, k: nat, j: nat |
      Returns(states, params, steps, i, k, j) && MomentOf(states[i]) == moment :: Silent(states, k, j)
  }

  /**
   After a cancel has returned no callback runs and none is entered, in every run, exactly when its join test does not
   come between the spawn of the thread and the assignment of its handle.
   */
  lemma NoCallbackAfterCancel(moment: Moment)
    ensures CancelIsFinal(moment) <==> moment != Between
  {
    if moment == Between {
      var states, params, steps, i, j := CallbackAfterReturn(7);
      assert Returns(states, params, steps, i, i + 1, j) && !Silent(states, i + 1, j);
    } else {
      forall states, params, steps, i: nat, k: nat, j: nat |
        Returns(states, params, steps, i, k, j) && MomentOf(states[i]) == moment ensures Silent(states, k, j)
      {
        QuietOutside(states, params, steps, i, k, j);
      }
    }
  }

  lemma QuietOutside(states: seq<State>, params: string, steps: seq<Step>, i: nat, k: nat, j: nat)
    requires Returns(states, params, steps, i, k, j) && MomentOf(states[i]) != Between
    ensures Silent(states, k, j)
  {
    hide Inv, Apply;
    RunKeepsInv(states, params, steps, i);
    QuietAtJoin(states[i], params, steps[i]);
    QuietForGood(states, params, steps, i, k);
    QuietForGood(states, params, steps, i, j);
  }

  /** In between, it depends on the read thread alone: only if it is past its last test can a callback still come. */
  lemma BetweenDependsOnReader(states: seq<State>, params: string, steps: seq<Step>, i: nat, k: nat, j: nat)
    requires Returns(states, params, steps, i, k, j) && !states[i].loop.Reading? && !states[i].loop.Callback?
    ensures Silent(states, k, j)
  {
    hide Inv, Apply;
    RunKeepsInv(states, params, steps, i);
    QuietAtJoin(states[i], params, steps[i]);
    QuietForGood(states, params, steps, i, k);
    QuietForGood(states, params, steps, i, j);
  }

  /** One more step of a run. */
  lemma Extend(states: seq<State>, params: string, steps: seq<Step>, step: Step)
      returns (states': seq<State>, steps': seq<Step>)
    requires Run(states, params, steps) && Enabled(states[|steps|], step)
    ensures Run(states', params, steps') && steps' == steps + [step] && |states| == |steps| + 1
    ensures states' == states + [Apply(states[|steps|], step)]
  {
    steps' := steps + [step];
    states' := states + [Apply(states[|steps|], step)];
  }

  /** A run in which the read thread is about to read its first event. */
  lemma FirstRead(params: string) returns (states: seq<State>, steps: seq<Step>)
    ensures Run(states, params, steps) && |steps| == 8
    ensures states[8] == State(params, true, Reading(0), Unassigned, Some(0), None, 1, [], [params], 0, 0, {})
  {
    states, steps := [Initial(params)], [];
    assert Run(states, params, steps);
    hide Run;
    states, steps := Extend(states, params, steps, Spawn);
    states, steps := Extend(states, params, steps, Test);
    states, steps := Extend(states, params, steps, Open);
    states, steps := Extend(states, params, steps, Connect(true));
    states, steps := Extend(states, params, steps, Request(true));
    states, steps := Extend(states, params, steps, Respond(true, true));
    states, steps := Extend(states, params, steps, Publish);
    states, steps := Extend(states, params, steps, Poll);
  }

  /** And whenever it is, a callback can come: such a run goes on to one that breaks the promise. */
  lemma CallbackCanFollow(states: seq<State>, params: string, steps: seq<Step>, t: Thread)
      returns (states': seq<State>, steps': seq<Step>, j: nat)
    requires Run(states, params, steps)
    requires var s := states[|steps|]; In(s, t, Ready) && s.handle.Unassigned? && (s.loop.Reading? || s.loop.Callback?)
    ensures states <= states' && steps <= steps' && Returns(states', params, steps', |steps|, |steps| + 1, j)
    ensures t in states'[j].returned && !Silent(states', |steps| + 1, j) && states'[j].loop.Callback?
  {
    hide Run;
    states', steps' := Extend(states, params, steps, CancelJoin(t));
    states', steps' := Extend(states', params, steps', CancelReturn(t));
    if states[|steps|].loop.Reading? {
      states', steps' := Extend(states', params, steps', Read(true));
    }
    j := |steps'|;
  }

  /** A cancel that finds no handle returns at once, and the read thread goes on into the callback. */
  lemma CallbackAfterReturn(t: Thread)
      returns (states: seq<State>, params: string, steps: seq<Step>, i: nat, j: nat)
    ensures Returns(states, params, steps, i, i + 1, j) && MomentOf(states[i]) == Between
    ensures t in states[j].returned && !Silent(states, i + 1, j) && states[j].loop.Callback?
  {
    params := "";
    states, steps := FirstRead(params);
    states, steps := CancelUpTo(states, params, steps, t);
    hide Run;
    i := |steps|;
    states, steps, j := CallbackCanFollow(states, params, steps, t);
  }

  /** A cancel up to its join test, the read thread resting meanwhile. */
  lemma CancelUpTo(states: seq<State>, params: string, steps: seq<Step>, t: Thread)
      returns (states': seq<State>, steps': seq<Step>)
    requires Run(states, params, steps) && states[|steps|].cancel.None? && states[|steps|].active
    ensures Run(states', params, steps') && |steps'| == |steps| + 4
    ensures states'[|steps'|] ==
            states[|steps|].(active := false, published := None, cancel := Some(Cancel(t, Ready)))
  {
    hide Run;
    states', steps' := Extend(states, params, steps, CancelEnter(t));
    states', steps' := Extend(states', params, steps', CancelFlip(t));
    states', steps' := Extend(states', params, steps', CancelTake(t));
    states', steps' := Extend(states', params, steps', CancelShutdown(t));
  }

  // A cancel that has begun can always return

  function PhaseRank(s: State): nat {
    if s.cancel.None? then 0
    else
      match s.cancel.value.phase
      case Entered => 5
      case Won => 4
      case Took(_) => 3
      case Ready => 2
      case Passed => 1
  }

  /** How far the read thread of a cancelled subscription is from its end. */
  function LoopRank(loop: Loop): nat {
    match loop
    case Subscribed(_) => 8
    case Callback(_) => 8
    case Events(_) => 7
    case Reading(_) => 6
    case Broken(_) => 5
    case Closing(_) => 4
    case Retrying => 2
    case Rejected => 2
    case Top => 2
    case Exiting => 1
    case Exited => 0
    case _ => 3
  }

  lemma NextTowardsReturn(s: State) returns (step: Step)
    requires ThreadInv(s) && s.cancel.Some?
    ensures Enabled(s, step) && (step.CancelReturn? ==> step.thread == s.cancel.value.thread)
    ensures var t := Apply(s, step);
            && (step.CancelReturn? || (t.cancel.Some? && t.cancel.value.thread == s.cancel.value.thread))
            && (PhaseRank(t) < PhaseRank(s) || (PhaseRank(t) == PhaseRank(s) && LoopRank(t.loop) < LoopRank(s.loop)))
  {
    var thread := s.cancel.value.thread;
    match s.cancel.value.phase {
      case Entered => step := CancelFlip(thread);
      case Won => step := CancelTake(thread);
      case Took(_) => step := CancelShutdown(thread);
      case Ready =>
        if s.handle.Joinable? && !s.loop.Exited? {
          step := TowardsExit(s.loop);
        } else {
          step := CancelJoin(thread);
        }
      case Passed => step := CancelReturn(thread);
    }
  }

  /** What a read thread does whose calls fail, as they do after the shutdown. */
  function TowardsExit(loop: Loop): Step {
    match loop
    case Top => Test
    case Opening => OpenFails
    case Opened(_) => Connect(false)
    case Connected(_) => Request(false)
    case Requested(_) => Respond(false, false)
    case Subscribed(_) => Publish
    case Events(_) => Poll
    case Reading(_) => Read(false)
    case Callback(_) => Return
    case Broken(_) => Unpublish
    case Closing(_) => Close
    case Exiting => Exit
    case _ => Proceed
  }

  /** Every run with a cancel in progress can go on, with no step of another cancel, until that cancel returns. */
  lemma {:induction false} CancelCanReturn(states: seq<State>, params: string, steps: seq<Step>)
      returns (states': seq<State>, steps': seq<Step>)
    requires Run(states, params, steps) && states[|steps|].cancel.Some?
    ensures Run(states', params, steps') && states <= states' && steps < steps'
    ensures steps'[|steps'| - 1] == CancelReturn(states[|steps|].cancel.value.thread)
    ensures forall k | |steps| <= k < |steps'| :: !steps'[k].CancelEnter?
    decreases PhaseRank(states[|steps|]), LoopRank(states[|steps|].loop)
  {
    hide ThreadInv, DescriptorInv, Enabled, Apply, PhaseRank, LoopRank;
    var s := states[|steps|];
    RunKeepsInv(states, params, steps, |steps|);
    var step := NextTowardsReturn(s);
    states', steps' := states + [Apply(s, step)], steps + [step];
    if !step.CancelReturn? {
      states', steps' := CancelCanReturn(states', params, steps');
    }
  }

  // The descriptor that cancel shuts down

  /** Steps i and j are the exchange of m_fd and the shutdown of one cancel, and connection c was taken. */
  ghost predicate Wakes(states: seq<State>, params: string, steps: seq<Step>, i: nat, j: nat, c: nat) {
    && Run(states, params, steps) && i < j < |steps|
    && steps[i].CancelTake? && steps[j] == CancelShutdown(steps[i].thread)
    && (forall k | i < k < j :: !steps[k].CancelShutdown?)
    && states[i].published == Some(c)
  }

  predicate StillOpen(s: State, c: nat) { HasOpen(s.loop) && s.loop.conn == c }

  predicate Ending(loop: Loop) { loop.Retrying? || loop.Exiting? || loop.Exited? }

  /** What is known between the exchange and the shutdown; closed says whether the read thread has closed since. */
  predicate Waking(s: State, t: Thread, c: nat, closed: bool) {
    && !s.active && In(s, t, Took(Some(c)))
    && (if closed then Ending(s.loop) else (IsPublic(s.loop) || s.loop.Closing?) && s.loop.conn == c)
  }

  lemma WakingStep(s: State, step: Step, t: Thread, c: nat, closed: bool)
    requires Waking(s, t, c, closed) && Enabled(s, step) && !step.CancelShutdown?
    ensures Waking(Apply(s, step), t, c, closed || step.Close?)
  {
  }

  lemma {:induction false} WakingUpTo(
      states: seq<State>, params: string, steps: seq<Step>, i: nat, j: nat, c: nat, k: nat)
    requires Wakes(states, params, steps, i, j, c) && i < k <= j
    ensures Waking(states[k], steps[i].thread, c, exists n :: i < n < k && steps[n].Close?)
    decreases k
  {
    hide Inv, Apply, Waking;
    if k == i + 1 {
      RunKeepsInv(states, params, steps, i);
      TakeIsWaking(states[i], params, steps[i], c);
    } else {
      WakingUpTo(states, params, steps, i, j, c, k - 1);
      var closed := exists n :: i < n < k - 1 && steps[n].Close?;
      WakingStep(states[k - 1], steps[k - 1], steps[i].thread, c, closed);
      assert (exists n :: i < n < k && steps[n].Close?) <==> closed || steps[k - 1].Close?;
    }
  }

  lemma TakeIsWaking(s: State, params: string, step: Step, c: nat)
    requires Inv(s, params) && Enabled(s, step) && step.CancelTake? && s.published == Some(c)
    ensures Waking(Apply(s, step), step.thread, c, false)
  {
  }

  /** The shutdown hits a descriptor of the read thread exactly when that has not closed since the exchange of m_fd. */
  lemma ShutdownHitsItsOwn(states: seq<State>, params: string, steps: seq<Step>, i: nat, j: nat, c: nat)
    requires Wakes(states, params, steps, i, j, c)
    ensures StillOpen(states[j], c) <==> forall k | i < k < j :: !steps[k].Close?
    ensures In(states[j], steps[i].thread, Took(Some(c)))
  {
    hide Run, Inv, Apply;
    WakingUpTo(states, params, steps, i, j, c, j);
  }

  /** Whatever run follows, if this exchange took a descriptor, its shutdown finds it still open. */
  ghost predicate NeverLate(states: seq<State>, params: string, steps: seq<Step>, i: nat) {
    forall states', steps', j: nat, c: nat |
      states <= states' && steps <= steps' && Wakes(states', params, steps', i, j, c) :: StillOpen(states'[j], c)
  }

  /**
   A cancel is sure not to shut down a descriptor that has been closed if and only if its exchange took none, which is
   the test fd >= 0 in front of the shutdown.
   */
  lemma ShutdownIsSafeIff(states: seq<State>, params: string, steps: seq<Step>, i: nat)
    requires Run(states, params, steps) && |steps| == i + 1 && steps[i].CancelTake?
    ensures NeverLate(states, params, steps, i) <==> states[i].published.None?
  {
    if states[i].published.Some? {
      var c := states[i].published.value;
      var states', steps', j := ShutdownCanComeLate(states, params, steps, i, c);
      assert states <= states' && steps <= steps' && Wakes(states', params, steps', i, j, c);
    } else {
      forall states', steps', j: nat, c: nat | states <= states' && steps <= steps'
        ensures !Wakes(states', params, steps', i, j, c)
      {
        NothingTaken(states, states', params, steps', i, j, c);
      }
    }
  }

  lemma NothingTaken(
      states: seq<State>, states': seq<State>, params: string, steps': seq<Step>, i: nat, j: nat, c: nat)
    requires i < |states| && states[i].published.None? && states <= states'
    ensures !Wakes(states', params, steps', i, j, c)
  {
    assert states'[i] == states[i];
  }

  /** Whenever an exchange took a descriptor, the read thread can close it before the shutdown. */
  lemma ShutdownCanComeLate(states: seq<State>, params: string, steps: seq<Step>, i: nat, c: nat)
      returns (states': seq<State>, steps': seq<Step>, j: nat)
    requires Run(states, params, steps) && |steps| == i + 1 && steps[i].CancelTake? && states[i].published == Some(c)
    ensures states <= states' && steps <= steps' && Wakes(states', params, steps', i, j, c)
    ensures !StillOpen(states'[j], c) && c in states'[j].closes
  {
    var t := steps[i].thread;
    states', steps' := ReaderBreaks(states, params, steps, i, c);
    hide Run;
    states', steps' := Extend(states', params, steps', Unpublish);
    states', steps' := Extend(states', params, steps', Close);
    j := |steps'|;
    assert c in states'[j].closes && !StillOpen(states'[j], c);
    states', steps' := Extend(states', params, steps', CancelShutdown(t));
    assert states'[i] == states[i] && steps'[i] == steps[i];
    assert forall k | i < k < j :: !steps'[k].CancelShutdown?;
  }

  /** The read thread, which finds the subscription no longer active, leaves its event loop. */
  lemma ReaderBreaks(states: seq<State>, params: string, steps: seq<Step>, i: nat, c: nat)
      returns (states': seq<State>, steps': seq<Step>)
    requires Run(states, params, steps) && |steps| == i + 1 && steps[i].CancelTake? && states[i].published == Some(c)
    ensures Run(states', params, steps') && |states'| == |steps'| + 1 && states <= states' && steps <= steps'
    ensures states'[|steps'|].loop == Broken(c)
    ensures states'[|steps'|].cancel == Some(Cancel(steps[i].thread, Took(Some(c))))
    ensures forall k | i < k < |steps'| :: !steps'[k].CancelShutdown?
  {
    states', steps' := states, steps;
    RunKeepsInv(states, params, steps, i);
    TakeIsWaking(states[i], params, steps[i], c);
    assert states[i + 1] == Apply(states[i], steps[i]);
    assert IsPublic(states[i + 1].loop);
    hide Run, Inv, DescriptorInv, ThreadInv;
    if states'[|steps'|].loop.Callback? {
      states', steps' := Extend(states', params, steps', Return);
    }
    if states'[|steps'|].loop.Reading? {
      states', steps' := Extend(states', params, steps', Read(false));
    } else if states'[|steps'|].loop.Events? {
      states', steps' := Extend(states', params, steps', Poll);
    }
  }

  /** Such an exchange is reached. */
  lemma ExchangeIsReached(t: Thread) returns (states: seq<State>, params: string, steps: seq<Step>, i: nat)
    ensures Run(states, params, steps) && |steps| == i + 1 && steps[i] == CancelTake(t)
    ensures states[i].published.Some? && !NeverLate(states, params, steps, i)
  {
    params := "";
    states, steps, i := FirstTake(params, t);
    ShutdownIsSafeIff(states, params, steps, i);
  }

  /** A cancel up to the exchange of m_fd, while the read thread is about to read. */
  lemma FirstTake(params: string, t: Thread) returns (states: seq<State>, steps: seq<Step>, i: nat)
    ensures Run(states, params, steps) && |steps| == i + 1 && steps[i] == CancelTake(t)
    ensures states[i].published == Some(0)
    ensures states[i + 1] ==
            State(
              params, false, Reading(0), Unassigned, None, Some(Cancel(t, Took(Some(0)))), 1, [], [params], 0, 0, {})
  {
    states, steps := FirstRead(params);
    hide Run;
    states, steps := Extend(states, params, steps, CancelEnter(t));
    states, steps := Extend(states, params, steps, CancelFlip(t));
    i := |steps|;
    states, steps := Extend(states, params, steps, CancelTake(t));
  }

  // Backoff

  /** The conversion to an unsigned integer drops the fraction, so a product between -1 and 0 becomes 0. */
  function Scaled(backoff: nat, multiplier: real): nat {
    if Product(backoff, multiplier) < 0.0 then 0 else Product(backoff, multiplier).Floor
  }

  function Product(backoff: nat, multiplier: real): real { backoff as real * multiplier }

  /** What C++ leaves defined of it. */
  predicate Converts(backoff: nat, multiplier: real) {
    -1.0 < Product(backoff, multiplier) < TWO_TO_THE_32 as real
  }

  /** The backoff after the given number of failed attempts. */
  function Backoff(initial: nat, max: nat, multiplier: real, attempt: nat): nat {
    if attempt == 0 then initial
    else
      var b := Backoff(initial, max, multiplier, attempt - 1);
      if b >= max then b else if Scaled(b, multiplier) > max then max else Scaled(b, multiplier)
  }

  /** Every product that is converted can be. */
  predicate AllConvert(initial: nat, max: nat, multiplier: real, attempt: nat) {
    forall i | 0 <= i < attempt ::
      var b := Backoff(initial, max, multiplier, i); b < max ==> Converts(b, multiplier)
  }

  /** So it is if nothing is converted, or if the largest backoff below the maximum can be. */
  lemma AllConvertIf(initial: nat, max: nat, multiplier: real, attempt: nat)
    requires initial >= max || Converts(max - 1, multiplier)
    ensures AllConvert(initial, max, multiplier, attempt)
  {
    hide Backoff;
    forall i | 0 <= i < attempt && Backoff(initial, max, multiplier, i) < max
      ensures Converts(Backoff(initial, max, multiplier, i), multiplier)
    {
      if initial >= max {
        FirstBackoff(initial, max, multiplier);
        Saturated(initial, max, multiplier, 0, i);
      } else {
        ConvertsBelow(Backoff(initial, max, multiplier, i), max - 1, multiplier);
      }
    }
  }

  lemma FirstBackoff(initial: nat, max: nat, multiplier: real)
    ensures Backoff(initial, max, multiplier, 0) == initial
  {
  }

  lemma ConvertsBelow(b: nat, c: nat, multiplier: real)
    requires b <= c && Converts(c, multiplier)
    ensures Converts(b, multiplier)
  {
    hide Product;
    ProductBetween(b, c, multiplier);
  }

  lemma ProductBetween(b: nat, c: nat, multiplier: real)
    requires b <= c
    ensures 0.0 <= Product(b, multiplier) <= Product(c, multiplier)
            || Product(c, multiplier) <= Product(b, multiplier) <= 0.0
  {
    ScaledBetween(b as real, c as real, multiplier);
  }

  lemma ScaledBetween(x: real, y: real, m: real)
    requires 0.0 <= x <= y
    ensures m >= 0.0 ==> 0.0 <= x * m <= y * m
    ensures m < 0.0 ==> y * m <= x * m <= 0.0
  {
  }

  /** The loop of calculateBackoff. */
  method CalculateBackoff(initial: nat, max: nat, multiplier: real, attempt: nat) returns (backoff: nat)
    requires initial < TWO_TO_THE_32 && max < TWO_TO_THE_32 && AllConvert(initial, max, multiplier, attempt)
    ensures backoff == Backoff(initial, max, multiplier, attempt) && backoff < TWO_TO_THE_32
  {
    backoff := initial;
    var i := 0;
    while i < attempt && backoff < max
      invariant i <= attempt && backoff < TWO_TO_THE_32 && backoff == Backoff(initial, max, multiplier, i)
      decreases attempt - i
    {
      backoff := Scaled(backoff, multiplier);
      if backoff > max {
        backoff := max;
      }
      i := i + 1;
    }
    if i < attempt {
      Saturated(initial, max, multiplier, i, attempt);
    }
  }

  lemma {:induction false} Saturated(initial: nat, max: nat, multiplier: real, i: nat, j: nat)
    requires i <= j && Backoff(initial, max, multiplier, i) >= max
    ensures Backoff(initial, max, multiplier, j) == Backoff(initial, max, multiplier, i)
  {
    if i < j {
      Saturated(initial, max, multiplier, i, j - 1);
    }
  }

  function Power(m: nat, n: nat): nat { if n == 0 then 1 else Power(m, n - 1) * m }

  /** For a whole multiplier the backoff is the initial value times its power, up to the maximum. */
  lemma {:induction false} BackoffIsGeometric(initial: nat, max: nat, m: nat, attempt: nat)
    requires initial <= max && m >= 1
    ensures Backoff(initial, max, m as real, attempt) ==
            if initial * Power(m, attempt) > max then max else initial * Power(m, attempt)
  {
    hide Scaled;
    if attempt == 0 {
      assert initial * 1 == initial;
    } else {
      BackoffIsGeometric(initial, max, m, attempt - 1);
      var p, b := Power(m, attempt - 1), Backoff(initial, max, m as real, attempt - 1);
      Associates(initial, p, m);
      WholeProduct(b, m);
      CappedProduct(initial * p, max, m);
    }
  }

  lemma Associates(x: nat, y: nat, z: nat)
    ensures x * (y * z) == x * y * z
  {
  }

  lemma CappedProduct(x: nat, max: nat, m: nat)
    requires m >= 1
    ensures x > max ==> x * m > max
    ensures x == max ==> x * m >= max
  {
  }

  lemma WholeProduct(b: nat, m: nat)
    ensures Scaled(b, m as real) == b * m
  {
    assert b as real * m as real == (b * m) as real;
  }

  /** With the defaults of 100 ms, 5 s and factor 2, the delays are these. */
  lemma DefaultBackoffs()
    ensures Backoff(100, 5000, 2.0, 0) == 100 && Backoff(100, 5000, 2.0, 1) == 200
    ensures Backoff(100, 5000, 2.0, 5) == 3200 && forall k: nat | k >= 6 :: Backoff(100, 5000, 2.0, k) == 5000
  {
    hide Backoff, Scaled;
    BackoffIsGeometric(100, 5000, 2, 0);
    BackoffIsGeometric(100, 5000, 2, 1);
    BackoffIsGeometric(100, 5000, 2, 5);
    BackoffIsGeometric(100, 5000, 2, 6);
    assert Power(2, 3) == 8 && Power(2, 5) == 32;
    forall k: nat | k >= 6 ensures Backoff(100, 5000, 2.0, k) == 5000 {
      Saturated(100, 5000, 2.0, 6, k);
    }
  }

  /** For a multiplier of at least one the backoff never falls from attempt to attempt and stays bounded. */
  lemma {:induction false} BackoffIsMonotone(initial: nat, max: nat, multiplier: real, i: nat, j: nat)
    requires multiplier >= 1.0 && i <= j
    ensures initial <= Backoff(initial, max, multiplier, i) <= Backoff(initial, max, multiplier, j)
    ensures Backoff(initial, max, multiplier, j) <= if initial > max then initial else max
  {
    if j > 0 {
      BackoffIsMonotone(initial, max, multiplier, if i < j then i else i - 1, j - 1);
      var b := Backoff(initial, max, multiplier, j - 1);
      ScaledGrows(b, multiplier);
    }
  }

  lemma ScaledGrows(b: nat, multiplier: real)
    requires multiplier >= 1.0
    ensures Scaled(b, multiplier) >= b
  {
    hide Product;
    ProductGrows(b, multiplier);
    FloorIsAtLeast(Product(b, multiplier), b);
  }

  lemma ProductGrows(b: nat, multiplier: real)
    requires multiplier >= 1.0
    ensures Product(b, multiplier) >= b as real
  {
    assert b as real * multiplier >= b as real * 1.0;
  }

  lemma FloorIsAtLeast(x: real, n: int)
    requires n as real <= x
    ensures n <= x.Floor
  {
  }
}
