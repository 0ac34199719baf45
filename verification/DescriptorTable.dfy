/**
 The client table of src/ipc/ipc_server.cpp: the accept thread, one thread per connection, subscription calls,
 pushes, stop and the rest of the process, step by step.  A step is one critical section or one system call.
 The operating system hands out any descriptor number that is not open.
 */
module DescriptorTable {
  import opened Shared

  type Conn = nat

  /**
   A connection thread: Leaving has left its loop, Erased the table, Passed has found the server running, Holding has a
   copy of the disconnect handler, Told has called it or passed it by.
   */
  datatype Phase = Accepted | Serving | Leaving | Erased | Passed | Holding | Told | Closed

  datatype Accepting = Idle | Got(conn: Conn) | Done

  /** The stop that finds the server running; left holds the numbers it collected and has not shut down yet. */
  datatype Stopping = NotYet | Flipped | Collecting | Shutting(left: map<int, Conn>) | Cleared | Returned

  /**
   open: the numbers open in the process; foreign: those of them that are not connections of this server;
   table: m_clients, by the connection that owns the ClientState; subs: the subscriptions in each ClientState;
   handler: whether there is a disconnect handler.
   */
  datatype Server = Server(
    running: bool, stopping: Stopping, handler: bool, accepting: Accepting, open: set<int>, foreign: set<int>,
    fds: map<Conn, int>, phases: map<Conn, Phase>, table: map<int, Conn>, subs: map<Conn, set<nat>>,
    reports: seq<Conn>, closes: seq<Conn>)

  datatype Step =
    | ForeignOpen(fd: int)
    | ForeignClose(fd: int)
    | Accept(conn: Conn, fd: int)
    | Insert
    | AcceptExit
    | Subscribe(fd: int, event: nat)
    | Unsubscribe(fd: int, event: nat)
    | Leave(conn: Conn)
    | Erase(conn: Conn)
    | TestRunning(conn: Conn)
    | CopyHandler(conn: Conn)
    | Report(conn: Conn)
    | Close(conn: Conn)
    | Stop                            // m_running.exchange(false)
    | JoinAccept
    | Snapshot                        // the numbers in the table
    | Shutdown(fd: int)
    | ClearHandlers
    | StopReturn

  function Initial(handler: bool): Server {
    Server(true, NotYet, handler, Idle, {}, {}, map[], map[], map[], map[], [], [])
  }

  predicate InPhase(s: Server, c: Conn, p: Phase) { c in s.phases && s.phases[c] == p }

  predicate Enabled(s: Server, step: Step) {
    match step
    case ForeignOpen(fd) => fd !in s.open
    case ForeignClose(fd) => fd in s.foreign
    case Accept(c, fd) => s.accepting.Idle? && c !in s.phases && fd !in s.open
    case Insert => s.accepting.Got? && s.accepting.conn in s.fds
    case AcceptExit => s.accepting.Idle?
    case Subscribe(_, _) => true
    case Unsubscribe(_, _) => true
    case Leave(c) => InPhase(s, c, Serving)
    case Erase(c) => InPhase(s, c, Leaving) && c in s.fds
    case TestRunning(c) => InPhase(s, c, Erased)
    case CopyHandler(c) => InPhase(s, c, Passed)
    case Report(c) => InPhase(s, c, Holding)
    case Close(c) => InPhase(s, c, Told) && c in s.fds
    case Stop => s.running
    case JoinAccept => s.stopping.Flipped? && s.accepting.Done?
    case Snapshot => s.stopping.Collecting?
    case Shutdown(fd) => s.stopping.Shutting? && fd in s.stopping.left
    case ClearHandlers => s.stopping.Shutting? && s.stopping.left == map[]
    case StopReturn => s.stopping.Cleared?
  }

  function Apply(s: Server, step: Step): Server
    requires Enabled(s, step)
  {
    match step
    case ForeignOpen(fd) => s.(open := s.open + {fd}, foreign := s.foreign + {fd})
    case ForeignClose(fd) => s.(open := s.open - {fd}, foreign := s.foreign - {fd})
    case Accept(c, fd) =>
      s.(accepting := Got(c), open := s.open + {fd}, fds := s.fds[c := fd], phases := s.phases[c := Accepted])
    case Insert =>
      var c := s.accepting.conn;
      s.(accepting := Idle, table := s.table[s.fds[c] := c], subs := s.subs[c := {}], phases := s.phases[c := Serving])
    case AcceptExit => s.(accepting := Done)
    case Subscribe(fd, event) => SetSubscriptions(s, fd, Subscriptions(s, fd) + {event})
    case Unsubscribe(fd, event) => SetSubscriptions(s, fd, Subscriptions(s, fd) - {event})
    case Leave(c) => s.(phases := s.phases[c := Leaving])
    case Erase(c) => s.(table := s.table - {s.fds[c]}, phases := s.phases[c := Erased])
    case TestRunning(c) => s.(phases := s.phases[c := if s.running then Passed else Told])
    case CopyHandler(c) => s.(phases := s.phases[c := if s.handler then Holding else Told])
    case Report(c) => s.(reports := s.reports + [c], phases := s.phases[c := Told])
    case Close(c) => s.(open := s.open - {s.fds[c]}, closes := s.closes + [c], phases := s.phases[c := Closed])
    case Stop => s.(running := false, stopping := Flipped)
    case JoinAccept => s.(stopping := Collecting)
    case Snapshot => s.(stopping := Shutting(s.table))
    case Shutdown(fd) => s.(stopping := Shutting(s.stopping.left - {fd}))
    case ClearHandlers => s.(handler := false, stopping := Cleared)
    case StopReturn => s.(stopping := Returned)
  }

  function Subscriptions(s: Server, fd: int): set<nat> {
    if fd in s.table && s.table[fd] in s.subs then s.subs[s.table[fd]] else {}
  }

  /** A number that is not in the table is refused and changes nothing. */
  function SetSubscriptions(s: Server, fd: int, events: set<nat>): Server {
    if fd in s.table then s.(subs := s.subs[s.table[fd] := events]) else s
  }

  ghost predicate Run(states: seq<Server>, steps: seq<Step>) {
    && |states| == |steps| + 1
    && |states| > 0 && states[0] == Initial(states[0].handler)
    && forall i | 0 <= i < |steps| :: Enabled(states[i], steps[i]) && states[i + 1] == Apply(states[i], steps[i])
  }

  // The invariant

  /** The connection's number is open and is its own. */
  predicate Live(s: Server, c: Conn) { c in s.fds && c in s.phases && !s.phases[c].Closed? }

  /** The connection is in the table. */
  predicate Listed(s: Server, c: Conn) { c in s.fds && (InPhase(s, c, Serving) || InPhase(s, c, Leaving)) }

  ghost predicate NumbersInv(s: Server) {
    && s.fds.Keys == s.phases.Keys
    && s.foreign <= s.open
    && (forall c | Live(s, c) :: s.fds[c] in s.open && s.fds[c] !in s.foreign)
    && (forall c, d | Live(s, c) && Live(s, d) && s.fds[c] == s.fds[d] :: c == d)
  }

  ghost predicate TableInv(s: Server) {
    && (forall c | Listed(s, c) :: s.fds[c] in s.table && s.table[s.fds[c]] == c && c in s.subs)
    && (forall fd | fd in s.table :: Listed(s, s.table[fd]) && s.fds[s.table[fd]] == fd)
  }

  /** At most one connection is accepted and not yet inserted: the one in the hands of the accept thread. */
  ghost predicate AcceptInv(s: Server) { forall c :: InPhase(s, c, Accepted) <==> s.accepting == Got(c) }

  ghost predicate HistoryInv(s: Server) {
    && Distinct(s.closes) && Distinct(s.reports)
    && (forall c :: c in s.closes <==> InPhase(s, c, Closed))
    && (forall c | c in s.reports :: InPhase(s, c, Told) || InPhase(s, c, Closed))
  }

  predicate StopInv(s: Server) {
    && (!s.stopping.NotYet? ==> !s.running)
    && (s.stopping.Cleared? || s.stopping.Returned? ==> !s.handler)
    && (!s.stopping.NotYet? && !s.stopping.Flipped? ==> s.accepting.Done?)
  }

  ghost predicate Inv(s: Server) { NumbersInv(s) && TableInv(s) && AcceptInv(s) && HistoryInv(s) && StopInv(s) }

  /** The steps of a connection thread that only move it on. */
  predicate MovesOn(step: Step) {
    step.Leave? || step.TestRunning? || step.CopyHandler? || step.Report?
  }

  /** The steps that leave connections, numbers and table alone. */
  predicate Aside(step: Step) {
    step.AcceptExit? || step.Subscribe? || step.Unsubscribe? || step.Stop? || step.JoinAccept? || step.Snapshot?
    || step.Shutdown? || step.ClearHandlers? || step.StopReturn?
  }

  lemma AsideChanges(s: Server, step: Step)
    requires Enabled(s, step) && Aside(step)
    ensures var t := Apply(s, step);
            && t.fds == s.fds && t.phases == s.phases && t.open == s.open && t.foreign == s.foreign
            && t.table == s.table && s.subs.Keys <= t.subs.Keys && t.closes == s.closes && t.reports == s.reports
  {
    hide Subscriptions;
  }

  lemma MovingOnChanges(s: Server, step: Step)
    requires Enabled(s, step) && MovesOn(step)
    ensures var t := Apply(s, step);
            && t.fds == s.fds && t.open == s.open && t.foreign == s.foreign
            && t.table == s.table && t.subs == s.subs && t.closes == s.closes
            && step.conn in s.phases && step.conn in t.phases
            && t.phases == s.phases[step.conn := t.phases[step.conn]]
            && !s.phases[step.conn].Closed? && !t.phases[step.conn].Closed?
            && (Listed(s, step.conn) <==> Listed(t, step.conn))
            && !s.phases[step.conn].Told? && (step.Report? || t.reports == s.reports)
  {
  }

  lemma StepKeepsNumbers(s: Server, step: Step)
    requires NumbersInv(s) && AcceptInv(s) && Enabled(s, step)
    ensures NumbersInv(Apply(s, step))
  {
    hide Apply, Enabled, NumbersInv, AcceptInv, Live;
    if Aside(step) {
      AsideChanges(s, step);
      SameNumbers(s, Apply(s, step));
    } else if MovesOn(step) {
      MovingOnChanges(s, step);
      MovedNumbers(s, Apply(s, step), step.conn);
    } else {
      match step {
        case Accept(c, fd) => AcceptKeepsNumbers(s, c, fd);
        case Close(c) => CloseKeepsNumbers(s, c);
        case Insert => InsertKeepsNumbers(s);
        case Erase(c) => EraseKeepsNumbers(s, c);
        case ForeignOpen(fd) => ForeignKeepsNumbers(s, step);
        case ForeignClose(fd) => ForeignKeepsNumbers(s, step);
      }
    }
  }

  lemma SameNumbers(s: Server, t: Server)
    requires NumbersInv(s) && t.fds == s.fds && t.phases == s.phases && t.open == s.open && t.foreign == s.foreign
    ensures NumbersInv(t)
  {
    assert forall c :: Live(t, c) <==> Live(s, c);
  }

  lemma MovedNumbers(s: Server, t: Server, c: Conn)
    requires NumbersInv(s) && t.fds == s.fds && t.open == s.open && t.foreign == s.foreign
    requires c in s.phases && c in t.phases && t.phases == s.phases[c := t.phases[c]] && !s.phases[c].Closed?
    ensures NumbersInv(t)
  {
    assert forall d :: Live(t, d) ==> Live(s, d);
  }

  lemma EraseKeepsNumbers(s: Server, c: Conn)
    requires NumbersInv(s) && Enabled(s, Erase(c))
    ensures NumbersInv(Apply(s, Erase(c)))
  {
    MovedNumbers(s, Apply(s, Erase(c)), c);
  }

  lemma ForeignKeepsNumbers(s: Server, step: Step)
    requires NumbersInv(s) && Enabled(s, step) && (step.ForeignOpen? || step.ForeignClose?)
    ensures NumbersInv(Apply(s, step))
  {
    SameLives(s, Apply(s, step));
  }

  lemma AcceptKeepsNumbers(s: Server, c: Conn, fd: int)
    requires NumbersInv(s) && Enabled(s, Accept(c, fd))
    ensures NumbersInv(Apply(s, Accept(c, fd)))
  {
    var t := Apply(s, Accept(c, fd));
    assert forall d | Live(t, d) && d != c :: Live(s, d) && s.fds[d] != fd;
  }

  lemma CloseKeepsNumbers(s: Server, c: Conn)
    requires NumbersInv(s) && Enabled(s, Close(c))
    ensures NumbersInv(Apply(s, Close(c)))
  {
    var t := Apply(s, Close(c));
    assert forall d | Live(t, d) :: Live(s, d) && s.fds[d] != s.fds[c];
  }

  lemma InsertKeepsNumbers(s: Server)
    requires NumbersInv(s) && AcceptInv(s) && Enabled(s, Insert)
    ensures NumbersInv(Apply(s, Insert))
  {
    assert InPhase(s, s.accepting.conn, Accepted);
    hide NumbersInv;
    SameLives(s, Apply(s, Insert));
  }

  lemma SameLives(s: Server, t: Server)
    requires NumbersInv(s) && t.fds == s.fds && t.fds.Keys == t.phases.Keys
    requires forall c :: Live(t, c) ==> Live(s, c)
    requires t.foreign <= t.open && s.open - s.foreign <= t.open - t.foreign
    ensures NumbersInv(t)
  {
    forall c | Live(t, c) ensures t.fds[c] in t.open && t.fds[c] !in t.foreign {
      assert Live(s, c) && s.fds[c] in s.open - s.foreign;
    }
  }

  lemma StepKeepsTable(s: Server, step: Step)
    requires NumbersInv(s) && TableInv(s) && AcceptInv(s) && Enabled(s, step)
    ensures TableInv(Apply(s, step))
  {
    hide Subscriptions, NumbersInv, TableInv, AcceptInv, Apply, Enabled, Listed;
    if Aside(step) {
      AsideChanges(s, step);
      SamePhases(s, Apply(s, step));
    } else if MovesOn(step) {
      MovingOnChanges(s, step);
      MovedListing(s, Apply(s, step), step.conn);
    } else {
      match step {
        case Insert => InsertKeepsTable(s);
        case Erase(c) => EraseKeepsTable(s, c);
        case Accept(c, fd) => AcceptKeepsTable(s, c, fd);
        case _ => OtherStepsKeepTable(s, step);
      }
    }
  }

  lemma SamePhases(s: Server, t: Server)
    requires TableInv(s) && t.fds == s.fds && t.phases == s.phases && t.table == s.table && s.subs.Keys <= t.subs.Keys
    ensures TableInv(t)
  {
    hide TableInv;
    SameListing(s, t);
  }

  lemma MovedListing(s: Server, t: Server, c: Conn)
    requires TableInv(s) && t.fds == s.fds && t.table == s.table && t.subs == s.subs
    requires c in s.phases && c in t.phases && t.phases == s.phases[c := t.phases[c]]
    requires Listed(s, c) <==> Listed(t, c)
    ensures TableInv(t)
  {
    hide TableInv;
    assert forall d :: Listed(t, d) <==> Listed(s, d);
    SameListing(s, t);
  }

  lemma AcceptKeepsTable(s: Server, c: Conn, fd: int)
    requires TableInv(s) && Enabled(s, Accept(c, fd))
    ensures TableInv(Apply(s, Accept(c, fd)))
  {
    hide TableInv;
    SameListing(s, Apply(s, Accept(c, fd)));
  }

  lemma OtherStepsKeepTable(s: Server, step: Step)
    requires TableInv(s) && Enabled(s, step) && (step.Close? || step.ForeignOpen? || step.ForeignClose?)
    ensures TableInv(Apply(s, step))
  {
    hide TableInv;
    SameListing(s, Apply(s, step));
  }

  lemma InsertKeepsTable(s: Server)
    requires NumbersInv(s) && TableInv(s) && AcceptInv(s) && Enabled(s, Insert)
    ensures TableInv(Apply(s, Insert))
  {
    hide NumbersInv, AcceptInv, TableInv, Subscriptions;
    NumberIsNew(s);
    assert InPhase(s, s.accepting.conn, Accepted) by { AcceptedIsGot(s); }
    InsertKeepsListed(s);
    InsertKeepsEntries(s);
    BothHalves(Apply(s, Insert));
  }

  /** Neither the connection that the accept thread holds nor its number is in the table. */
  lemma NumberIsNew(s: Server)
    requires NumbersInv(s) && TableInv(s) && AcceptInv(s) && Enabled(s, Insert)
    ensures forall fd | fd in s.table :: s.table[fd] != s.accepting.conn && fd != s.fds[s.accepting.conn]
  {
    hide Subscriptions;
    assert InPhase(s, s.accepting.conn, Accepted) && Live(s, s.accepting.conn);
    assert forall fd | fd in s.table :: Listed(s, s.table[fd]) && Live(s, s.table[fd]);
  }

  lemma AcceptedIsGot(s: Server)
    requires AcceptInv(s) && s.accepting.Got?
    ensures InPhase(s, s.accepting.conn, Accepted)
  {
  }

  ghost predicate ListedInv(s: Server) {
    forall c | Listed(s, c) :: s.fds[c] in s.table && s.table[s.fds[c]] == c && c in s.subs
  }

  ghost predicate EntriesInv(s: Server) {
    forall fd | fd in s.table :: Listed(s, s.table[fd]) && s.fds[s.table[fd]] == fd
  }

  lemma BothHalves(s: Server)
    ensures TableInv(s) <==> ListedInv(s) && EntriesInv(s)
  {
  }

  lemma InsertKeepsListed(s: Server)
    requires TableInv(s) && Enabled(s, Insert)
    requires forall fd | fd in s.table :: fd != s.fds[s.accepting.conn]
    ensures ListedInv(Apply(s, Insert))
  {
    hide Subscriptions;
    var c, t := s.accepting.conn, Apply(s, Insert);
    forall d | Listed(t, d) ensures t.fds[d] in t.table && t.table[t.fds[d]] == d && d in t.subs {
      if d != c {
        assert Listed(s, d) && s.table[s.fds[d]] == d && s.fds[d] != s.fds[c];
      } else {
        assert t.fds[d] == s.fds[c] && t.table[s.fds[c]] == c;
      }
    }
  }

  lemma InsertKeepsEntries(s: Server)
    requires TableInv(s) && Enabled(s, Insert)
    requires forall fd | fd in s.table :: s.table[fd] != s.accepting.conn
    ensures EntriesInv(Apply(s, Insert))
  {
    hide Subscriptions;
    var c, t := s.accepting.conn, Apply(s, Insert);
    forall fd | fd in t.table ensures Listed(t, t.table[fd]) && t.fds[t.table[fd]] == fd {
      if fd == s.fds[c] {
        assert t.table[fd] == c && InPhase(t, c, Serving);
      } else {
        var d := s.table[fd];
        assert Listed(s, d) && d != c && t.table[fd] == d;
        assert t.phases[d] == s.phases[d] && s.fds[d] == fd;
      }
    }
  }

  lemma EraseKeepsTable(s: Server, c: Conn)
    requires TableInv(s) && Enabled(s, Erase(c))
    ensures TableInv(Apply(s, Erase(c)))
  {
  }

  lemma SameListing(s: Server, t: Server)
    requires TableInv(s) && t.table == s.table && s.subs.Keys <= t.subs.Keys
    requires forall c :: Listed(t, c) <==> Listed(s, c)
    requires forall c | Listed(s, c) :: c in t.fds && t.fds[c] == s.fds[c]
    ensures TableInv(t)
  {
  }

  lemma StepKeepsAccept(s: Server, step: Step)
    requires AcceptInv(s) && Enabled(s, step)
    ensures AcceptInv(Apply(s, step))
  {
    hide Subscriptions;
  }

  lemma StepKeepsHistory(s: Server, step: Step)
    requires HistoryInv(s) && AcceptInv(s) && Enabled(s, step)
    ensures HistoryInv(Apply(s, step))
  {
    hide Subscriptions, Apply, Enabled, HistoryInv, AcceptInv, InPhase;
    if Aside(step) {
      AsideChanges(s, step);
      SamePhasesHistory(s, Apply(s, step));
    } else if MovesOn(step) && !step.Report? {
      MovingOnChanges(s, step);
      MovedHistory(s, Apply(s, step), step.conn);
    } else {
      match step {
        case Report(c) => ReportKeepsHistory(s, c);
        case Close(c) => CloseKeepsHistory(s, c);
        case Accept(c, fd) => AcceptKeepsHistory(s, c, fd);
        case Insert => InsertKeepsHistory(s);
        case _ => OtherStepsKeepHistory(s, step);
      }
    }
  }

  lemma SamePhasesHistory(s: Server, t: Server)
    requires HistoryInv(s) && t.phases == s.phases && t.closes == s.closes && t.reports == s.reports
    ensures HistoryInv(t)
  {
    hide HistoryInv;
    SameHistory(s, t);
  }

  lemma MovedHistory(s: Server, t: Server, c: Conn)
    requires HistoryInv(s) && t.closes == s.closes && t.reports == s.reports
    requires c in s.phases && c in t.phases && t.phases == s.phases[c := t.phases[c]]
    requires !s.phases[c].Closed? && !t.phases[c].Closed? && !s.phases[c].Told?
    ensures HistoryInv(t)
  {
    hide HistoryInv;
    SameHistory(s, t);
  }

  lemma AcceptKeepsHistory(s: Server, c: Conn, fd: int)
    requires HistoryInv(s) && Enabled(s, Accept(c, fd))
    ensures HistoryInv(Apply(s, Accept(c, fd)))
  {
    assert c !in s.reports && c !in s.closes;
    hide HistoryInv;
    SameHistory(s, Apply(s, Accept(c, fd)));
  }

  lemma InsertKeepsHistory(s: Server)
    requires HistoryInv(s) && AcceptInv(s) && Enabled(s, Insert)
    ensures HistoryInv(Apply(s, Insert))
  {
    assert InPhase(s, s.accepting.conn, Accepted);
    hide HistoryInv, AcceptInv;
    SameHistory(s, Apply(s, Insert));
  }

  lemma OtherStepsKeepHistory(s: Server, step: Step)
    requires HistoryInv(s) && Enabled(s, step) && (step.Erase? || step.ForeignOpen? || step.ForeignClose?)
    ensures HistoryInv(Apply(s, step))
  {
    hide HistoryInv;
    SameHistory(s, Apply(s, step));
  }

  lemma ReportKeepsHistory(s: Server, c: Conn)
    requires HistoryInv(s) && Enabled(s, Report(c))
    ensures HistoryInv(Apply(s, Report(c)))
  {
    assert c !in s.reports;
    assert forall d | d in Apply(s, Report(c)).reports :: d == c || d in s.reports;
  }

  lemma CloseKeepsHistory(s: Server, c: Conn)
    requires HistoryInv(s) && Enabled(s, Close(c))
    ensures HistoryInv(Apply(s, Close(c)))
  {
    assert c !in s.closes;
    assert forall d :: d in Apply(s, Close(c)).closes <==> d == c || d in s.closes;
  }

  lemma SameHistory(s: Server, t: Server)
    requires HistoryInv(s) && t.closes == s.closes && t.reports == s.reports
    requires forall c :: InPhase(t, c, Closed) <==> InPhase(s, c, Closed)
    requires forall c | InPhase(s, c, Told) :: InPhase(t, c, Told)
    ensures HistoryInv(t)
  {
  }

  lemma StepKeepsStop(s: Server, step: Step)
    requires StopInv(s) && Enabled(s, step)
    ensures StopInv(Apply(s, step))
  {
  }

  lemma StepKeepsInv(s: Server, step: Step)
    requires Inv(s) && Enabled(s, step)
    ensures Inv(Apply(s, step))
  {
    StepKeepsStop(s, step);
    hide NumbersInv, TableInv, AcceptInv, HistoryInv, StopInv, Apply, Enabled;
    StepKeepsNumbers(s, step);
    StepKeepsTable(s, step);
    StepKeepsAccept(s, step);
    StepKeepsHistory(s, step);
  }

  lemma {:induction false} RunKeepsInv(states: seq<Server>, steps: seq<Step>, i: nat)
    requires Run(states, steps) && i < |states|
    ensures Inv(states[i])
  {
    if i > 0 {
      RunKeepsInv(states, steps, i - 1);
      StepKeepsInv(states[i - 1], steps[i - 1]);
    } else {
      InitialInv(states[0].handler);
    }
  }

  lemma InitialInv(handler: bool)
    ensures Inv(Initial(handler))
  {
  }

  // Main results, for every interleaving

  /** The table maps exactly the numbers of the listed connections, each to the connection that owns it. */
  lemma TableIsExact(states: seq<Server>, steps: seq<Step>, i: nat, fd: int, c: Conn)
    requires Run(states, steps) && i < |states|
    ensures var s := states[i]; (fd in s.table && s.table[fd] == c) <==> (Listed(s, c) && s.fds[c] == fd)
    ensures var s := states[i]; Listed(s, c) ==> s.fds[c] in s.open && s.fds[c] !in s.foreign
  {
    RunKeepsInv(states, steps, i);
  }

  /** The insert on accept adds an entry and never overwrites one. */
  lemma InsertNeverOverwrites(states: seq<Server>, steps: seq<Step>, i: nat)
    requires Run(states, steps) && i < |steps| && steps[i].Insert?
    ensures var s := states[i];
            && s.accepting.Got? && s.accepting.conn in s.fds && s.fds[s.accepting.conn] !in s.table
            && states[i + 1].table == s.table[s.fds[s.accepting.conn] := s.accepting.conn]
  {
    RunKeepsInv(states, steps, i);
    assert states[i + 1] == Apply(states[i], steps[i]);
    var s := states[i];
    assert InPhase(s, s.accepting.conn, Accepted) && Live(s, s.accepting.conn);
    assert forall fd | fd in s.table :: Live(s, s.table[fd]) && !InPhase(s, s.table[fd], Accepted);
  }

  /** An erase removes the entry of its own connection, which is there; only insert and erase change the table. */
  lemma EraseRemovesItsOwn(states: seq<Server>, steps: seq<Step>, i: nat)
    requires Run(states, steps) && i < |steps| && !steps[i].Insert?
    ensures steps[i].Erase? ==> exists fd :: fd in states[i].table && states[i].table[fd] == steps[i].conn
    ensures forall fd :: fd in states[i + 1].table <==>
      fd in states[i].table && !(steps[i].Erase? && states[i].table[fd] == steps[i].conn)
    ensures forall fd | fd in states[i + 1].table :: states[i + 1].table[fd] == states[i].table[fd]
  {
    RunKeepsInv(states, steps, i);
    assert states[i + 1] == Apply(states[i], steps[i]);
    if steps[i].Erase? {
      var c := steps[i].conn;
      assert Listed(states[i], c);
      var fd := states[i].fds[c];
      assert fd in states[i].table && states[i].table[fd] == c;
      assert forall n | n in states[i].table :: states[i].table[n] == c <==> n == fd;
    }
  }

  /** A connection thread still in its loop finds its own state, so "client was removed" never happens to it. */
  lemma ServingFindsItself(states: seq<Server>, steps: seq<Step>, i: nat, c: Conn)
    requires Run(states, steps) && i < |states| && InPhase(states[i], c, Serving)
    ensures var s := states[i]; c in s.fds && s.fds[c] in s.table && s.table[s.fds[c]] == c
  {
    RunKeepsInv(states, steps, i);
  }

  /** Each accepted connection is closed at most once and reported at most once, after leaving the table. */
  lemma ClosedAndReportedOnce(states: seq<Server>, steps: seq<Step>, i: nat)
    requires Run(states, steps) && i < |states|
    ensures Distinct(states[i].closes) && Distinct(states[i].reports)
    ensures forall c | c in states[i].closes || c in states[i].reports :: !Listed(states[i], c)
    ensures forall c | c in states[i].fds :: c in states[i].closes || states[i].fds[c] in states[i].open
  {
    RunKeepsInv(states, steps, i);
  }

  /** The thread of this connection has copied a handler that was there. */
  ghost predicate Copied(states: seq<Server>, steps: seq<Step>, i: nat, c: Conn)
    requires |states| == |steps| + 1 && i < |states|
  {
    exists k: nat :: k < i && steps[k] == CopyHandler(c) && states[k].handler
  }

  /** A connection that has been closed has been reported if and only if its thread got a copy of a handler. */
  lemma ReportedIff(states: seq<Server>, steps: seq<Step>, i: nat, c: Conn)
    requires Run(states, steps) && i < |states| && c in states[i].closes
    ensures c in states[i].reports <==> Copied(states, steps, i, c)
  {
    RunKeepsInv(states, steps, i);
    CopiedSoFar(states, steps, i, c);
  }

  lemma {:induction false} CopiedSoFar(states: seq<Server>, steps: seq<Step>, i: nat, c: Conn)
    requires Run(states, steps) && i < |states|
    ensures Copied(states, steps, i, c) <==> InPhase(states[i], c, Holding) || c in states[i].reports
  {
    hide Copied, NumbersInv, TableInv, AcceptInv, HistoryInv, StopInv, Apply, Enabled, InPhase;
    if i > 0 {
      CopiedSoFar(states, steps, i - 1, c);
      OneMoreStep(states, steps, i, c);
      RunKeepsInv(states, steps, i - 1);
      CopiedStep(states[i - 1], steps[i - 1], c);
    } else {
      NothingCopied(states, steps, c);
    }
  }

  lemma NothingCopied(states: seq<Server>, steps: seq<Step>, c: Conn)
    requires Run(states, steps)
    ensures !Copied(states, steps, 0, c) && !InPhase(states[0], c, Holding) && c !in states[0].reports
  {
  }

  lemma OneMoreStep(states: seq<Server>, steps: seq<Step>, i: nat, c: Conn)
    requires |states| == |steps| + 1 && 0 < i < |states|
    ensures Copied(states, steps, i, c) <==>
            Copied(states, steps, i - 1, c) || (steps[i - 1] == CopyHandler(c) && states[i - 1].handler)
  {
  }

  lemma CopiedStep(s: Server, step: Step, c: Conn)
    requires HistoryInv(s) && AcceptInv(s) && Enabled(s, step)
    ensures var t := Apply(s, step);
            InPhase(t, c, Holding) || c in t.reports <==>
            InPhase(s, c, Holding) || c in s.reports || (step == CopyHandler(c) && s.handler)
  {
    hide Subscriptions;
  }

  /** What pushEvent collects: the numbers and states of the subscribed connections. */
  function Targets(s: Server, event: nat): set<(int, Conn)> {
    set fd | fd in s.table && event in Subscriptions(s, fd) :: (fd, s.table[fd])
  }

  /** A push goes to the listed connections that hold the subscription, each under its own open number. */
  lemma PushReachesExactlySubscribers(states: seq<Server>, steps: seq<Step>, i: nat, event: nat, fd: int, c: Conn)
    requires Run(states, steps) && i < |states|
    ensures var s := states[i];
            (fd, c) in Targets(s, event) <==>
            Listed(s, c) && s.fds[c] == fd && c in s.subs && event in s.subs[c]
    ensures var s := states[i]; (fd, c) in Targets(s, event) ==> fd in s.open
  {
    RunKeepsInv(states, steps, i);
    var s := states[i];
    if Listed(s, c) && s.fds[c] == fd && c in s.subs && event in s.subs[c] {
      assert event in Subscriptions(s, fd);
    }
  }

  /** A subscription call changes the subscriptions of the connection it names and of no other. */
  lemma SubscriptionsAreSeparate(states: seq<Server>, steps: seq<Step>, i: nat, c: Conn)
    requires Run(states, steps) && i < |steps| && Listed(states[i], c)
    requires steps[i].Subscribe? || steps[i].Unsubscribe?
    ensures var s, t := states[i], states[i + 1];
            && c in s.fds && c in s.subs && c in t.subs
            && t.subs[c] ==
               if s.fds[c] != steps[i].fd then s.subs[c]
               else if steps[i].Subscribe? then s.subs[c] + {steps[i].event} else s.subs[c] - {steps[i].event}
  {
    RunKeepsInv(states, steps, i);
  }

  // Why the erase comes first

  /** A connection thread that closed its number before leaving the table. */
  function CloseEarly(s: Server, c: Conn): Server
    requires c in s.fds
  {
    s.(open := s.open - {s.fds[c]}, closes := s.closes + [c])
  }

  /** With close before erase, an insert can overwrite an entry and the late erase remove another connection's. */
  lemma CloseBeforeEraseLosesAConnection()
      returns (states: seq<Server>, steps: seq<Step>, s: Server, t: Server, u: Server)
    ensures Run(states, steps) && s == states[|steps|] && InPhase(s, 0, Leaving) && 0 in s.fds
    ensures Enabled(CloseEarly(s, 0), Accept(1, 5)) && t == Apply(CloseEarly(s, 0), Accept(1, 5))
    ensures 5 in t.table && t.table[5] == 0 && Enabled(t, Insert) && u == Apply(t, Insert)
    ensures Listed(u, 1) && u.fds[1] == 5 && Enabled(u, Erase(0)) && 5 !in Apply(u, Erase(0)).table
  {
    states, steps := AfterLeave();
    hide Run;
    s := states[|steps|];
    t := Apply(CloseEarly(s, 0), Accept(1, 5));
    u := Apply(t, Insert);
  }

  /** One more step of a run. */
  lemma Extend(states: seq<Server>, steps: seq<Step>, step: Step) returns (states': seq<Server>, steps': seq<Step>)
    requires Run(states, steps) && Enabled(states[|steps|], step)
    ensures Run(states', steps') && |states| == |steps| + 1 && |states'| == |states| + 1 && |steps'| == |steps| + 1
    ensures states <= states' && steps <= steps' && steps'[|steps|] == step
    ensures states'[|steps'|] == Apply(states[|steps|], step)
  {
    steps' := steps + [step];
    states' := states + [Apply(states[|steps|], step)];
  }

  /** A run after which a connection thread has left its loop. */
  lemma AfterLeave() returns (states: seq<Server>, steps: seq<Step>)
    ensures Run(states, steps) && |states| == |steps| + 1
    ensures var s := states[|steps|];
            && s.accepting.Idle? && s.open == {5} && s.fds == map[0 := 5] && s.phases == map[0 := Leaving]
            && s.table == map[5 := 0] && s.running && s.stopping.NotYet? && s.handler
  {
    states, steps := [Initial(true)], [];
    assert Run(states, steps);
    hide Run;
    states, steps := Extend(states, steps, Accept(0, 5));
    states, steps := Extend(states, steps, Insert);
    states, steps := Extend(states, steps, Leave(0));
  }

  // What stop leaves behind

  /** The run goes on to a report of this connection. */
  ghost predicate CanReport(states: seq<Server>, steps: seq<Step>, c: Conn) {
    exists states': seq<Server>, steps': seq<Step>, j: nat ::
      GoesOn(states, steps, states', steps', j) && steps'[j] == Report(c)
  }

  /** The longer run makes its step j after the shorter one has ended. */
  ghost predicate GoesOn(
      states: seq<Server>, steps: seq<Step>, states': seq<Server>, steps': seq<Step>, j: nat) {
    Run(states', steps') && states <= states' && steps <= steps' && |steps| <= j < |steps'|
  }

  /**
   Once the server is not running any more, a disconnect can still be reported exactly for a connection thread that has
   a copy of the handler, or that has made its test and finds the handler still there.
   */
  lemma ReportAfterStopIff(states: seq<Server>, steps: seq<Step>, c: Conn)
    requires Run(states, steps) && !states[|steps|].running
    ensures var s := states[|steps|];
            CanReport(states, steps, c) <==> InPhase(s, c, Holding) || (InPhase(s, c, Passed) && s.handler)
  {
    var s := states[|steps|];
    if InPhase(s, c, Holding) || (InPhase(s, c, Passed) && s.handler) {
      var states', steps', j := ReportFollows(states, steps, c);
      assert GoesOn(states, steps, states', steps', j) && steps'[j] == Report(c);
    } else {
      forall states': seq<Server>, steps': seq<Step>, j: nat | GoesOn(states, steps, states', steps', j)
        ensures steps'[j] != Report(c)
      {
        MuteForGood(states', steps', |steps|, j, c);
      }
    }
  }

  /** So after the stop has returned, a report can follow exactly for a copy taken before. */
  lemma ReportAfterReturnIff(states: seq<Server>, steps: seq<Step>, c: Conn)
    requires Run(states, steps) && states[|steps|].stopping.Returned?
    ensures CanReport(states, steps, c) <==> InPhase(states[|steps|], c, Holding)
  {
    hide NumbersInv, TableInv, AcceptInv, HistoryInv;
    RunKeepsInv(states, steps, |steps|);
    ReportAfterStopIff(states, steps, c);
  }

  /** And there is a run with such a copy. */
  lemma CopyOutlivesStop() returns (states: seq<Server>, steps: seq<Step>)
    ensures Run(states, steps) && |states| == |steps| + 1
    ensures states[|steps|].stopping.Returned? && InPhase(states[|steps|], 0, Holding)
  {
    states, steps := CopyThenStop();
    hide Run, Subscriptions;
    states, steps := Extend(states, steps, Snapshot);
    states, steps := Extend(states, steps, ClearHandlers);
    states, steps := Extend(states, steps, StopReturn);
  }

  lemma CopyThenStop() returns (states: seq<Server>, steps: seq<Step>)
    ensures Run(states, steps) && |states| == |steps| + 1
    ensures var s := states[|steps|]; InPhase(s, 0, Holding) && s.table == map[] && s.stopping.Collecting?
  {
    states, steps := CopyTaken();
    hide Run, Subscriptions;
    states, steps := Extend(states, steps, Stop);
    states, steps := Extend(states, steps, AcceptExit);
    states, steps := Extend(states, steps, JoinAccept);
  }

  lemma CopyTaken() returns (states: seq<Server>, steps: seq<Step>)
    ensures Run(states, steps) && |states| == |steps| + 1
    ensures var s := states[|steps|];
            InPhase(s, 0, Holding) && s.table == map[] && s.accepting.Idle? && s.running && s.stopping.NotYet?
  {
    states, steps := AfterLeave();
    hide Run, Subscriptions;
    states, steps := Extend(states, steps, Erase(0));
    states, steps := Extend(states, steps, TestRunning(0));
    states, steps := Extend(states, steps, CopyHandler(0));
  }

  lemma ReportFollows(states: seq<Server>, steps: seq<Step>, c: Conn)
      returns (states': seq<Server>, steps': seq<Step>, j: nat)
    requires Run(states, steps)
    requires var s := states[|steps|]; InPhase(s, c, Holding) || (InPhase(s, c, Passed) && s.handler)
    ensures GoesOn(states, steps, states', steps', j) && steps'[j] == Report(c)
  {
    var held := InPhase(states[|steps|], c, Holding);
    hide Run;
    states', steps' := states, steps;
    if !held {
      states', steps' := Extend(states', steps', CopyHandler(c));
    }
    j := |steps'|;
    states', steps' := Extend(states', steps', Report(c));
  }

  /** The server is not running and this connection has no way left to a report. */
  predicate Mute(s: Server, c: Conn) {
    !s.running && !InPhase(s, c, Holding) && !(InPhase(s, c, Passed) && s.handler)
  }

  lemma MuteStep(s: Server, step: Step, c: Conn)
    requires Mute(s, c) && Enabled(s, step)
    ensures Mute(Apply(s, step), c) && step != Report(c)
  {
    hide Subscriptions;
  }

  lemma {:induction false} MuteForGood(states: seq<Server>, steps: seq<Step>, i: nat, j: nat, c: Conn)
    requires Run(states, steps) && i <= j < |steps| && Mute(states[i], c)
    ensures Mute(states[j], c) && steps[j] != Report(c)
    decreases j
  {
    hide Mute, Apply, Enabled;
    if i < j {
      MuteForGood(states, steps, i, j - 1, c);
      MuteStep(states[j - 1], steps[j - 1], c);
    }
    MuteStep(states[j], steps[j], c);
  }

  /** Every number collected is shut down before stop goes on. */
  lemma AllAreShutDown(states: seq<Server>, steps: seq<Step>, i: nat, j: nat, fd: int)
    requires Run(states, steps) && i < j < |steps| && steps[i].Snapshot? && steps[j].ClearHandlers?
    requires fd in states[i].table
    ensures exists k: nat :: i < k < j && steps[k] == Shutdown(fd)
  {
    LeftOrShutDown(states, steps, i, j, fd);
  }

  lemma {:induction false} LeftOrShutDown(states: seq<Server>, steps: seq<Step>, i: nat, j: nat, fd: int)
    requires Run(states, steps) && i < j < |states| && steps[i].Snapshot? && fd in states[i].table
    ensures (exists k: nat :: i < k < j && steps[k] == Shutdown(fd))
         || (states[j].stopping.Shutting? && fd in states[j].stopping.left)
    decreases j
  {
    hide NumbersInv, TableInv, AcceptInv, HistoryInv, StopInv, Apply, Enabled;
    assert states[j] == Apply(states[j - 1], steps[j - 1]);
    if i + 1 == j {
      SnapshotTakes(states[i], steps[i]);
    } else {
      LeftOrShutDown(states, steps, i, j - 1, fd);
      RunKeepsInv(states, steps, j - 1);
      if states[j - 1].stopping.Shutting? && fd in states[j - 1].stopping.left {
        LeftStep(states[j - 1], steps[j - 1], fd);
      }
    }
  }

  lemma SnapshotTakes(s: Server, step: Step)
    requires Enabled(s, step) && step.Snapshot?
    ensures Apply(s, step).stopping == Shutting(s.table)
  {
  }

  lemma LeftStep(s: Server, step: Step, fd: int)
    requires StopInv(s) && Enabled(s, step) && s.stopping.Shutting? && fd in s.stopping.left
    ensures step == Shutdown(fd) || (Apply(s, step).stopping.Shutting? && fd in Apply(s, step).stopping.left)
  {
    hide Subscriptions;
  }

  /** And nobody is missed: a connection that is served any time later was among them. */
  lemma {:induction false} NobodyIsMissed(states: seq<Server>, steps: seq<Step>, i: nat, j: nat, c: Conn)
    requires Run(states, steps) && i < j < |states| && steps[i].Snapshot? && InPhase(states[j], c, Serving)
    ensures var s := states[i]; c in s.fds && s.fds[c] in s.table && s.table[s.fds[c]] == c
    decreases j
  {
    hide NumbersInv, TableInv, AcceptInv, HistoryInv, Apply, Enabled, AfterJoin;
    RunKeepsInv(states, steps, j - 1);
    AfterSnapshot(states, steps, i, j - 1);
    ServingBefore(states[j - 1], steps[j - 1], c);
    if i + 1 < j {
      NobodyIsMissed(states, steps, i, j - 1, c);
    } else {
      ServingFindsItself(states, steps, i, c);
    }
  }

  predicate AfterJoin(s: Server) { !s.stopping.NotYet? && !s.stopping.Flipped? }

  lemma {:induction false} AfterSnapshot(states: seq<Server>, steps: seq<Step>, i: nat, j: nat)
    requires Run(states, steps) && i <= j < |states| && i < |steps| && steps[i].Snapshot?
    ensures AfterJoin(states[j])
    decreases j
  {
    assert Enabled(states[i], steps[i]);
    if i < j {
      hide NumbersInv, TableInv, AcceptInv, HistoryInv, Apply, Enabled, AfterJoin;
      AfterSnapshot(states, steps, i, j - 1);
      RunKeepsInv(states, steps, j - 1);
      AfterJoinStep(states[j - 1], steps[j - 1]);
    }
  }

  lemma AfterJoinStep(s: Server, step: Step)
    requires StopInv(s) && AfterJoin(s) && Enabled(s, step)
    ensures AfterJoin(Apply(s, step))
  {
    hide Subscriptions;
  }

  lemma ServingBefore(s: Server, step: Step, c: Conn)
    requires StopInv(s) && AfterJoin(s) && Enabled(s, step) && InPhase(Apply(s, step), c, Serving)
    ensures InPhase(s, c, Serving)
  {
    hide Subscriptions;
  }

  /** The run goes on to a shutdown of a number that is not a connection of this server any more. */
  ghost predicate CanShutForeign(states: seq<Server>, steps: seq<Step>) {
    exists states': seq<Server>, steps': seq<Step>, j: nat ::
      GoesOn(states, steps, states', steps', j) && steps'[j].Shutdown? && steps'[j].fd in states'[j].foreign
  }

  /** When stop has collected the numbers, it is sure to shut down only its own exactly if it has collected none. */
  lemma ShutdownHitsForeignIff(states: seq<Server>, steps: seq<Step>)
    requires Run(states, steps) && steps != [] && steps[|steps| - 1].Snapshot?
    ensures CanShutForeign(states, steps) <==> states[|steps|].table != map[]
  {
    var s := states[|steps|];
    if s.table != map[] {
      HasMember(s.table.Keys);
      var fd :| fd in s.table.Keys;
      var states', steps', j := NumberIsHandedOn(states, steps, fd);
      assert GoesOn(states, steps, states', steps', j) && steps'[j].Shutdown? && steps'[j].fd in states'[j].foreign;
    } else {
      assert NothingLeft(s) by { EmptySnapshot(states, steps); }
      forall states': seq<Server>, steps': seq<Step>, j: nat | GoesOn(states, steps, states', steps', j)
        ensures !steps'[j].Shutdown?
      {
        NothingLeftForGood(states', steps', |steps|, j);
      }
    }
  }

  lemma EmptySnapshot(states: seq<Server>, steps: seq<Step>)
    requires Run(states, steps) && steps != [] && steps[|steps| - 1].Snapshot? && states[|steps|].table == map[]
    ensures NothingLeft(states[|steps|])
  {
    var i := |steps| - 1;
    assert states[i + 1] == Apply(states[i], steps[i]);
  }

  predicate NothingLeft(s: Server) {
    (s.stopping.Shutting? && s.stopping.left == map[]) || s.stopping.Cleared? || s.stopping.Returned?
  }

  lemma NothingLeftStep(s: Server, step: Step)
    requires StopInv(s) && NothingLeft(s) && Enabled(s, step)
    ensures NothingLeft(Apply(s, step)) && !step.Shutdown?
  {
    hide Subscriptions;
  }

  lemma {:induction false} NothingLeftForGood(states: seq<Server>, steps: seq<Step>, i: nat, j: nat)
    requires Run(states, steps) && i <= j < |steps| && NothingLeft(states[i])
    ensures NothingLeft(states[j]) && !steps[j].Shutdown?
    decreases j
  {
    hide NothingLeft, StopInv, NumbersInv, TableInv, AcceptInv, HistoryInv, Apply, Enabled;
    if i < j {
      NothingLeftForGood(states, steps, i, j - 1);
      RunKeepsInv(states, steps, j - 1);
      NothingLeftStep(states[j - 1], steps[j - 1]);
    }
    RunKeepsInv(states, steps, j);
    NothingLeftStep(states[j], steps[j]);
  }

  /** Any collected number can be closed and handed out again before its shutdown. */
  lemma NumberIsHandedOn(states: seq<Server>, steps: seq<Step>, fd: int)
      returns (states': seq<Server>, steps': seq<Step>, j: nat)
    requires Run(states, steps) && steps != [] && steps[|steps| - 1].Snapshot? && fd in states[|steps|].table
    ensures GoesOn(states, steps, states', steps', j) && steps'[j] == Shutdown(fd) && fd in states'[j].foreign
  {
    SnapshotHas(states, steps, fd);
    states', steps' := OwnerLeaves(states, steps, states[|steps|].table[fd]);
    hide Run, Subscriptions;
    states', steps' := Extend(states', steps', Close(states[|steps|].table[fd]));
    states', steps' := Extend(states', steps', ForeignOpen(fd));
    j := |steps'|;
    states', steps' := Extend(states', steps', Shutdown(fd));
  }

  /** A connection thread gets as far as its close. */
  lemma OwnerLeaves(states: seq<Server>, steps: seq<Step>, c: Conn)
      returns (states': seq<Server>, steps': seq<Step>)
    requires Run(states, steps) && Listed(states[|steps|], c) && !states[|steps|].running
    ensures Run(states', steps') && |states| == |steps| + 1 && |states'| == |steps'| + 1
    ensures states <= states' && steps <= steps'
    ensures var s, t := states[|steps|], states'[|steps'|];
            && InPhase(t, c, Told) && t.fds == s.fds && t.open == s.open && t.foreign == s.foreign
            && t.stopping == s.stopping
  {
    var serving := InPhase(states[|steps|], c, Serving);
    hide Run, Subscriptions;
    states', steps' := states, steps;
    if serving {
      states', steps' := Extend(states', steps', Leave(c));
    }
    states', steps' := Extend(states', steps', Erase(c));
    states', steps' := Extend(states', steps', TestRunning(c));
  }

  lemma SnapshotHas(states: seq<Server>, steps: seq<Step>, fd: int)
    requires Run(states, steps) && steps != [] && steps[|steps| - 1].Snapshot? && fd in states[|steps|].table
    ensures var s := states[|steps|];
            && Listed(s, s.table[fd]) && s.fds[s.table[fd]] == fd && !s.running
            && s.stopping.Shutting? && fd in s.stopping.left
  {
    hide NumbersInv, AcceptInv, HistoryInv;
    RunKeepsInv(states, steps, |steps|);
    var i := |steps| - 1;
    assert states[i + 1] == Apply(states[i], steps[i]);
  }
}
