/**
 One connection of src/ipc/ipc_server.cpp and everything that writes to it: the response writer of its own
 thread and any number of pushers, each under the write lock of the connection.  A write is many steps (a send
 may move few bytes); the steps of different writers interleave freely.
 */
module ConnectionWriters {
  import opened Framing
  import opened Shared

  type Job = nat

  datatype Phase = Waiting(frame: Frame) | Writing(frame: Frame, sent: nat) | Finished(ok: bool)

  /** Whether a write has failed: then the first done frames are whole and end, with a part of the next, at length. */
  datatype Health = Whole | Torn(done: nat, length: nat)

  /**
   phases: the writes asked for so far; lock: the holder of the write lock; stream: the bytes given to the
   socket; acquired: the frames in the order in which their writers took the lock.
   */
  datatype Connection = Connection(
    phases: map<Job, Phase>, lock: Option<Job>, stream: Stream, acquired: seq<Frame>, health: Health)

  datatype Step =
    | Request(job: Job, frame: Frame)
    | Acquire(job: Job)
    | Send(job: Job, n: nat)
    | Interrupt(job: Job)
    | Complete(job: Job)
    | Fail(job: Job)

  const INITIAL := Connection(map[], None, [], [], Whole)

  /** The writer holds the lock and has part of its frame left to send, or none. */
  predicate Holds(c: Connection, job: Job) {
    c.lock == Some(job) && job in c.phases && c.phases[job].Writing?
  }

  predicate Enabled(c: Connection, step: Step) {
    match step
    case Request(job, _) => job !in c.phases
    case Acquire(job) => job in c.phases && c.phases[job].Waiting? && c.lock.None?
    case Send(job, n) => Holds(c, job) && 0 < n && c.phases[job].sent + n <= |Encode(c.phases[job].frame)|
    case Interrupt(job) => Holds(c, job)
    case Complete(job) => Holds(c, job) && c.phases[job].sent == |Encode(c.phases[job].frame)|
    case Fail(job) => Holds(c, job) && c.phases[job].sent < |Encode(c.phases[job].frame)|
  }

  function Apply(c: Connection, step: Step): Connection
    requires Enabled(c, step)
  {
    match step
    case Request(job, frame) => c.(phases := c.phases[job := Waiting(frame)])
    case Acquire(job) =>
      var frame := c.phases[job].frame;
      c.(lock := Some(job), phases := c.phases[job := Writing(frame, 0)], acquired := c.acquired + [frame])
    case Send(job, n) =>
      var Writing(frame, at) := c.phases[job];
      c.(stream := c.stream + Encode(frame)[at..at + n], phases := c.phases[job := Writing(frame, at + n)])
    case Interrupt(_) => c
    case Complete(job) => c.(lock := None, phases := c.phases[job := Finished(true)])
    case Fail(job) =>
      c.(lock := None, phases := c.phases[job := Finished(false)],
         health := if c.health.Whole? && |c.acquired| > 0 then Torn(|c.acquired| - 1, |c.stream|) else c.health)
  }

  /** The states that a list of steps passes through, from a new connection on. */
  ghost predicate Run(states: seq<Connection>, steps: seq<Step>) {
    && |states| == |steps| + 1
    && states[0] == INITIAL
    && forall i | 0 <= i < |steps| :: Enabled(states[i], steps[i]) && states[i + 1] == Apply(states[i], steps[i])
  }

  ghost predicate Inv(c: Connection) {
    && (forall job | job in c.phases && c.phases[job].Writing? :: c.lock == Some(job))
    && (c.lock.Some? ==> HolderInv(c, c.lock.value))
    && (c.health.Whole? ==> c.stream == EncodeAll(Released(c)) + Partial(c))
    && (c.health.Torn? ==>
        c.health.done < |c.acquired| && c.health.length <= |c.stream|
        && EndsInside(c.stream[..c.health.length], c.acquired[..c.health.done], c.acquired[c.health.done]))
  }

  ghost predicate HolderInv(c: Connection, job: Job) {
    && Holds(c, job) && |c.acquired| > 0
    && c.phases[job].frame == c.acquired[|c.acquired| - 1]
    && c.phases[job].sent <= |Encode(c.phases[job].frame)|
  }

  /** The frames whose writers have given the lock back. */
  function Released(c: Connection): seq<Frame> {
    if c.lock.Some? && |c.acquired| > 0 then c.acquired[..|c.acquired| - 1] else c.acquired
  }

  /** What the holder of the lock has sent of its frame. */
  ghost function Partial(c: Connection): Stream
    requires c.lock.Some? ==> HolderInv(c, c.lock.value)
  {
    if c.lock.None? then [] else
      var Writing(frame, sent) := c.phases[c.lock.value];
      Encode(frame)[..sent]
  }

  /** s is the whole frames followed by a proper prefix of the next one. */
  ghost predicate EndsInside(s: Stream, whole: seq<Frame>, next: Frame) {
    exists n: nat :: n < |Encode(next)| && s == EncodeAll(whole) + Encode(next)[..n]
  }

  lemma StepKeepsInv(c: Connection, step: Step)
    requires Inv(c) && Enabled(c, step)
    ensures Inv(Apply(c, step))
  {
    hide Encode, EncodeAll;
    match step {
      case Request(_, _) =>
      case Acquire(job) => AcquireKeepsInv(c, job);
      case Send(job, n) => SendKeepsInv(c, job, n);
      case Interrupt(_) =>
      case Complete(job) => CompleteKeepsInv(c, job);
      case Fail(job) => FailKeepsInv(c, job);
    }
  }

  lemma AcquireKeepsInv(c: Connection, job: Job)
    requires Inv(c) && Enabled(c, Acquire(job))
    ensures Inv(Apply(c, Acquire(job)))
  {
    hide Encode, EncodeAll;
    var d := Apply(c, Acquire(job));
    assert Released(d) == Released(c);
    assert c.health.Torn? ==> d.acquired[..c.health.done] == c.acquired[..c.health.done];
  }

  lemma SendKeepsInv(c: Connection, job: Job, n: nat)
    requires Inv(c) && Enabled(c, Send(job, n))
    ensures Inv(Apply(c, Send(job, n)))
  {
    hide Encode, EncodeAll;
    var d := Apply(c, Send(job, n));
    var Writing(frame, at) := c.phases[job];
    assert Encode(frame)[..at] + Encode(frame)[at..at + n] == Encode(frame)[..at + n];
    assert c.health.Torn? ==> d.stream[..c.health.length] == c.stream[..c.health.length];
  }

  lemma CompleteKeepsInv(c: Connection, job: Job)
    requires Inv(c) && Enabled(c, Complete(job))
    ensures Inv(Apply(c, Complete(job)))
  {
    hide Encode, EncodeAll;
    var frame := c.phases[job].frame;
    EncodeAllAppend(Released(c), frame);
    assert c.acquired == Released(c) + [frame];
    assert Encode(frame)[..|Encode(frame)|] == Encode(frame);
  }

  lemma FailKeepsInv(c: Connection, job: Job)
    requires Inv(c) && Enabled(c, Fail(job))
    ensures Inv(Apply(c, Fail(job)))
  {
    hide Encode, EncodeAll;
    var Writing(frame, at) := c.phases[job];
    if c.health.Whole? {
      assert c.stream[..|c.stream|] == EncodeAll(Released(c)) + Encode(frame)[..at];
    }
  }

  lemma {:induction false} RunKeepsInv(states: seq<Connection>, steps: seq<Step>)
    requires Run(states, steps)
    ensures Inv(states[|steps|])
  {
    if steps != [] {
      var n := |steps| - 1;
      RunKeepsInv(states[..n + 1], steps[..n]);
      StepKeepsInv(states[n], steps[n]);
    } else {
      assert EncodeAll([]) + [] == [];
    }
  }

  /**
   As long as no write has failed, the stream is the whole frames in lock order followed by what the holder of
   the lock has sent of its own; and up to the first failure it stays whole frames and a part of the failed one.
   */
  lemma StreamIsWholeFrames(states: seq<Connection>, steps: seq<Step>)
    requires Run(states, steps)
    ensures var c := states[|steps|];
            match c.health
            case Whole =>
              && (c.lock.None? ==> c.stream == EncodeAll(c.acquired))
              && (c.lock.Some? ==>
                  HolderInv(c, c.lock.value)
                  && var Writing(frame, sent) := c.phases[c.lock.value];
                     c.stream == EncodeAll(Released(c)) + Encode(frame)[..sent])
            case Torn(done, length) =>
              && done < |c.acquired| && length <= |c.stream|
              && EndsInside(c.stream[..length], c.acquired[..done], c.acquired[done])
  {
    hide Encode, EncodeAll;
    RunKeepsInv(states, steps);
  }

  /** No two writers are ever inside a frame at once. */
  lemma WritersExclude(states: seq<Connection>, steps: seq<Step>, job: Job, job': Job)
    requires Run(states, steps)
    requires var c := states[|steps|];
             job in c.phases && job' in c.phases && c.phases[job].Writing? && c.phases[job'].Writing?
    ensures job == job'
  {
    hide Encode, EncodeAll;
    RunKeepsInv(states, steps);
  }

  /** A write returns true if and only if it completed. */
  lemma {:induction false} FinishedHow(states: seq<Connection>, steps: seq<Step>, i: nat, job: Job)
    requires Run(states, steps) && i < |states| && job in states[i].phases && states[i].phases[job].Finished?
    ensures exists k: nat :: k < i && steps[k] == if states[i].phases[job].ok then Complete(job) else Fail(job)
  {
    hide Encode;
    assert i > 0 && states[i] == Apply(states[i - 1], steps[i - 1]);
    if job in states[i - 1].phases && states[i - 1].phases[job].Finished? {
      FinishedHow(states, steps, i - 1, job);
    }
  }

  /** Before the first failed write, a write that completes has its frame, the last one begun, wholly in the stream. */
  lemma CompletedIsWhole(states: seq<Connection>, steps: seq<Step>, k: nat, job: Job)
    requires Run(states, steps) && k < |steps| && steps[k] == Complete(job) && states[k].health.Whole?
    ensures var s, t := states[k], states[k + 1];
            && job in s.phases && s.phases[job].Writing? && t.acquired != []
            && t.acquired[|t.acquired| - 1] == s.phases[job].frame && t.stream == EncodeAll(t.acquired)
  {
    assert Run(states[..k + 1], steps[..k]);
    RunKeepsInv(states[..k + 1], steps[..k]);
    hide Encode, EncodeAll;
    var s := states[k];
    var frame := s.phases[job].frame;
    assert s.acquired == Released(s) + [frame];
    assert Encode(frame)[..|Encode(frame)|] == Encode(frame);
    EncodeAllAppend(Released(s), frame);
  }

  /** The frames that are wholly inside the stream, and what is left of it, up to the first failed write. */
  ghost function Sound(c: Connection): Stream {
    match c.health
    case Whole => c.stream
    case Torn(_, length) => if length <= |c.stream| then c.stream[..length] else c.stream
  }

  ghost function WholeFrames(c: Connection): seq<Frame> {
    match c.health
    case Whole =>
      if c.lock.Some? && Holds(c, c.lock.value) && c.phases[c.lock.value].sent < |Encode(c.phases[c.lock.value].frame)|
      then Released(c) else c.acquired
    case Torn(done, _) => if done <= |c.acquired| then c.acquired[..done] else c.acquired
  }

  /**
   Whatever the interleaving of the writers and however the reader's calls are cut or interrupted, reading the
   stream up to the first failed write yields the frames in lock order and nothing else; if the reader's calls
   neither fail nor close before the bytes have been taken, it yields all of them.
   */
  method ReadBack(ghost states: seq<Connection>, ghost steps: seq<Step>, sock: Socket, max: uint32)
      returns (frames: seq<Frame>)
    requires Run(states, steps) && AllFit(states[|steps|].acquired, max)
    requires sock.inbox == Sound(states[|steps|])
    modifies sock
    ensures frames <= WholeFrames(states[|steps|])
    ensures Benign(old(sock.schedule)) && ReadyCount(old(sock.schedule)) >= |old(sock.inbox)| ==>
      frames == WholeFrames(states[|steps|])
  {
    hide Encode, EncodeAll, HoldsFrame;
    ghost var c := states[|steps|];
    RunKeepsInv(states, steps);
    ghost var torn := TornRest(c, max);
    frames := ReadFrames(sock, max, WholeFrames(c), torn);
  }

  lemma TornRest(c: Connection, max: uint32) returns (torn: Stream)
    requires Inv(c) && AllFit(c.acquired, max)
    ensures !HoldsFrame(torn, max) && Sound(c) == EncodeAll(WholeFrames(c)) + torn
    ensures AllFit(WholeFrames(c), max)
  {
    hide Encode, EncodeAll;
    torn := [];
    match c.health {
      case Whole =>
        if c.lock.Some? {
          var Writing(frame, sent) := c.phases[c.lock.value];
          if sent < |Encode(frame)| {
            torn := Encode(frame)[..sent];
            TornFrame(frame, sent, max);
          } else {
            EncodeAllAppend(Released(c), frame);
            assert c.acquired == Released(c) + [frame];
            assert Encode(frame)[..sent] == Encode(frame);
          }
        }
      case Torn(done, length) =>
        var next := c.acquired[done];
        var n: nat :| n < |Encode(next)| && c.stream[..length] == EncodeAll(c.acquired[..done]) + Encode(next)[..n];
        torn := Encode(next)[..n];
        TornFrame(next, n, max);
    }
  }
}
