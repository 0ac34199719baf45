/**
 Crash atomicity of src/store/store_atomic_writer.cpp: write a temporary file, sync it, rename it over the key
 file, sync the directory.  One writer per key; writers of different keys interleave; every system call may
 fail; the machine may lose power between any two steps.
 */
module AtomicWriter {
  import opened Shared

  type Key = string
  type Content = string
  type Inode = nat

  datatype Name = Final(key: Key) | Temp(key: Key)
  type Directory = map<Name, Inode>

  /**
   history: the directory states that a crash may bring back, oldest first; the last one is the current one.
   A rename is one entry of it.  synced: the files whose content a crash cannot change.
   */
  datatype Disk = Disk(history: seq<Directory>, content: map<Inode, Content>, synced: set<Inode>)

  datatype Stage =
    | Begun
    | Opened(inode: Inode)
    | Written(inode: Inode)
    | Synced(inode: Inode)
    | Cleaning
    | Renamed
    | Done(ok: bool, renamed: bool)

  /** A write in progress, and what was visible under the key when it began. */
  datatype Writer = Writer(value: Content, before: Option<Content>, stage: Stage)

  /** committed: the value of the last write that returned true; later: the values attempted since. */
  datatype Ledger = Ledger(committed: Option<Content>, later: set<Content>)

  datatype State = State(disk: Disk, writers: map<Key, Writer>, ledgers: map<Key, Ledger>)

  datatype Step =
    | Begin(key: Key, value: Content)
    | OpenTemp(key: Key, ok: bool, newFile: Inode)
    | WriteData(key: Key, n: nat, ok: bool)
    | SyncFile(key: Key, ok: bool)
    | Rename(key: Key, ok: bool)
    | RemoveTemp(key: Key, ok: bool)
    | SyncDirectory(key: Key, ok: bool)
    | Return(key: Key)
    | Crash(survivor: nat, content: map<Inode, Content>)

  const INITIAL := State(Disk([map[]], map[], {}), map[], map[])

  function Current(d: Disk): Directory { if d.history == [] then map[] else d.history[|d.history| - 1] }

  function LedgerOf(s: State, k: Key): Ledger { if k in s.ledgers then s.ledgers[k] else Ledger(None, {}) }

  /** What a reader of the key file sees. */
  function Visible(d: Disk, k: Key): Option<Content> {
    if Final(k) in Current(d) && Current(d)[Final(k)] in d.content then Some(d.content[Current(d)[Final(k)]]) else None
  }

  predicate At(s: State, k: Key, stage: Stage) { k in s.writers && s.writers[k].stage == stage }

  predicate Enabled(s: State, step: Step) {
    match step
    case Begin(k, _) => k !in s.writers
    case OpenTemp(k, ok, newFile) =>
      At(s, k, Begun) && (ok && Temp(k) !in Current(s.disk) ==> newFile !in s.disk.content)
    case WriteData(k, n, ok) =>
      k in s.writers && s.writers[k].stage.Opened? && n <= |s.writers[k].value| && (ok ==> n == |s.writers[k].value|)
    case SyncFile(k, _) => k in s.writers && s.writers[k].stage.Written?
    case Rename(k, _) => k in s.writers && s.writers[k].stage.Synced?
    case RemoveTemp(k, _) => At(s, k, Cleaning)
    case SyncDirectory(k, _) => At(s, k, Renamed)
    case Return(k) => k in s.writers && s.writers[k].stage.Done?
    case Crash(i, content) =>
      && i < |s.disk.history| && content.Keys == s.disk.content.Keys
      && forall f | f in s.disk.synced && f in content :: content[f] == s.disk.content[f]
  }

  function SetStage(s: State, k: Key, stage: Stage, disk: Disk): State
    requires k in s.writers
  {
    s.(disk := disk, writers := s.writers[k := s.writers[k].(stage := stage)])
  }

  function Extend(d: Disk, dir: Directory): Disk { d.(history := d.history + [dir]) }

  function Apply(s: State, step: Step): State
    requires Enabled(s, step)
  {
    match step
    case Begin(k, value) =>
      var ledger := LedgerOf(s, k);
      s.(writers := s.writers[k := Writer(value, Visible(s.disk, k), Begun)],
         ledgers := s.ledgers[k := ledger.(later := ledger.later + {value})])
    case OpenTemp(k, ok, newFile) =>
      if !ok then SetStage(s, k, Done(false, false), s.disk)
      else if Temp(k) in Current(s.disk) then
        var f := Current(s.disk)[Temp(k)];
        SetStage(s, k, Opened(f), s.disk.(content := s.disk.content[f := ""], synced := s.disk.synced - {f}))
      else
        var d := Extend(s.disk, Current(s.disk)[Temp(k) := newFile]);
        SetStage(s, k, Opened(newFile), d.(content := d.content[newFile := ""], synced := d.synced - {newFile}))
    case WriteData(k, n, ok) =>
      var Writer(value, _, Opened(f)) := s.writers[k];
      var d := s.disk.(content := s.disk.content[f := value[..n]], synced := s.disk.synced - {f});
      SetStage(s, k, if ok then Written(f) else Done(false, false), d)
    case SyncFile(k, ok) =>
      var f := s.writers[k].stage.inode;
      if ok then SetStage(s, k, Synced(f), s.disk.(synced := s.disk.synced + {f}))
      else SetStage(s, k, Cleaning, s.disk)
    case Rename(k, ok) =>
      var f := s.writers[k].stage.inode;
      if ok then SetStage(s, k, Renamed, Extend(s.disk, (Current(s.disk) - {Temp(k)})[Final(k) := f]))
      else SetStage(s, k, Cleaning, s.disk)
    case RemoveTemp(k, ok) =>
      SetStage(s, k, Done(false, false), if ok then Extend(s.disk, Current(s.disk) - {Temp(k)}) else s.disk)
    case SyncDirectory(k, ok) =>
      if ok then SetStage(s, k, Done(true, true), s.disk.(history := [Current(s.disk)]))
      else SetStage(s, k, Done(false, true), s.disk)
    case Return(k) =>
      var t := s.(writers := s.writers - {k});
      if s.writers[k].stage.ok then t.(ledgers := s.ledgers[k := Ledger(Some(s.writers[k].value), {})]) else t
    case Crash(i, content) =>
      State(Disk([s.disk.history[i]], content, content.Keys), map[], s.ledgers)
  }

  ghost predicate Run(states: seq<State>, steps: seq<Step>) {
    && |states| == |steps| + 1
    && states[0] == INITIAL
    && forall i | 0 <= i < |steps| :: Enabled(states[i], steps[i]) && states[i + 1] == Apply(states[i], steps[i])
  }

  // The invariant

  /** Every name leads to a file, and no two names to the same one. */
  ghost predicate Sound(d: Disk, dir: Directory) {
    && (forall n | n in dir :: dir[n] in d.content)
    && (forall n, m | n in dir && m in dir && dir[n] == dir[m] :: n == m)
    && (forall n | n in dir && n.Final? :: dir[n] in d.synced)
  }

  /** A file that a temporary name leads to now is behind no key in any state a crash may bring back. */
  ghost predicate TempsApart(d: Disk) {
    forall n, m, dir | n in Current(d) && n.Temp? && dir in d.history && m in dir && m.Final? :: Current(d)[n] != dir[m]
  }

  ghost predicate DiskInv(d: Disk) {
    && d.history != [] && d.synced <= d.content.Keys
    && (forall dir | dir in d.history :: Sound(d, dir))
    && TempsApart(d)
  }

  /** In a directory that a crash may bring back, the key has a value that the ledger allows. */
  ghost predicate Honest(d: Disk, dir: Directory, k: Key, ledger: Ledger) {
    if Final(k) in dir then
      dir[Final(k)] in d.content && Allowed(ledger, Some(d.content[dir[Final(k)]]))
    else ledger.committed.None?
  }

  predicate Allowed(ledger: Ledger, value: Option<Content>) {
    value == ledger.committed || (value.Some? && value.value in ledger.later)
  }

  ghost predicate LedgerInv(s: State, k: Key) {
    forall dir | dir in s.disk.history :: Honest(s.disk, dir, k, LedgerOf(s, k))
  }

  ghost predicate WriterInv(s: State, k: Key)
    requires k in s.writers
  {
    var Writer(value, before, stage) := s.writers[k];
    && value in LedgerOf(s, k).later
    && (stage.Opened? || stage.Written? || stage.Synced? ==>
        Temp(k) in Current(s.disk) && Current(s.disk)[Temp(k)] == stage.inode && stage.inode in s.disk.content)
    && (stage.Written? || stage.Synced? ==> s.disk.content[stage.inode] == value)
    && (stage.Synced? ==> stage.inode in s.disk.synced)
    && (if stage.Renamed? || (stage.Done? && stage.renamed) then Visible(s.disk, k) == Some(value)
        else Visible(s.disk, k) == before)
    && (stage.Done? && stage.ok ==>
        stage.renamed && forall dir | dir in s.disk.history :: Holds(s.disk, dir, k, value))
  }

  ghost predicate Holds(d: Disk, dir: Directory, k: Key, value: Content) {
    Final(k) in dir && dir[Final(k)] in d.content && d.content[dir[Final(k)]] == value
  }

  ghost predicate Inv(s: State) {
    DiskInv(s.disk) && (forall k :: LedgerInv(s, k)) && (forall k | k in s.writers :: WriterInv(s, k))
  }

  // How the disk changes

  /** The two directories lead from the key to the same value, or both to none. */
  ghost predicate Agree(d: Disk, dir: Directory, d': Disk, dir': Directory, k: Key) {
    && (Final(k) in dir <==> Final(k) in dir')
    && (Final(k) in dir ==>
        dir[Final(k)] in d.content && dir'[Final(k)] in d'.content
        && d.content[dir[Final(k)]] == d'.content[dir'[Final(k)]])
  }

  /** As far as key k goes, d' shows and may bring back no more than d did. */
  ghost predicate Follows(d: Disk, d': Disk, k: Key) {
    && (forall dir' | dir' in d'.history :: exists dir :: dir in d.history && Agree(d, dir, d', dir', k))
    && Agree(d, Current(d), d', Current(d'), k)
  }

  lemma FollowsKeepsLedger(s: State, t: State, k: Key)
    requires LedgerInv(s, k) && Follows(s.disk, t.disk, k) && LedgerOf(t, k) == LedgerOf(s, k)
    ensures LedgerInv(t, k) && Visible(t.disk, k) == Visible(s.disk, k)
  {
    forall dir' | dir' in t.disk.history ensures Honest(t.disk, dir', k, LedgerOf(t, k)) {
      var dir :| dir in s.disk.history && Agree(s.disk, dir, t.disk, dir', k);
      assert Honest(s.disk, dir, k, LedgerOf(s, k));
    }
  }

  lemma FollowsKeepsHolds(d: Disk, d': Disk, k: Key, value: Content)
    requires Follows(d, d', k) && forall dir | dir in d.history :: Holds(d, dir, k, value)
    ensures forall dir | dir in d'.history :: Holds(d', dir, k, value)
  {
    forall dir' | dir' in d'.history ensures Holds(d', dir', k, value) {
      var dir :| dir in d.history && Agree(d, dir, d', dir', k);
      assert Holds(d, dir, k, value);
    }
  }

  /** The temporary file of every key but k is where it was, with the same content. */
  ghost predicate TempsKept(d: Disk, d': Disk, k: Key) {
    forall j | j != k && Temp(j) in Current(d) ::
      && Temp(j) in Current(d') && Current(d')[Temp(j)] == Current(d)[Temp(j)]
      && (Current(d)[Temp(j)] in d.content ==>
          Current(d)[Temp(j)] in d'.content && d'.content[Current(d)[Temp(j)]] == d.content[Current(d)[Temp(j)]])
      && (Current(d)[Temp(j)] in d.synced ==> Current(d)[Temp(j)] in d'.synced)
  }

  lemma SameHistoryFollows(d: Disk, d': Disk)
    requires d.history != [] && d'.history == d.history
    requires forall dir, j | dir in d.history :: Agree(d, dir, d', dir, j)
    ensures forall j :: Follows(d, d', j)
  {
    assert Current(d) in d.history;
  }

  /** A temporary file is rewritten in place. */
  lemma RewriteTemp(d: Disk, k: Key, data: Content) returns (d': Disk)
    requires DiskInv(d) && Temp(k) in Current(d)
    ensures var f := Current(d)[Temp(k)]; d' == d.(content := d.content[f := data], synced := d.synced - {f})
    ensures DiskInv(d') && TempsKept(d, d', k) && forall j :: Follows(d, d', j)
  {
    var f := Current(d)[Temp(k)];
    d' := d.(content := d.content[f := data], synced := d.synced - {f});
    assert Sound(d, Current(d));
    forall dir | dir in d'.history ensures Sound(d', dir) && forall j :: Agree(d, dir, d', dir, j) {
      assert Sound(d, dir);
    }
    SameHistoryFollows(d, d');
  }

  /** The current directory gains an entry for a new file. */
  lemma AddTemp(d: Disk, k: Key, f: Inode) returns (d': Disk)
    requires DiskInv(d) && Temp(k) !in Current(d) && f !in d.content
    ensures var e := Extend(d, Current(d)[Temp(k) := f]);
            d' == e.(content := e.content[f := ""], synced := e.synced - {f})
    ensures DiskInv(d') && TempsKept(d, d', k) && forall j :: Follows(d, d', j)
  {
    var next := Current(d)[Temp(k) := f];
    d' := Extend(d, next).(content := d.content[f := ""], synced := d.synced - {f});
    assert Sound(d, Current(d)) && Current(d) in d.history;
    NewFileKeepsOld(d, d', f);
    assert Sound(d', next);
    assert forall dir | dir in d'.history :: dir == next || dir in d.history;
    assert forall j :: Agree(d, Current(d), d', next, j);
  }

  lemma NewFileKeepsOld(d: Disk, d': Disk, f: Inode)
    requires DiskInv(d) && f !in d.content && d'.content == d.content[f := ""] && d'.synced == d.synced - {f}
    ensures forall dir | dir in d.history :: Sound(d', dir) && forall j :: Agree(d, dir, d', dir, j)
  {
    forall dir | dir in d.history ensures Sound(d', dir) && forall j :: Agree(d, dir, d', dir, j) {
      assert Sound(d, dir);
    }
  }

  lemma SyncTemp(d: Disk, f: Inode) returns (d': Disk)
    requires DiskInv(d) && f in d.content
    ensures d' == d.(synced := d.synced + {f}) && DiskInv(d')
    ensures forall j :: Follows(d, d', j) && TempsKept(d, d', j)
  {
    d' := d.(synced := d.synced + {f});
    forall dir | dir in d'.history ensures Sound(d', dir) && forall j :: Agree(d, dir, d', dir, j) {
      assert Sound(d, dir);
    }
    SameHistoryFollows(d, d');
  }

  /** The rename: for every other key nothing happens. */
  lemma RenameTemp(d: Disk, k: Key) returns (d': Disk)
    requires DiskInv(d) && Temp(k) in Current(d) && Current(d)[Temp(k)] in d.synced
    ensures var f := Current(d)[Temp(k)]; d' == Extend(d, (Current(d) - {Temp(k)})[Final(k) := f])
    ensures DiskInv(d') && forall j | j != k :: Follows(d, d', j)
  {
    var cur := Current(d);
    var f := cur[Temp(k)];
    var next := (cur - {Temp(k)})[Final(k) := f];
    d' := Extend(d, next);
    assert Sound(d, cur);
    forall dir | dir in d.history ensures Sound(d', dir) && forall j :: Agree(d, dir, d', dir, j) {
      assert Sound(d, dir);
    }
    assert forall j | j != k :: Agree(d, cur, d', next, j);
    assert forall n | n in next && n.Temp? :: n in cur && next[n] == cur[n] && next[n] != f;
  }

  lemma DropTemp(d: Disk, k: Key) returns (d': Disk)
    requires DiskInv(d)
    ensures d' == Extend(d, Current(d) - {Temp(k)}) && DiskInv(d') && forall j :: Follows(d, d', j)
  {
    var next := Current(d) - {Temp(k)};
    d' := Extend(d, next);
    assert Sound(d, Current(d));
    forall dir | dir in d.history ensures Sound(d', dir) && forall j :: Agree(d, dir, d', dir, j) {
      assert Sound(d, dir);
    }
    assert forall j :: Agree(d, Current(d), d', next, j);
  }

  lemma ForgetHistory(d: Disk) returns (d': Disk)
    requires DiskInv(d)
    ensures d' == d.(history := [Current(d)]) && DiskInv(d') && forall j :: Follows(d, d', j)
  {
    d' := d.(history := [Current(d)]);
    assert Sound(d, Current(d)) && Current(d) in d.history;
    assert Sound(d', Current(d));
    assert forall j :: Agree(d, Current(d), d', Current(d), j);
  }

  // Every step keeps the invariant

  /** A step of writer k is invisible to every other key. */
  lemma OthersKeepInv(s: State, t: State, k: Key, j: Key)
    requires Inv(s) && j != k && Follows(s.disk, t.disk, j) && TempsKept(s.disk, t.disk, k)
    requires LedgerOf(t, j) == LedgerOf(s, j) && (j in t.writers <==> j in s.writers)
    requires j in s.writers ==> t.writers[j] == s.writers[j]
    ensures LedgerInv(t, j) && (j in t.writers ==> WriterInv(t, j))
  {
    FollowsKeepsLedger(s, t, j);
    if j in s.writers {
      assert WriterInv(s, j);
      if s.writers[j].stage.Done? && s.writers[j].stage.ok {
        FollowsKeepsHolds(s.disk, t.disk, j, s.writers[j].value);
      }
    }
  }

  lemma StepKeepsInv(s: State, step: Step)
    requires Inv(s) && Enabled(s, step)
    ensures Inv(Apply(s, step))
  {
    match step {
      case Begin(k, _) => BeginKeepsInv(s, step, k);
      case OpenTemp(k, _, _) => OpenKeepsInv(s, step, k);
      case WriteData(k, _, _) => WriteKeepsInv(s, step, k);
      case SyncFile(k, _) => SyncFileKeepsInv(s, step, k);
      case Rename(k, _) => RenameKeepsInv(s, step, k);
      case RemoveTemp(k, _) => RemoveKeepsInv(s, step, k);
      case SyncDirectory(k, _) => SyncDirectoryKeepsInv(s, step, k);
      case Return(k) => ReturnKeepsInv(s, step, k);
      case Crash(_, _) => CrashKeepsInv(s, step);
    }
  }

  lemma SameDiskFollows(d: Disk)
    requires DiskInv(d)
    ensures forall k :: Follows(d, d, k)
  {
    forall k, dir | dir in d.history ensures Agree(d, dir, d, dir, k) {
      assert Sound(d, dir);
    }
    SameHistoryFollows(d, d);
  }

  lemma BeginKeepsInv(s: State, step: Step, k: Key)
    requires Inv(s) && Enabled(s, step) && step.Begin? && step.key == k
    ensures Inv(Apply(s, step))
  {
    var t := Apply(s, step);
    SameDiskFollows(s.disk);
    forall j | j != k ensures LedgerInv(t, j) && (j in t.writers ==> WriterInv(t, j)) {
      OthersKeepInv(s, t, k, j);
    }
    assert LedgerInv(s, k);
    forall dir | dir in t.disk.history ensures Honest(t.disk, dir, k, LedgerOf(t, k)) {
      assert Honest(s.disk, dir, k, LedgerOf(s, k));
    }
  }

  lemma OpenKeepsInv(s: State, step: Step, k: Key)
    requires Inv(s) && Enabled(s, step) && step.OpenTemp? && step.key == k
    ensures Inv(Apply(s, step))
  {
    hide Follows, TempsKept, Honest, Holds, TempsApart, Sound;
    var t := Apply(s, step);
    assert WriterInv(s, k);
    if !step.ok {
      SameDiskFollows(s.disk);
    } else if Temp(k) in Current(s.disk) {
      var _ := RewriteTemp(s.disk, k, "");
    } else {
      var _ := AddTemp(s.disk, k, step.newFile);
    }
    forall j | j != k ensures LedgerInv(t, j) && (j in t.writers ==> WriterInv(t, j)) {
      OthersKeepInv(s, t, k, j);
    }
    FollowsKeepsLedger(s, t, k);
  }

  lemma WriteKeepsInv(s: State, step: Step, k: Key)
    requires Inv(s) && Enabled(s, step) && step.WriteData? && step.key == k
    ensures Inv(Apply(s, step))
  {
    hide Follows, TempsKept, Honest, Holds, TempsApart, Sound;
    var t := Apply(s, step);
    assert WriterInv(s, k);
    var value := s.writers[k].value;
    var _ := RewriteTemp(s.disk, k, value[..step.n]);
    assert value[..|value|] == value;
    forall j | j != k ensures LedgerInv(t, j) && (j in t.writers ==> WriterInv(t, j)) {
      OthersKeepInv(s, t, k, j);
    }
    FollowsKeepsLedger(s, t, k);
  }

  lemma SyncFileKeepsInv(s: State, step: Step, k: Key)
    requires Inv(s) && Enabled(s, step) && step.SyncFile? && step.key == k
    ensures Inv(Apply(s, step))
  {
    hide Follows, TempsKept, Honest, Holds, TempsApart, Sound;
    var t := Apply(s, step);
    assert WriterInv(s, k);
    if step.ok {
      var _ := SyncTemp(s.disk, s.writers[k].stage.inode);
    } else {
      SameDiskFollows(s.disk);
    }
    forall j | j != k ensures LedgerInv(t, j) && (j in t.writers ==> WriterInv(t, j)) {
      OthersKeepInv(s, t, k, j);
    }
    FollowsKeepsLedger(s, t, k);
  }

  lemma RenameKeepsInv(s: State, step: Step, k: Key)
    requires Inv(s) && Enabled(s, step) && step.Rename? && step.key == k
    ensures Inv(Apply(s, step))
  {
    var t := Apply(s, step);
    assert WriterInv(s, k) && LedgerInv(s, k);
    if step.ok {
      var _ := RenameTemp(s.disk, k);
      forall dir | dir in t.disk.history ensures Honest(t.disk, dir, k, LedgerOf(t, k)) {
        if dir in s.disk.history {
          assert Honest(s.disk, dir, k, LedgerOf(s, k));
        }
      }
    } else {
      SameDiskFollows(s.disk);
      FollowsKeepsLedger(s, t, k);
    }
    forall j | j != k ensures LedgerInv(t, j) && (j in t.writers ==> WriterInv(t, j)) {
      OthersKeepInv(s, t, k, j);
    }
  }

  lemma RemoveKeepsInv(s: State, step: Step, k: Key)
    requires Inv(s) && Enabled(s, step) && step.RemoveTemp? && step.key == k
    ensures Inv(Apply(s, step))
  {
    var t := Apply(s, step);
    assert WriterInv(s, k);
    if step.ok {
      var _ := DropTemp(s.disk, k);
    } else {
      SameDiskFollows(s.disk);
    }
    forall j | j != k ensures LedgerInv(t, j) && (j in t.writers ==> WriterInv(t, j)) {
      OthersKeepInv(s, t, k, j);
    }
    FollowsKeepsLedger(s, t, k);
  }

  lemma SyncDirectoryKeepsInv(s: State, step: Step, k: Key)
    requires Inv(s) && Enabled(s, step) && step.SyncDirectory? && step.key == k
    ensures Inv(Apply(s, step))
  {
    hide WriterInv, LedgerInv, DiskInv, Follows, TempsKept;
    var t := Apply(s, step);
    SyncedDirectory(s, step, k);
    forall j | j != k ensures LedgerInv(t, j) && (j in t.writers ==> WriterInv(t, j)) {
      OthersKeepInv(s, t, k, j);
    }
    FollowsKeepsLedger(s, t, k);
  }

  /** The directory that is left is the current one. */
  lemma SyncedDirectory(s: State, step: Step, k: Key)
    requires DiskInv(s.disk) && Enabled(s, step) && step.SyncDirectory? && step.key == k && WriterInv(s, k)
    ensures var t := Apply(s, step);
            && DiskInv(t.disk) && (forall j :: Follows(s.disk, t.disk, j) && TempsKept(s.disk, t.disk, j))
            && k in t.writers && WriterInv(t, k)
  {
    hide Sound, TempsApart;
    if step.ok {
      var _ := ForgetHistory(s.disk);
      assert Holds(Apply(s, step).disk, Current(s.disk), k, s.writers[k].value);
    } else {
      SameDiskFollows(s.disk);
    }
  }

  lemma ReturnKeepsInv(s: State, step: Step, k: Key)
    requires Inv(s) && Enabled(s, step) && step.Return? && step.key == k
    ensures Inv(Apply(s, step))
  {
    var t := Apply(s, step);
    assert WriterInv(s, k) && LedgerInv(s, k);
    SameDiskFollows(s.disk);
    forall j | j != k ensures LedgerInv(t, j) && (j in t.writers ==> WriterInv(t, j)) {
      OthersKeepInv(s, t, k, j);
    }
    forall dir | dir in t.disk.history ensures Honest(t.disk, dir, k, LedgerOf(t, k)) {
      assert Honest(s.disk, dir, k, LedgerOf(s, k));
      assert s.writers[k].stage.ok ==> Holds(s.disk, dir, k, s.writers[k].value);
    }
  }

  lemma CrashKeepsInv(s: State, step: Step)
    requires Inv(s) && Enabled(s, step) && step.Crash?
    ensures Inv(Apply(s, step))
  {
    var t := Apply(s, step);
    var dir := s.disk.history[step.survivor];
    assert dir in s.disk.history && Sound(s.disk, dir);
    forall n | n in dir && n.Final? ensures t.disk.content[dir[n]] == s.disk.content[dir[n]] {
      assert dir[n] in s.disk.synced;
    }
    assert Sound(t.disk, dir);
    forall k ensures LedgerInv(t, k) {
      assert LedgerInv(s, k) && Honest(s.disk, dir, k, LedgerOf(s, k));
      assert Honest(t.disk, dir, k, LedgerOf(t, k));
    }
  }

  lemma {:induction false} RunKeepsInv(states: seq<State>, steps: seq<Step>, i: nat)
    requires Run(states, steps) && i < |states|
    ensures Inv(states[i])
  {
    if i > 0 {
      hide Inv, Enabled, Apply;
      RunKeepsInv(states, steps, i - 1);
      StepKeepsInv(states[i - 1], steps[i - 1]);
    }
  }

  // Main results, for every run: any writes, failures, interleavings and crashes

  /**
   After a crash at any point the key file is absent, which it can be only if no write has ever returned true, or
   holds in full the value of the last write that returned true or of one attempted since.
   */
  lemma RecoveredValueIsComplete(states: seq<State>, steps: seq<Step>, i: nat, k: Key)
    requires Run(states, steps) && i < |steps| && steps[i].Crash?
    ensures var ledger := LedgerOf(states[i], k);
            match Visible(states[i + 1].disk, k)
            case None => ledger.committed.None?
            case Some(value) => ledger.committed == Some(value) || value in ledger.later
  {
    RunKeepsInv(states, steps, i);
    RunKeepsInv(states, steps, i + 1);
    assert LedgerInv(states[i + 1], k);
    var dir := Current(states[i + 1].disk);
    assert dir in states[i + 1].disk.history && Honest(states[i + 1].disk, dir, k, LedgerOf(states[i + 1], k));
  }

  /** A write that returns true has made its value visible and crash-proof; after false the old or new one shows. */
  lemma ReturnedWrite(states: seq<State>, steps: seq<Step>, i: nat, k: Key)
    requires Run(states, steps) && i < |steps| && steps[i] == Return(k)
    ensures var s := states[i];
            && k in s.writers && s.writers[k].stage.Done?
            && if s.writers[k].stage.ok then
                 Visible(s.disk, k) == Some(s.writers[k].value)
                 && forall dir | dir in s.disk.history :: Holds(s.disk, dir, k, s.writers[k].value)
               else Visible(s.disk, k) in {s.writers[k].before, Some(s.writers[k].value)}
  {
    RunKeepsInv(states, steps, i);
  }

  /** A writer's steps never change what is visible under another key, and a crash brings back nothing else for it. */
  lemma WritersAreSeparate(states: seq<State>, steps: seq<Step>, i: nat, k: Key)
    requires Run(states, steps) && i < |steps| && ByOther(steps[i], k)
    ensures Visible(states[i + 1].disk, k) == Visible(states[i].disk, k)
    ensures LedgerOf(states[i + 1], k) == LedgerOf(states[i], k)
    ensures Follows(states[i].disk, states[i + 1].disk, k)
  {
    RunKeepsInv(states, steps, i);
    StepFollows(states[i], steps[i], k);
    FollowsKeepsLedger(states[i], states[i + 1], k);
  }

  predicate ByOther(step: Step, k: Key) { !step.Crash? && step.key != k }

  lemma StepFollows(s: State, step: Step, k: Key)
    requires Inv(s) && Enabled(s, step) && ByOther(step, k)
    ensures Follows(s.disk, Apply(s, step).disk, k) && LedgerOf(Apply(s, step), k) == LedgerOf(s, k)
  {
    SameDiskFollows(s.disk);
    assert step.key in s.writers ==> WriterInv(s, step.key);
    match step {
      case OpenTemp(j, true, newFile) =>
        if Temp(j) in Current(s.disk) {
          var _ := RewriteTemp(s.disk, j, "");
        } else {
          var _ := AddTemp(s.disk, j, newFile);
        }
      case WriteData(j, n, _) => var _ := RewriteTemp(s.disk, j, s.writers[j].value[..n]);
      case SyncFile(j, true) => var _ := SyncTemp(s.disk, s.writers[j].stage.inode);
      case Rename(j, true) => var _ := RenameTemp(s.disk, j);
      case RemoveTemp(j, true) => var _ := DropTemp(s.disk, j);
      case SyncDirectory(j, true) => var _ := ForgetHistory(s.disk);
      case _ =>
    }
  }

  // The method

  /** A process writing to the disk, between two crashes; states and trace record the run. */
  class Process {
    var state: State
    ghost var states: seq<State>
    ghost var trace: seq<Step>

    ghost predicate Valid()
      reads this
    {
      Run(states, trace) && states[|trace|] == state
    }

    constructor ()
      ensures Valid() && state == INITIAL
    {
      state, states, trace := INITIAL, [INITIAL], [];
    }

    /** What key k's own writer can rely on while others run. */
    twostate predicate Undisturbed(k: Key)
      reads this
    {
      && (k in old(state).writers <==> k in state.writers)
      && (k in state.writers ==> state.writers[k] == old(state).writers[k])
      && LedgerOf(state, k) == LedgerOf(old(state), k)
      && Visible(state.disk, k) == Visible(old(state).disk, k)
      && old(trace) <= trace
    }

    method Do(step: Step)
      requires Valid() && Enabled(state, step)
      modifies this
      ensures Valid() && state == Apply(old(state), step)
      ensures trace == old(trace) + [step] && states == old(states) + [state]
    {
      state := Apply(state, step);
      states, trace := states + [state], trace + [step];
    }

    /** Writers of other keys take any number of steps. */
    method Others(k: Key)
      requires Valid()
      modifies this
      ensures Valid() && Undisturbed(k)
    {
      hide Run, Enabled, LedgerOf, Visible;
      var plan: seq<Step> := *;
      for i := 0 to |plan|
        invariant Valid() && Undisturbed(k)
      {
        if ByOther(plan[i], k) && Enabled(state, plan[i]) {
          OtherStep(k, plan[i]);
        }
      }
    }

    method OtherStep(k: Key, step: Step)
      requires Valid() && Enabled(state, step) && ByOther(step, k)
      modifies this
      ensures Valid() && Undisturbed(k)
    {
      hide Inv;
      Do(step);
      assert states[|trace| - 1] == old(state);
      WritersAreSeparate(states, trace, |trace| - 1, k);
    }

    /** The write of key k is still the same one, further on. */
    twostate predicate Continues(k: Key)
      reads this
    {
      && k in old(state).writers && k in state.writers
      && state.writers[k].value == old(state).writers[k].value
      && state.writers[k].before == old(state).writers[k].before
      && LedgerOf(state, k) == LedgerOf(old(state), k)
      && old(trace) <= trace
    }

    /** open, write and close; every call may fail and the write may be short. */
    method WriteTempFile(k: Key) returns (ok: bool)
      requires Valid() && At(state, k, Begun)
      modifies this
      ensures Valid() && Continues(k)
      ensures if ok then state.writers[k].stage.Written? else state.writers[k].stage == Done(false, false)
    {
      hide Run;
      var newFile: int, isOpen: bool := *, *;
      Others(k);
      isOpen := isOpen && newFile >= 0 && newFile !in state.disk.content;
      Do(OpenTemp(k, isOpen, if newFile >= 0 then newFile else 0));
      if !isOpen {
        return false;
      }
      Others(k);
      var n: int := *;
      ok := *;
      var size := |state.writers[k].value|;
      Do(WriteData(k, if ok || n < 0 || n > size then size else n, ok));
    }

    method SyncTempFile(k: Key) returns (ok: bool)
      requires Valid() && k in state.writers && state.writers[k].stage.Written?
      modifies this
      ensures Valid() && Continues(k)
      ensures if ok then state.writers[k].stage.Synced? else state.writers[k].stage.Cleaning?
    {
      hide Run;
      Others(k);
      ok := *;
      Do(SyncFile(k, ok));
    }

    method AtomicRename(k: Key) returns (ok: bool)
      requires Valid() && k in state.writers && state.writers[k].stage.Synced?
      modifies this
      ensures Valid() && Continues(k)
      ensures if ok then state.writers[k].stage.Renamed? else state.writers[k].stage.Cleaning?
    {
      hide Run;
      Others(k);
      ok := *;
      Do(Rename(k, ok));
    }

    method SyncStoreDirectory(k: Key) returns (ok: bool)
      requires Valid() && At(state, k, Renamed)
      modifies this
      ensures Valid() && Continues(k) && At(state, k, Done(ok, true))
    {
      hide Run;
      Others(k);
      ok := *;
      Do(SyncDirectory(k, ok));
    }

    method RemoveTempFile(k: Key)
      requires Valid() && At(state, k, Cleaning)
      modifies this
      ensures Valid() && Continues(k) && At(state, k, Done(false, false))
    {
      hide Run;
      Others(k);
      var removed: bool := *;
      Do(RemoveTemp(k, removed));
    }

    /** The steps of AtomicWriter::write with its early exits and its cleanup. */
    method RunStages(k: Key) returns (ok: bool)
      requires Valid() && At(state, k, Begun)
      modifies this
      ensures Valid() && Continues(k) && state.writers[k].stage.Done? && state.writers[k].stage.ok == ok
    {
      hide Run, LedgerOf;
      ok := WriteTempFile(k);
      if !ok {
        return false;
      }
      ok := SyncTempFile(k);
      if !ok {
        RemoveTempFile(k);
        return false;
      }
      ok := AtomicRename(k);
      if !ok {
        RemoveTempFile(k);
        return false;
      }
      ok := SyncStoreDirectory(k);
    }

    /** The write of one key, whatever the others do in between. */
    method Write(k: Key, data: Content) returns (ok: bool)
      requires Valid() && k !in state.writers
      modifies this
      ensures Valid() && k !in state.writers && old(trace) <= trace
      ensures ok ==> LedgerOf(state, k) == Ledger(Some(data), {}) && Visible(state.disk, k) == Some(data)
      ensures !ok ==>
        var ledger := LedgerOf(old(state), k);
        && LedgerOf(state, k) == ledger.(later := ledger.later + {data})
        && Visible(state.disk, k) in {Visible(old(state).disk, k), Some(data)}
    {
      hide Run, Visible;
      Do(Begin(k, data));
      ok := RunStages(k);
      Others(k);
      ReturnedNow(k);
      Do(Return(k));
    }

    lemma ReturnedNow(k: Key)
      requires Valid() && Enabled(state, Return(k))
      ensures var w := state.writers[k];
              if w.stage.ok then Visible(state.disk, k) == Some(w.value)
              else Visible(state.disk, k) in {w.before, Some(w.value)}
      ensures Visible(Apply(state, Return(k)).disk, k) == Visible(state.disk, k)
    {
      RunKeepsInv(states, trace, |trace|);
      assert WriterInv(state, k);
    }
  }
}
