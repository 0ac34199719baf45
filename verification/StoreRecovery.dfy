/**
 Store saves across a loss of power: the key/value map of Store on the disk of AtomicWriter.  Lock files, which no
 reader looks at, and removals, which are not made durable, are left out.
 */
module StoreRecovery {
  import opened AtomicWriter
  import opened Shared
  import Store

  // What a disk shows

  function Lookup(m: map<Key, Content>, k: Key): Option<Content> { if k in m then Some(m[k]) else None }

  /** In this directory the key leads to a file with this value, or to none. */
  predicate ShowsAt(d: Disk, dir: Directory, k: Key, value: Option<Content>) {
    if Final(k) in dir then dir[Final(k)] in d.content && value == Some(d.content[dir[Final(k)]]) else value.None?
  }

  /** In this directory the keys of m, and no others, lead to files with their values. */
  ghost predicate DirectoryShows(d: Disk, dir: Directory, m: map<Key, Content>) {
    forall k :: ShowsAt(d, dir, k, Lookup(m, k))
  }

  /** So it is whatever a crash brings back. */
  ghost predicate Shows(d: Disk, m: map<Key, Content>) {
    forall dir | dir in d.history :: DirectoryShows(d, dir, m)
  }

  function PathOf(paths: Store.PathResolver, name: Name): Store.Path {
    match name
    case Final(k) => paths.KeyPath(k)
    case Temp(k) => paths.TempPath(k)
  }

  lemma PathsDiffer(paths: Store.PathResolver, n: Name, n': Name)
    ensures PathOf(paths, n) == PathOf(paths, n') ==> n == n'
  {
    hide Store.PathResolver.KeyPath, Store.PathResolver.TempPath, Store.PathResolver.LockPath;
    paths.NamesAreDistinct(n.key, n'.key);
    paths.NamesAreDistinct(n'.key, n.key);
  }

  lemma AllPathsDiffer(paths: Store.PathResolver)
    ensures forall n, n' :: PathOf(paths, n) == PathOf(paths, n') ==> n == n'
  {
    forall n, n' ensures PathOf(paths, n) == PathOf(paths, n') ==> n == n' {
      PathsDiffer(paths, n, n');
    }
  }

  /** The content behind a name of the current directory. */
  function Behind(d: Disk, n: Name): Option<Content> {
    if n in Current(d) && Current(d)[n] in d.content then Some(d.content[Current(d)[n]]) else None
  }

  /** The files of the store directory. */
  ghost function FilesOf(paths: Store.PathResolver, d: Disk): map<Store.Path, Content> {
    Files(paths, map n | n in Current(d) && Behind(d, n).Some? :: Behind(d, n).value)
  }

  ghost function Files(paths: Store.PathResolver, named: map<Name, Content>): map<Store.Path, Content> {
    AllPathsDiffer(paths);
    map n | n in named :: PathOf(paths, n) := named[n]
  }

  lemma FileAt(paths: Store.PathResolver, d: Disk, n: Name)
    ensures PathOf(paths, n) in FilesOf(paths, d) <==> Behind(d, n).Some?
    ensures Behind(d, n).Some? ==> FilesOf(paths, d)[PathOf(paths, n)] == Behind(d, n).value
  {
    hide PathOf;
    AllPathsDiffer(paths);
  }

  lemma NameOf(paths: Store.PathResolver, d: Disk, path: Store.Path) returns (n: Name)
    requires path in FilesOf(paths, d)
    ensures path == PathOf(paths, n)
  {
    hide PathOf;
    var named := map n | n in Current(d) && Behind(d, n).Some? :: Behind(d, n).value;
    n :| n in named && PathOf(paths, n) == path;
  }

  predicate FlatKeys(m: map<Key, Content>) { forall k | k in m :: '/' !in k }

  lemma FilesHoldWhatIsShown(paths: Store.PathResolver, d: Disk, m: map<Key, Content>)
    requires DirectoryShows(d, Current(d), m) && FlatKeys(m)
    ensures Store.FilesHold(paths, FilesOf(paths, d), m)
  {
    hide Store.PathResolver.KeyPath, FilesOf;
    forall k ensures
        && (paths.KeyPath(k) in FilesOf(paths, d) <==> k in m)
        && (k in m ==> FilesOf(paths, d)[paths.KeyPath(k)] == m[k])
    {
      FileAt(paths, d, Final(k));
      assert ShowsAt(d, Current(d), k, Lookup(m, k));
    }
  }

  // One save

  ghost predicate Goes(states: seq<State>, steps: seq<Step>) {
    && |states| == |steps| + 1
    && forall i | 0 <= i < |steps| :: Enabled(states[i], steps[i]) && states[i + 1] == Apply(states[i], steps[i])
  }

  /** Nothing is being written, and what is on the disk counts as committed. */
  function AtRest(d: Disk, m: map<Key, Content>): State {
    State(d, map[], map k | k in m :: Ledger(Some(m[k]), {}))
  }

  /** A write of value under k, as far as it gets, with a crash at the end or none. */
  ghost predicate Saves(states: seq<State>, steps: seq<Step>, m: map<Key, Content>, k: Key, value: Content) {
    && Goes(states, steps) && states[0] == AtRest(states[0].disk, m)
    && |steps| > 0 && steps[0] == Begin(k, value)
    && forall i | 0 < i < |steps| :: if steps[i].Crash? then i == |steps| - 1 else OfWriter(steps[i], k)
  }

  /** A step of k's writer after its first. */
  predicate OfWriter(step: Step, k: Key) { !step.Crash? && !step.Begin? && step.key == k }

  lemma AtRestInv(d: Disk, m: map<Key, Content>)
    requires DiskInv(d) && Shows(d, m)
    ensures Inv(AtRest(d, m))
  {
    forall k ensures LedgerInv(AtRest(d, m), k) {
      forall dir | dir in d.history ensures Honest(d, dir, k, LedgerOf(AtRest(d, m), k)) {
        assert DirectoryShows(d, dir, m);
        assert ShowsAt(d, dir, k, Lookup(m, k));
      }
    }
  }

  /** The ledgers during a save: the other keys are settled, and k may have either value, or the new one. */
  ghost predicate Books(s: State, m: map<Key, Content>, k: Key, value: Content) {
    && (forall j | j != k :: LedgerOf(s, j) == Ledger(Lookup(m, j), {}))
    && LedgerOf(s, k) in {Ledger(Lookup(m, k), {value}), Ledger(Some(value), {})}
    && (forall j | j in s.writers :: j == k && s.writers[k].value == value)
  }

  lemma BooksBegin(s: State, m: map<Key, Content>, k: Key, value: Content)
    requires s == AtRest(s.disk, m) && Enabled(s, Begin(k, value))
    ensures Books(Apply(s, Begin(k, value)), m, k, value)
  {
    assert LedgerOf(s, k) == Ledger(Lookup(m, k), {});
    assert {} + {value} == {value};
  }

  lemma BooksStep(s: State, step: Step, m: map<Key, Content>, k: Key, value: Content)
    requires Books(s, m, k, value) && Enabled(s, step) && (step.Crash? || OfWriter(step, k))
    ensures Books(Apply(s, step), m, k, value)
  {
  }

  lemma {:induction false} BooksAreKept(
      states: seq<State>, steps: seq<Step>, m: map<Key, Content>, k: Key, value: Content, i: nat)
    requires Saves(states, steps, m, k, value) && DiskInv(states[0].disk) && Shows(states[0].disk, m)
    requires 0 < i < |states|
    ensures Inv(states[i]) && Books(states[i], m, k, value)
  {
    hide Inv, Books, Apply, Enabled, DiskInv, Shows;
    if i == 1 {
      AtRestInv(states[0].disk, m);
      StepKeepsInv(states[0], steps[0]);
      BooksBegin(states[0], m, k, value);
    } else {
      BooksAreKept(states, steps, m, k, value, i - 1);
      StepKeepsInv(states[i - 1], steps[i - 1]);
      BooksStep(states[i - 1], steps[i - 1], m, k, value);
    }
  }

  /** A directory shows, for each key, what the books allow. */
  lemma BooksAllow(s: State, m: map<Key, Content>, k: Key, value: Content, dir: Directory, j: Key)
    requires Inv(s) && Books(s, m, k, value) && dir in s.disk.history
    ensures j != k ==> ShowsAt(s.disk, dir, j, Lookup(m, j))
    ensures ShowsAt(s.disk, dir, k, Lookup(m, k)) || ShowsAt(s.disk, dir, k, Some(value))
    ensures LedgerOf(s, k) == Ledger(Some(value), {}) ==> ShowsAt(s.disk, dir, k, Some(value))
  {
    assert LedgerInv(s, j) && LedgerInv(s, k);
    assert Honest(s.disk, dir, j, LedgerOf(s, j)) && Honest(s.disk, dir, k, LedgerOf(s, k));
  }

  /** So it shows one of the two maps, the new one after the write has returned true. */
  lemma BooksShow(s: State, m: map<Key, Content>, k: Key, value: Content, dir: Directory)
    requires Inv(s) && Books(s, m, k, value) && dir in s.disk.history
    ensures DirectoryShows(s.disk, dir, m) || DirectoryShows(s.disk, dir, m[k := value])
    ensures LedgerOf(s, k) == Ledger(Some(value), {}) ==> DirectoryShows(s.disk, dir, m[k := value])
  {
    hide Inv, Books, ShowsAt, LedgerOf;
    forall j ensures j != k ==> ShowsAt(s.disk, dir, j, Lookup(m, j)) {
      BooksAllow(s, m, k, value, dir, j);
    }
    BooksAllow(s, m, k, value, dir, k);
    var after := m[k := value];
    if ShowsAt(s.disk, dir, k, Some(value)) {
      forall j ensures ShowsAt(s.disk, dir, j, Lookup(after, j)) {
        assert j != k ==> ShowsAt(s.disk, dir, j, Lookup(m, j));
      }
    }
  }

  // Main results

  /** The last step of a save that returns true. */
  ghost predicate Returns(states: seq<State>, steps: seq<Step>, k: Key) {
    && |steps| > 1 && |states| == |steps| + 1
    && steps[|steps| - 1] == Return(k) && At(states[|steps| - 1], k, Done(true, true))
  }

  /** At every point of a save, and after a crash there, the store holds the old map or the map with the key set. */
  lemma SaveIsAtomic(
      states: seq<State>, steps: seq<Step>, m: map<Key, Content>, k: Key, value: Content, paths: Store.PathResolver)
    requires Saves(states, steps, m, k, value) && DiskInv(states[0].disk) && Shows(states[0].disk, m)
    requires FlatKeys(m) && '/' !in k
    ensures var d, after := states[|steps|].disk, m[k := value];
            && (forall dir | dir in d.history :: DirectoryShows(d, dir, m) || DirectoryShows(d, dir, after))
            && (|| Store.FilesHold(paths, FilesOf(paths, d), m)
                || Store.FilesHold(paths, FilesOf(paths, d), after))
  {
    hide DirectoryShows, FilesOf, Store.FilesHold, Books;
    var s := states[|steps|];
    BooksAreKept(states, steps, m, k, value, |steps|);
    forall dir | dir in s.disk.history
      ensures DirectoryShows(s.disk, dir, m) || DirectoryShows(s.disk, dir, m[k := value])
    {
      BooksShow(s, m, k, value, dir);
    }
    assert Current(s.disk) in s.disk.history;
    if DirectoryShows(s.disk, Current(s.disk), m) {
      FilesHoldWhatIsShown(paths, s.disk, m);
    } else {
      FilesHoldWhatIsShown(paths, s.disk, m[k := value]);
    }
  }

  /** After a crash the recovered store is at rest again with one of the two maps, so saves and crashes can follow. */
  lemma CrashRecovers(states: seq<State>, steps: seq<Step>, m: map<Key, Content>, k: Key, value: Content)
    requires Saves(states, steps, m, k, value) && DiskInv(states[0].disk) && Shows(states[0].disk, m)
    requires steps[|steps| - 1].Crash?
    ensures var s := states[|steps|];
            DiskInv(s.disk) && s.writers == map[] && (Shows(s.disk, m) || Shows(s.disk, m[k := value]))
  {
    hide DirectoryShows, Books;
    var n := |steps| - 1;
    BooksAreKept(states, steps, m, k, value, n + 1);
    assert states[n + 1] == Apply(states[n], steps[n]);
    var dir := Current(states[n + 1].disk);
    assert states[n + 1].disk.history == [dir];
    BooksShow(states[n + 1], m, k, value, dir);
  }

  /** A save that returns true leaves the map with the key set, now and after any crash. */
  lemma SavedIsDurable(states: seq<State>, steps: seq<Step>, m: map<Key, Content>, k: Key, value: Content)
    requires Saves(states, steps, m, k, value) && DiskInv(states[0].disk) && Shows(states[0].disk, m)
    requires Returns(states, steps, k)
    ensures DiskInv(states[|steps|].disk) && Shows(states[|steps|].disk, m[k := value])
  {
    hide DirectoryShows;
    var n := |steps| - 1;
    assert n > 0;
    BooksAreKept(states, steps, m, k, value, n);
    BooksAreKept(states, steps, m, k, value, n + 1);
    assert states[n + 1] == Apply(states[n], steps[n]);
    assert LedgerOf(states[n + 1], k) == Ledger(Some(value), {});
    var s, after := states[n + 1], m[k := value];
    forall dir | dir in s.disk.history ensures DirectoryShows(s.disk, dir, after) {
      BooksShow(s, m, k, value, dir);
    }
  }

  // The write of the crash model is the one that Store uses

  /** Under every other name there is what there was. */
  ghost predicate RestKept(d: Disk, d': Disk, k: Key) {
    forall n | n != Final(k) && n != Temp(k) :: Behind(d', n) == Behind(d, n)
  }

  lemma StepKeepsRest(s: State, step: Step, k: Key, n: Name)
    requires Inv(s) && Enabled(s, step) && OfWriter(step, k) && n != Final(k) && n != Temp(k)
    ensures Behind(Apply(s, step).disk, n) == Behind(s.disk, n)
  {
    hide TempsApart;
    assert WriterInv(s, k);
    assert Sound(s.disk, Current(s.disk));
  }

  /** Once renamed, the temporary name is gone. */
  predicate TempIsGone(s: State, k: Key) {
    k in s.writers && (s.writers[k].stage.Renamed? || (s.writers[k].stage.Done? && s.writers[k].stage.renamed)) ==>
      Temp(k) !in Current(s.disk)
  }

  lemma TempStaysGone(s: State, step: Step, k: Key)
    requires Enabled(s, step) && TempIsGone(s, k) && OfWriter(step, k)
    ensures TempIsGone(Apply(s, step), k)
  {
  }

  lemma {:induction false} RestDuringSave(
      states: seq<State>, steps: seq<Step>, m: map<Key, Content>, k: Key, value: Content, i: nat)
    requires Saves(states, steps, m, k, value) && DiskInv(states[0].disk) && Shows(states[0].disk, m)
    requires 0 < i < |states| && !steps[i - 1].Crash?
    ensures RestKept(states[0].disk, states[i].disk, k) && TempIsGone(states[i], k)
  {
    hide Behind, Inv, DiskInv, Shows, Books;
    if i > 1 {
      hide TempIsGone, Apply, Enabled;
      BooksAreKept(states, steps, m, k, value, i - 1);
      RestDuringSave(states, steps, m, k, value, i - 1);
      forall n | n != Final(k) && n != Temp(k) ensures Behind(states[i].disk, n) == Behind(states[0].disk, n) {
        StepKeepsRest(states[i - 1], steps[i - 1], k, n);
      }
      TempStaysGone(states[i - 1], steps[i - 1], k);
    }
  }

  /** A save that returns true leaves exactly the files that Store's AtomicWrite leaves. */
  lemma SavedAsInStore(
      states: seq<State>, steps: seq<Step>, m: map<Key, Content>, k: Key, value: Content, paths: Store.PathResolver)
    requires Saves(states, steps, m, k, value) && DiskInv(states[0].disk) && Shows(states[0].disk, m)
    requires Returns(states, steps, k)
    ensures FilesOf(paths, states[|steps|].disk)
         == (FilesOf(paths, states[0].disk) - {paths.TempPath(k)})[paths.KeyPath(k) := value]
  {
    hide Books, Shows, DiskInv, Inv, FilesOf, RestKept, Store.PathResolver.KeyPath, Store.PathResolver.TempPath;
    var n := |steps| - 1;
    assert states[n + 1] == Apply(states[n], steps[n]);
    BooksAreKept(states, steps, m, k, value, n);
    RestDuringSave(states, steps, m, k, value, n);
    WriterShows(states[n], m, k, value);
    SameFiles(paths, states[0].disk, states[n].disk, k, value);
  }

  lemma WriterShows(s: State, m: map<Key, Content>, k: Key, value: Content)
    requires Inv(s) && Books(s, m, k, value) && At(s, k, Done(true, true))
    ensures Visible(s.disk, k) == Some(value)
  {
    assert WriterInv(s, k);
  }

  lemma SameFiles(paths: Store.PathResolver, d: Disk, d': Disk, k: Key, value: Content)
    requires RestKept(d, d', k) && Temp(k) !in Current(d') && Visible(d', k) == Some(value)
    ensures FilesOf(paths, d') == (FilesOf(paths, d) - {paths.TempPath(k)})[paths.KeyPath(k) := value]
  {
    var files, want := FilesOf(paths, d'), (FilesOf(paths, d) - {paths.TempPath(k)})[paths.KeyPath(k) := value];
    forall path | path in files || path in want
      ensures path in files && path in want && files[path] == want[path]
    {
      SameFile(paths, d, d', k, value, path);
    }
  }

  lemma SameFile(paths: Store.PathResolver, d: Disk, d': Disk, k: Key, value: Content, path: Store.Path)
    requires RestKept(d, d', k) && Temp(k) !in Current(d') && Visible(d', k) == Some(value)
    requires path in FilesOf(paths, d') || path in FilesOf(paths, d) || path == paths.KeyPath(k)
    ensures path == paths.KeyPath(k) ==> path in FilesOf(paths, d') && FilesOf(paths, d')[path] == value
    ensures path == paths.TempPath(k) && path != paths.KeyPath(k) ==> path !in FilesOf(paths, d')
    ensures path != paths.KeyPath(k) && path != paths.TempPath(k) ==>
      && (path in FilesOf(paths, d') <==> path in FilesOf(paths, d))
      && (path in FilesOf(paths, d) ==> FilesOf(paths, d')[path] == FilesOf(paths, d)[path])
  {
    hide Store.PathResolver.KeyPath, Store.PathResolver.TempPath, FilesOf;
    var n := Final(k);
    if path in FilesOf(paths, d') {
      n := NameOf(paths, d', path);
    } else if path in FilesOf(paths, d) {
      n := NameOf(paths, d, path);
    }
    FileAt(paths, d, n);
    FileAt(paths, d', n);
    FileAt(paths, d', Final(k));
    FileAt(paths, d', Temp(k));
    PathsDiffer(paths, n, Final(k));
    PathsDiffer(paths, n, Temp(k));
  }
}
