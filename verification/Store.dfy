/**
 src/store/store.cpp as a key/value map over the files of one directory, for string values, with the file names of
 src/store/store_path_resolver.cpp and src/store/store_file_lock.cpp.  System calls on the store directory succeed.
 */
module Store {
  import opened Shared

  type Path = string

  // The naming scheme

  datatype PathResolver = PathResolver(serviceName: string, storeRoot: string) {

    /** The root gets a trailing slash unless it is empty or has one. */
    static function Make(serviceName: string, storeRoot: string): (r: Option<PathResolver>)
      ensures r.None? <==> serviceName == ""
      ensures r.Some? ==> storeRoot <= r.value.storeRoot && r.value.serviceName == serviceName
      ensures r.Some? && storeRoot != "" ==> r.value.storeRoot[|r.value.storeRoot| - 1] == '/'
    {
      if serviceName == "" then None
      else
        Some(PathResolver(serviceName,
          if storeRoot != "" && storeRoot[|storeRoot| - 1] != '/' then storeRoot + "/" else storeRoot))
    }

    function StorePath(): Path { storeRoot + serviceName + "/" }

    function KeyPath(key: string): Path { StorePath() + key + ".dat" }

    function TempPath(key: string): Path { KeyPath(key) + ".tmp" }

    function LockPath(key: string): Path { KeyPath(key) + ".lock" }

    /** A file of the store directory itself, not of a directory below it or elsewhere. */
    predicate IsEntry(path: Path) {
      && |path| > |StorePath()| && path[..|StorePath()|] == StorePath()
      && '/' !in path[|StorePath()|..]
    }

    /** Every key without a slash names entries of the store directory. */
    lemma KeysNameEntries(key: string)
      requires '/' !in key
      ensures IsEntry(KeyPath(key)) && IsEntry(TempPath(key)) && IsEntry(LockPath(key))
    {
      var n := |StorePath()|;
      assert KeyPath(key)[n..] == key + ".dat";
      assert TempPath(key)[n..] == key + ".dat" + ".tmp";
      assert LockPath(key)[n..] == key + ".dat" + ".lock";
    }

    /** The data, temporary and lock names of all keys are pairwise distinct. */
    lemma NamesAreDistinct(j: string, k: string)
      ensures KeyPath(j) == KeyPath(k) <==> j == k
      ensures TempPath(j) == TempPath(k) <==> j == k
      ensures LockPath(j) == LockPath(k) <==> j == k
      ensures KeyPath(j) != TempPath(k) && KeyPath(j) != LockPath(k) && TempPath(j) != LockPath(k)
    {
      var n := |StorePath()|;
      assert KeyPath(j)[n..] == j + ".dat" && KeyPath(k)[n..] == k + ".dat";
      assert (j + ".dat")[..|j|] == j && (k + ".dat")[..|k|] == k;
      assert TempPath(j)[..|KeyPath(j)|] == KeyPath(j) && TempPath(k)[..|KeyPath(k)|] == KeyPath(k);
      assert LockPath(j)[..|KeyPath(j)|] == KeyPath(j) && LockPath(k)[..|KeyPath(k)|] == KeyPath(k);
      assert KeyPath(j)[|KeyPath(j)| - 1] == 't';
      assert TempPath(k)[|TempPath(k)| - 1] == 'p' && TempPath(j)[|TempPath(j)| - 1] == 'p';
      assert LockPath(k)[|LockPath(k)| - 1] == 'k';
    }
  }

  /** For instance. */
  lemma PathsByExample()
    ensures var paths := PathResolver.Make("prov", "/var/lib/tbox");
            && paths.Some? && paths.value.StorePath() == "/var/lib/tbox/prov/"
            && paths.value.KeyPath("counter") == "/var/lib/tbox/prov/counter.dat"
            && paths.value.TempPath("counter") == "/var/lib/tbox/prov/counter.dat.tmp"
            && paths.value.LockPath("counter") == "/var/lib/tbox/prov/counter.dat.lock"
  {
  }

  /** Two services under one root have no file in common. */
  lemma ServicesAreSeparate(service: string, service': string, root: string, path: Path)
    requires '/' !in service && '/' !in service'
    requires PathResolver(service, root).StorePath() <= path && PathResolver(service', root).StorePath() <= path
    ensures service == service'
  {
    var n := |root|;
    assert path[n..n + |service|] == service && path[n + |service|] == '/';
    assert path[n..n + |service'|] == service' && path[n + |service'|] == '/';
    assert forall i | n <= i < n + |service| :: path[i] == service[i - n] != '/';
    assert forall i | n <= i < n + |service'| :: path[i] == service'[i - n] != '/';
  }

  datatype Error = PathUnavailable | KeyNotFound

  datatype Result<T> = Ok(value: T) | Err(error: Error)

  // The specification: a finite map

  datatype Op = Save(key: string, value: string) | Load(key: string) | LoadOr(key: string, default: string)
    | Has(key: string) | Remove(key: string)

  datatype Answer = Done | Value(value: string) | Found(found: bool) | Failed(error: Error)

  function MapAfter(m: map<string, string>, op: Op): map<string, string> {
    match op
    case Save(k, v) => m[k := v]
    case Remove(k) => m - {k}
    case _ => m
  }

  function MapAnswer(m: map<string, string>, op: Op): Answer {
    match op
    case Save(_, _) => Done
    case Load(k) => if k in m then Value(m[k]) else Failed(KeyNotFound)
    case LoadOr(k, d) => Value(if k in m then m[k] else d)
    case Has(k) => Found(k in m)
    case Remove(_) => Done
  }

  function MapRun(m: map<string, string>, ops: seq<Op>): (seq<Answer>, map<string, string>) {
    if ops == [] then ([], m)
    else
      var (answers, last) := MapRun(m, ops[..|ops| - 1]);
      (answers + [MapAnswer(last, ops[|ops| - 1])], MapAfter(last, ops[|ops| - 1]))
  }

  predicate KeysAreFlat(ops: seq<Op>) { forall i | 0 <= i < |ops| :: '/' !in ops[i].key }

  /** The data files are those of m; what temporary and lock files there are does not matter. */
  ghost predicate FilesHold(paths: PathResolver, files: map<Path, string>, m: map<string, string>) {
    forall k ::
      && (paths.KeyPath(k) in files <==> k in m)
      && (k in m ==> '/' !in k && files[paths.KeyPath(k)] == m[k])
  }

  // The class

  class StoreImpl {
    const paths: PathResolver
    var files: map<Path, string>
    var held: set<string>
    var ready: bool

    ghost predicate Represents(m: map<string, string>)
      reads this
    {
      held == {} && FilesHold(paths, files, m)
    }

    /** ready says whether the store directory exists or could be made; files are those found in it. */
    constructor (paths: PathResolver, ready: bool, files: map<Path, string>)
      ensures this.paths == paths && this.ready == ready && this.files == files && held == {}
    {
      this.paths, this.files, held, this.ready := paths, files, {}, ready;
    }

    method Acquire(key: string)
      modifies `files, `held
      ensures held == old(held) + {key}
      ensures files == if key in old(held) then old(files) else old(files)[paths.LockPath(key) := ""]
    {
      if key in held {
        return;
      }
      files := files[paths.LockPath(key) := ""];
      held := held + {key};
    }

    method Release(key: string)
      modifies `files, `held
      ensures held == old(held) - {key}
      ensures files == if key in old(held) then old(files) - {paths.LockPath(key)} else old(files)
    {
      if key !in held {
        return;
      }
      held := held - {key};
      files := files - {paths.LockPath(key)};
    }

    /** The atomic writer when every call succeeds. */
    method AtomicWrite(key: string, data: string)
      modifies `files
      ensures files == (old(files) - {paths.TempPath(key)})[paths.KeyPath(key) := data]
    {
      paths.NamesAreDistinct(key, key);
      files := files[paths.TempPath(key) := ""];
      files := files[paths.TempPath(key) := data];
      var moved := files[paths.TempPath(key)];
      files := (files - {paths.TempPath(key)})[paths.KeyPath(key) := moved];
    }

    method Save(key: string, value: string, ghost m: map<string, string>) returns (r: Result<()>)
      requires '/' !in key && Represents(m)
      modifies `files, `held
      ensures if ready then r.Ok? && Represents(m[key := value]) else r == Err(PathUnavailable) && Represents(m)
      ensures ready ==> files == (old(files) - {paths.TempPath(key), paths.LockPath(key)})[paths.KeyPath(key) := value]
    {
      if !ready {
        return Err(PathUnavailable);
      }
      Acquire(key);
      AtomicWrite(key, value);
      Release(key);
      paths.NamesAreDistinct(key, key);
      OnlyTheKey(old(files), paths.KeyPath(key), paths.TempPath(key), paths.LockPath(key), value);
      AddFile(old(files), m, key, value);
      r := Ok(());
    }

    method Load(key: string, ghost m: map<string, string>) returns (r: Result<string>)
      requires '/' !in key && Represents(m)
      ensures r == if !ready then Err(PathUnavailable) else if key in m then Ok(m[key]) else Err(KeyNotFound)
    {
      if !ready {
        return Err(PathUnavailable);
      }
      FileIff(m, key);
      var path := paths.KeyPath(key);
      if path !in files {
        return Err(KeyNotFound);
      }
      r := Ok(files[path]);
    }

    method LoadOr(key: string, default: string, ghost m: map<string, string>) returns (r: Result<string>)
      requires '/' !in key && Represents(m)
      ensures r == if !ready then Err(PathUnavailable) else Ok(if key in m then m[key] else default)
    {
      r := Load(key, m);
      if r == Err(KeyNotFound) {
        r := Ok(default);
      }
    }

    method Has(key: string, ghost m: map<string, string>) returns (found: bool)
      requires '/' !in key && Represents(m)
      ensures found == (ready && key in m)
    {
      if !ready {
        return false;
      }
      FileIff(m, key);
      found := paths.KeyPath(key) in files;
    }

    method Remove(key: string, ghost m: map<string, string>) returns (r: Result<()>)
      requires '/' !in key && Represents(m)
      modifies `files, `held
      ensures if ready then r.Ok? && Represents(m - {key}) else r == Err(PathUnavailable) && Represents(m)
      ensures ready ==> files == old(files) - {paths.KeyPath(key), paths.LockPath(key)}
    {
      if !ready {
        return Err(PathUnavailable);
      }
      Acquire(key);
      files := files - {paths.KeyPath(key)};
      Release(key);
      assert files == old(files) - {paths.KeyPath(key), paths.LockPath(key)};
      DropFile(old(files), m, key);
      r := Ok(());
    }

    lemma OnlyTheKey(before: map<Path, string>, final: Path, temp: Path, lock: Path, value: string)
      requires final != temp && final != lock && temp != lock
      ensures (before[lock := ""] - {temp})[final := value] - {lock} == (before - {temp, lock})[final := value]
    {
    }

    lemma FileIff(m: map<string, string>, key: string)
      requires Represents(m)
      ensures paths.KeyPath(key) in files <==> key in m
      ensures key in m ==> files[paths.KeyPath(key)] == m[key]
    {
    }

    lemma AddFile(before: map<Path, string>, m: map<string, string>, key: string, value: string)
      requires '/' !in key && FilesHold(paths, before, m)
      requires files == (before - {paths.TempPath(key), paths.LockPath(key)})[paths.KeyPath(key) := value]
      ensures FilesHold(paths, files, m[key := value])
    {
      hide PathResolver.KeyPath, PathResolver.TempPath, PathResolver.LockPath;
      forall k ensures
          && (paths.KeyPath(k) in files <==> k in m[key := value])
          && (k in m[key := value] ==> '/' !in k && files[paths.KeyPath(k)] == m[key := value][k])
      {
        paths.NamesAreDistinct(k, key);
      }
    }

    lemma DropFile(before: map<Path, string>, m: map<string, string>, key: string)
      requires FilesHold(paths, before, m)
      requires files == before - {paths.KeyPath(key), paths.LockPath(key)}
      ensures FilesHold(paths, files, m - {key})
    {
      hide PathResolver.KeyPath, PathResolver.LockPath;
      forall k ensures
          && (paths.KeyPath(k) in files <==> k in m - {key})
          && (k in m - {key} ==> '/' !in k && files[paths.KeyPath(k)] == (m - {key})[k])
      {
        paths.NamesAreDistinct(k, key);
      }
    }

    method Perform(op: Op, ghost m: map<string, string>) returns (answer: Answer)
      requires '/' !in op.key && ready && Represents(m)
      modifies `files, `held
      ensures Represents(MapAfter(m, op)) && answer == MapAnswer(m, op)
    {
      match op {
        case Save(k, v) =>
          var r := Save(k, v, m);
          answer := match r { case Ok(_) => Done case Err(e) => Failed(e) };
        case Load(k) =>
          var r := Load(k, m);
          answer := match r { case Ok(v) => Value(v) case Err(e) => Failed(e) };
        case LoadOr(k, d) =>
          var r := LoadOr(k, d, m);
          answer := match r { case Ok(v) => Value(v) case Err(e) => Failed(e) };
        case Has(k) =>
          var found := Has(k, m);
          answer := Found(found);
        case Remove(k) =>
          var r := Remove(k, m);
          answer := match r { case Ok(_) => Done case Err(e) => Failed(e) };
      }
    }

    /** Any sequence of operations is answered as a finite map answers it. */
    method Run(ops: seq<Op>, ghost m: map<string, string>) returns (answers: seq<Answer>)
      requires KeysAreFlat(ops) && ready && Represents(m)
      modifies `files, `held
      ensures answers == MapRun(m, ops).0 && Represents(MapRun(m, ops).1)
    {
      answers := [];
      for i := 0 to |ops|
        invariant answers == MapRun(m, ops[..i]).0 && Represents(MapRun(m, ops[..i]).1)
      {
        assert ops[..i + 1][..i] == ops[..i];
        var answer := Perform(ops[i], MapRun(m, ops[..i]).1);
        answers := answers + [answer];
      }
      assert ops[..|ops|] == ops;
    }
  }

  /** A store over the files found; an empty service name is refused. */
  method OpenStore(serviceName: string, storeRoot: string, ready: bool, files: map<Path, string>)
      returns (store: Option<StoreImpl>)
    ensures store.None? <==> serviceName == ""
    ensures store.Some? ==>
      && fresh(store.value) && store.value.ready == ready
      && PathResolver.Make(serviceName, storeRoot) == Some(store.value.paths)
      && forall m :: FilesHold(store.value.paths, files, m) ==> store.value.Represents(m)
  {
    match PathResolver.Make(serviceName, storeRoot) {
      case None => store := None;
      case Some(paths) =>
        var impl := new StoreImpl(paths, ready, files);
        store := Some(impl);
    }
  }

  // The laws a caller relies on follow for the map

  /** What is loaded is what was last saved and not removed since, and operations on other keys do not matter. */
  lemma {:induction false} OtherKeysDoNotMatter(m: map<string, string>, ops: seq<Op>, key: string)
    requires forall i | 0 <= i < |ops| :: ops[i].key != key
    ensures var after := MapRun(m, ops).1;
            (key in after <==> key in m) && (key in m ==> after[key] == m[key])
  {
    if ops != [] {
      OtherKeysDoNotMatter(m, ops[..|ops| - 1], key);
    }
  }
}
