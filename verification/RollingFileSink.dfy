/**
 The rotation scheme of src/log/log_rolling_file_sink.cpp, started on an empty directory, with file operations that
 succeed.  The directory is a map from names to contents and is listed in any order.
 */
module RollingFileSink {
  import opened Numerals

  // File names

  const EXTENSION := ".log"

  /** The first place where the pattern occurs, or -1. */
  function Find(s: string, pattern: string): (at: int)
    ensures -1 <= at <= |s|
    ensures at >= 0 ==> at + |pattern| <= |s| && s[at..at + |pattern|] == pattern
  {
    if |s| < |pattern| then -1
    else if s[..|pattern|] == pattern then 0
    else if |s| == 0 then -1
    else
      var at := Find(s[1..], pattern);
      if at < 0 then -1 else at + 1
  }

  predicate OccursAt(s: string, pattern: string, at: nat) {
    at + |pattern| <= |s| && s[at..at + |pattern|] == pattern
  }

  lemma {:induction false} FindIs(s: string, pattern: string, at: nat)
    requires OccursAt(s, pattern, at) && forall i: nat | i < at :: !OccursAt(s, pattern, i)
    ensures Find(s, pattern) == at
  {
    if at > 0 {
      assert !OccursAt(s, pattern, 0);
      assert s[1..][at - 1..at - 1 + |pattern|] == s[at..at + |pattern|];
      forall i: nat | i < at - 1 ensures !OccursAt(s[1..], pattern, i) {
        assert !OccursAt(s, pattern, i + 1);
        assert i + |pattern| <= |s[1..]| ==> s[1..][i..i + |pattern|] == s[i + 1..i + 1 + |pattern|];
      }
      FindIs(s[1..], pattern, at - 1);
    }
  }

  function FileName(service: string, index: nat): string { service + "_" + Decimal(index) + EXTENSION }

  /** The test that both directory loops make. */
  predicate IsLogName(service: string, name: string) {
    service + "_" <= name && Find(name, EXTENSION) != -1
  }

  ghost predicate PlainService(service: string) { forall i: nat :: !OccursAt(service, EXTENSION, i) }

  /** The index of a file is read back from its name, for every index. */
  lemma NameRoundTrip(service: string, index: nat)
    requires PlainService(service)
    ensures var name := FileName(service, index);
            && IsLogName(service, name)
            && Find(name, EXTENSION) == |service| + 1 + |Decimal(index)|
            && name[|service| + 1..Find(name, EXTENSION)] == Decimal(index)
            && ParseDecimal(Decimal(index)) == index
  {
    var name := FileName(service, index);
    var at := |service| + 1 + |Decimal(index)|;
    assert OccursAt(name, EXTENSION, at);
    forall i: nat | i < at ensures !OccursAt(name, EXTENSION, i) {
      if i + 4 <= |service| {
        assert name[i..i + 4] == service[i..i + 4];
        assert !OccursAt(service, EXTENSION, i);
      } else if i < |service| {
        assert name[|service|] == '_' && name[i..i + 4][|service| - i] == name[|service|];
      } else {
        assert name[i] == '_' || '0' <= name[i] <= '9' by {
          assert i > |service| ==> name[i] == Decimal(index)[i - |service| - 1];
        }
        assert name[i..i + 4][0] == name[i];
      }
    }
    FindIs(name, EXTENSION, at);
    ParseOfDecimal(index);
  }

  /** For instance. */
  lemma NameByExample()
    ensures FileName("svc", 0) == "svc_0.log" && FileName("svc", 12) == "svc_12.log"
  {
    assert Decimal(12) == Decimal(1) + "2";
  }

  lemma NamesDiffer(service: string, i: nat, j: nat)
    requires PlainService(service) && FileName(service, i) == FileName(service, j)
    ensures i == j
  {
    NameRoundTrip(service, i);
    NameRoundTrip(service, j);
  }

  // What the files hold

  /** The bytes of lines written one after the other. */
  function Render(lines: seq<string>): string {
    if lines == [] then "" else Render(lines[..|lines| - 1]) + lines[|lines| - 1] + "\n"
  }

  function Flatten(chunks: seq<seq<string>>): seq<string> {
    if chunks == [] then [] else Flatten(chunks[..|chunks| - 1]) + chunks[|chunks| - 1]
  }

  lemma {:induction false} FlattenTail(chunks: seq<seq<string>>)
    requires chunks != []
    ensures Flatten(chunks) == chunks[0] + Flatten(chunks[1..])
  {
    if |chunks| > 1 {
      FlattenTail(chunks[..|chunks| - 1]);
      assert chunks[..|chunks| - 1][1..] == chunks[1..][..|chunks| - 2];
    } else {
      assert chunks[..0] == [];
    }
  }

  /** A file that was rotated away from: it reached the limit with its last line and not before. */
  predicate Full(lines: seq<string>, limit: nat) {
    && lines != [] && |Render(lines)| >= limit
    && (|lines| > 1 ==> |Render(lines[..|lines| - 1])| < limit)
  }

  function TotalSize(chunks: seq<seq<string>>): nat {
    if chunks == [] then 0 else TotalSize(chunks[..|chunks| - 1]) + |Render(chunks[|chunks| - 1])|
  }

  predicate LinesWithin(lines: seq<string>, longest: nat) { forall i | 0 <= i < |lines| :: |lines[i]| < longest }

  /** A full or current file exceeds a positive limit by less than one line, its newline included. */
  lemma FileSizeBound(lines: seq<string>, limit: nat, longest: nat)
    requires LinesWithin(lines, longest)
    requires Full(lines, limit) || lines == [] || |Render(lines)| < limit
    ensures |Render(lines)| <= limit + longest
    ensures limit > 0 ==> |Render(lines)| < limit + longest
  {
    if Full(lines, limit) && |lines| == 1 {
      assert lines[..0] == [];
    }
  }

  /** At limit zero, which is accepted, a full file is a single line and exceeds the limit by just that. */
  lemma FullExceedsByLessThanALine(lines: seq<string>, limit: nat)
    requires Full(lines, limit)
    ensures |Render(lines)| < limit + |lines[|lines| - 1]| + 1 <==> limit > 0
  {
    if |lines| == 1 {
      assert lines[..0] == [];
    }
  }

  lemma {:induction false} TotalSizeBound(chunks: seq<seq<string>>, limit: nat, longest: nat)
    requires forall j | 0 <= j < |chunks| :: LinesWithin(chunks[j], longest)
    requires forall j | 0 <= j < |chunks| :: Full(chunks[j], limit) || chunks[j] == [] || |Render(chunks[j])| < limit
    ensures TotalSize(chunks) <= |chunks| * (limit + longest)
  {
    hide Render, Full, LinesWithin;
    if chunks != [] {
      var n := |chunks| - 1;
      TotalSizeBound(chunks[..n], limit, longest);
      FileSizeBound(chunks[n], limit, longest);
      assert (n + 1) * (limit + longest) == n * (limit + longest) + (limit + longest);
    }
  }

  const MIB := 1024 * 1024

  /** What LogConfigAdapter::validate accepts; no number of files is too small. */
  predicate AcceptedConfig(maxFileSizeMb: nat, maxFiles: nat, totalBudgetMb: nat) {
    maxFileSizeMb * maxFiles <= totalBudgetMb
  }

  /** The directory holds the files from index oldest on, one a chunk, and nothing else. */
  ghost predicate Covers(service: string, directory: map<string, string>, oldest: nat, chunks: seq<seq<string>>) {
    && PlainService(service) && |directory| == |chunks|
    && (forall j | 0 <= j < |chunks| :: Holds(service, directory, oldest + j, chunks[j]))
    && (forall name | name in directory :: Indexed(service, name, oldest, oldest + |chunks|))
  }

  ghost predicate Holds(service: string, directory: map<string, string>, index: nat, lines: seq<string>) {
    FileName(service, index) in directory && directory[FileName(service, index)] == Render(lines)
  }

  ghost predicate Indexed(service: string, name: string, from: nat, to: nat) {
    exists i: nat :: from <= i < to && name == FileName(service, i)
  }

  lemma CoverAppend(
      service: string, directory: map<string, string>, oldest: nat, chunks: seq<seq<string>>, line: string)
    requires Covers(service, directory, oldest, chunks) && chunks != []
    ensures var n := |chunks| - 1;
            var name := FileName(service, oldest + n);
            && name in directory && directory[name] == Render(chunks[n])
            && Covers(
                 service, directory[name := directory[name] + line + "\n"], oldest, chunks[..n] + [chunks[n] + [line]])
  {
    hide FileName;
    var n := |chunks| - 1;
    var name := FileName(service, oldest + n);
    assert Holds(service, directory, oldest + n, chunks[n]);
    var after, last := directory[name := directory[name] + line + "\n"], chunks[n] + [line];
    assert last[..|last| - 1] == chunks[n];
    assert after.Keys == directory.Keys;
    forall j | 0 <= j < |chunks|
      ensures Holds(service, after, oldest + j, (chunks[..n] + [last])[j])
    {
      assert Holds(service, directory, oldest + j, chunks[j]);
      if j < n && FileName(service, oldest + j) == name {
        NamesDiffer(service, oldest + j, oldest + n);
      }
    }
  }

  lemma CoverDrop(service: string, directory: map<string, string>, oldest: nat, chunks: seq<seq<string>>)
    requires Covers(service, directory, oldest, chunks) && chunks != []
    ensures FileName(service, oldest) in directory
    ensures Covers(service, directory - {FileName(service, oldest)}, oldest + 1, chunks[1..])
  {
    hide FileName, Render;
    var name := FileName(service, oldest);
    assert Holds(service, directory, oldest + 0, chunks[0]);
    var after := directory - {name};
    assert directory.Keys == after.Keys + {name};
    forall j | 0 <= j < |chunks| - 1 ensures Holds(service, after, oldest + 1 + j, chunks[1..][j]) {
      assert Holds(service, directory, oldest + (j + 1), chunks[j + 1]);
      if FileName(service, oldest + (j + 1)) == name {
        NamesDiffer(service, oldest + (j + 1), oldest);
      }
    }
    forall n | n in after ensures Indexed(service, n, oldest + 1, oldest + |chunks|) {
      assert Indexed(service, n, oldest, oldest + |chunks|);
    }
  }

  lemma CoverAdd(service: string, directory: map<string, string>, oldest: nat, chunks: seq<seq<string>>)
    requires Covers(service, directory, oldest, chunks)
    ensures var name := FileName(service, oldest + |chunks|);
            name !in directory && Covers(service, directory[name := ""], oldest, chunks + [[]])
  {
    hide FileName, Render, PlainService, Holds, Indexed;
    NextIsFree(service, directory, oldest, chunks);
    RenderNothing();
    AddKeepsFiles(service, directory, oldest, chunks);
    AddKeepsNames(service, directory, oldest, chunks);
    OneMore(directory, FileName(service, oldest + |chunks|), "");
  }

  lemma OneMore(directory: map<string, string>, name: string, content: string)
    requires name !in directory
    ensures |directory[name := content]| == |directory| + 1
  {
    assert directory[name := content].Keys == directory.Keys + {name};
  }

  lemma AddKeepsFiles(service: string, directory: map<string, string>, oldest: nat, chunks: seq<seq<string>>)
    requires Covers(service, directory, oldest, chunks)
    requires FileName(service, oldest + |chunks|) !in directory && Render([]) == ""
    ensures forall j | 0 <= j < |chunks + [[]]| ::
      Holds(service, directory[FileName(service, oldest + |chunks|) := ""], oldest + j, (chunks + [[]])[j])
  {
    hide FileName, Render, PlainService, Indexed;
    forall j | 0 <= j <= |chunks|
      ensures Holds(service, directory[FileName(service, oldest + |chunks|) := ""], oldest + j, (chunks + [[]])[j])
    {
      if j < |chunks| {
        assert Holds(service, directory, oldest + j, chunks[j]);
      }
    }
  }

  lemma AddKeepsNames(service: string, directory: map<string, string>, oldest: nat, chunks: seq<seq<string>>)
    requires Covers(service, directory, oldest, chunks)
    ensures forall name | name in directory || name == FileName(service, oldest + |chunks|) ::
      Indexed(service, name, oldest, oldest + |chunks| + 1)
  {
    hide FileName, Render, PlainService, Holds;
    var next: nat := oldest + |chunks|;
    assert Indexed(service, FileName(service, next), oldest, next + 1);
    forall name | name in directory ensures Indexed(service, name, oldest, oldest + |chunks| + 1) {
      assert Indexed(service, name, oldest, oldest + |chunks|);
    }
  }

  lemma NextIsFree(service: string, directory: map<string, string>, oldest: nat, chunks: seq<seq<string>>)
    requires Covers(service, directory, oldest, chunks)
    ensures FileName(service, oldest + |chunks|) !in directory
  {
    hide FileName, Render;
    var next := oldest + |chunks|;
    if FileName(service, next) in directory {
      assert Indexed(service, FileName(service, next), oldest, next);
      var i: nat :| oldest <= i < next && FileName(service, next) == FileName(service, i);
      NamesDiffer(service, next, i);
    }
  }

  lemma NowFull(lines: seq<string>, line: string, limit: nat)
    requires lines == [] || |Render(lines)| < limit
    requires |Render(lines + [line])| >= limit
    ensures Full(lines + [line], limit)
  {
    assert (lines + [line])[..|lines|] == lines;
  }

  // The sink

  /** A line goes to the last file. */
  function Appended(chunks: seq<seq<string>>, line: string): seq<seq<string>>
    requires chunks != []
  {
    chunks[..|chunks| - 1] + [chunks[|chunks| - 1] + [line]]
  }

  lemma RenderSnoc(lines: seq<string>, line: string)
    ensures Render(lines + [line]) == Render(lines) + line + "\n"
  {
    assert (lines + [line])[..|lines|] == lines;
  }

  lemma FlattenSnoc(chunks: seq<seq<string>>, last: seq<string>)
    ensures Flatten(chunks + [last]) == Flatten(chunks) + last
  {
    assert (chunks + [last])[..|chunks|] == chunks;
  }

  lemma AppendedLine(chunks: seq<seq<string>>, line: string)
    requires chunks != []
    ensures Flatten(Appended(chunks, line)) == Flatten(chunks) + [line]
    ensures Render(chunks[|chunks| - 1] + [line]) == Render(chunks[|chunks| - 1]) + line + "\n"
  {
    hide Flatten, Render;
    var front, last := chunks[..|chunks| - 1], chunks[|chunks| - 1];
    RenderSnoc(last, line);
    FlattenSnoc(front, last + [line]);
    Regroup(Flatten(front), last, [line]);
    assert Flatten(chunks) == Flatten(front) + last by { FlattenLast(chunks); }
  }

  lemma FlattenLast(chunks: seq<seq<string>>)
    requires chunks != []
    ensures Flatten(chunks) == Flatten(chunks[..|chunks| - 1]) + chunks[|chunks| - 1]
  {
  }

  lemma Regroup(a: seq<string>, b: seq<string>, c: seq<string>)
    ensures a + (b + c) == a + b + c
  {
  }

  /** A last file at the limit is followed by an empty one, and the first is given up if there are enough. */
  function Rotated(chunks: seq<seq<string>>, limit: nat, maxFiles: nat): seq<seq<string>>
    requires chunks != []
  {
    if |Render(chunks[|chunks| - 1])| < limit then chunks
    else (if |chunks| >= maxFiles then chunks[1..] else chunks) + [[]]
  }

  class Sink {
    const service: string
    const maxFileSizeMb: nat
    const maxFiles: nat
    var directory: map<string, string>
    var currentPath: string
    var currentSize: nat
    var currentIndex: nat
    /** Every line written; the lines no longer on disk; the lines in each file from index oldest on. */
    ghost var all: seq<string>
    ghost var lost: seq<string>
    ghost var oldest: nat
    ghost var chunks: seq<seq<string>>

    function Limit(): nat { maxFileSizeMb * MIB }

    /** There is always a current file, even with a maximum of none. */
    function Allowed(): nat { if maxFiles == 0 then 1 else maxFiles }

    /** The files are oldest .. currentIndex, each holding whole lines, together a suffix of all lines. */
    ghost predicate Window()
      reads this
    {
      && Covers(service, directory, oldest, chunks)
      && |chunks| <= Allowed() && oldest + |chunks| == currentIndex + 1
      && all == lost + Flatten(chunks)
    }

    /** Every file but the current one has reached the limit, with its last line. */
    ghost predicate AllFull(files: int)
      requires files <= |chunks|
      reads this
    {
      forall j | 0 <= j < files :: Full(chunks[j], Limit())
    }

    /** Nothing has been given up before there were as many files as allowed. */
    ghost predicate Kept()
      reads this
    {
      (oldest == 0 ==> lost == []) && (oldest > 0 ==> |chunks| == Allowed())
    }

    ghost predicate Valid()
      reads this
    {
      && Window() && Kept() && |chunks| >= 1
      && currentPath == FileName(service, currentIndex)
      && currentSize == |Render(chunks[|chunks| - 1])|
      && AllFull(|chunks| - 1)
      && (chunks[|chunks| - 1] == [] || currentSize < Limit())
    }

    constructor (service: string, maxFileSizeMb: nat, maxFiles: nat)
      requires PlainService(service)
      ensures Valid() && all == [] && chunks == [[]]
      ensures this.service == service && this.maxFileSizeMb == maxFileSizeMb && this.maxFiles == maxFiles
    {
      this.service, this.maxFileSizeMb, this.maxFiles := service, maxFileSizeMb, maxFiles;
      directory, currentIndex, currentPath, currentSize := map[], 0, "", 0;
      all, lost, oldest, chunks := [], [], 0, [[]];
      new;
      OpenNewFile();
      assert chunks[..0] == [];
    }

    /** Opens the file of the current index for appending and takes its size. */
    method OpenNewFile()
      modifies `directory, `currentPath, `currentSize
      ensures currentPath == FileName(service, currentIndex)
      ensures directory == if currentPath in old(directory) then old(directory) else old(directory)[currentPath := ""]
      ensures currentSize == |directory[currentPath]|
    {
      currentPath := FileName(service, currentIndex);
      if currentPath !in directory {
        directory := directory[currentPath := ""];
      }
      currentSize := |directory[currentPath]|;
    }

    method Write(line: string) returns (ok: bool)
      requires Valid()
      modifies this
      ensures Valid() && ok && all == old(all) + [line]
      ensures |old(chunks)| >= 1
      ensures chunks == Rotated(Appended(old(chunks), line), maxFileSizeMb * 1048576, maxFiles)
    {
      var output := line + "\n";
      AppendToCurrent(output, line);
      RotateIfNeeded();
      ok := true;
    }

    /** fwrite on the current file. */
    method AppendToCurrent(output: string, ghost line: string)
      requires Valid() && output == line + "\n"
      modifies `directory, `currentSize, `all, `chunks
      ensures Window() && |old(chunks)| >= 1 && all == old(all) + [line]
      ensures chunks == Appended(old(chunks), line)
      ensures currentSize == |Render(chunks[|chunks| - 1])| && AllFull(|chunks| - 1)
      ensures currentSize < Limit() || Full(chunks[|chunks| - 1], Limit())
    {
      hide Full, Covers, FileName, Render, Flatten;
      ghost var n := |chunks| - 1;
      CoverAppend(service, directory, oldest, chunks, line);
      AppendedLine(chunks, line);
      assert directory[currentPath] + output == directory[currentPath] + line + "\n";
      directory := directory[currentPath := directory[currentPath] + output];
      currentSize := currentSize + |output|;
      all := all + [line];
      if currentSize >= Limit() {
        if chunks[n] == [] {
          RenderNothing();
        }
        NowFull(chunks[n], line, Limit());
      }
      chunks := Appended(chunks, line);
    }

    method RotateIfNeeded()
      requires Window() && Kept() && |chunks| >= 1 && currentPath == FileName(service, currentIndex)
      requires currentSize == |Render(chunks[|chunks| - 1])| && AllFull(|chunks| - 1)
      requires currentSize < Limit() || Full(chunks[|chunks| - 1], Limit())
      modifies this
      ensures Valid() && all == old(all) && chunks == Rotated(old(chunks), maxFileSizeMb * 1048576, maxFiles)
    {
      hide Full, Covers, FileName, Flatten;
      if currentSize < Limit() {
        return;
      }
      assert AllFull(|chunks|);
      var fileCount := CountFiles();
      if fileCount >= maxFiles {
        RemoveOldestFile();
      }
      currentIndex := currentIndex + 1;
      CoverAdd(service, directory, oldest, chunks);
      OpenNewFile();
      FlattenEmpty(chunks);
      chunks := chunks + [[]];
      RenderNothing();
    }

    /** readdir: every entry once, in any order. */
    method Listing() returns (names: seq<string>)
      ensures |names| == |directory|
      ensures forall name :: name in names <==> name in directory
    {
      names := [];
      var rest := directory.Keys;
      while rest != {}
        invariant rest <= directory.Keys && |names| + |rest| == |directory|
        invariant forall name :: name in names <==> name in directory && name !in rest
        decreases |rest|
      {
        var name :| name in rest;
        names := names + [name];
        rest := rest - {name};
      }
    }

    method CountFiles() returns (count: nat)
      requires Window()
      ensures count == |chunks|
    {
      hide Find, Decimal, Render, Flatten, FileName;
      var names := Listing();
      count := 0;
      for n := 0 to |names|
        invariant count == n
      {
        assert names[n] in directory;
        assert Indexed(service, names[n], oldest, oldest + |chunks|);
        ghost var i: nat :| names[n] == FileName(service, i);
        NameRoundTrip(service, i);
        if IsLogName(service, names[n]) {
          count := count + 1;
        }
      }
    }

    /** The smallest index among the files, and the removal of its file. */
    method RemoveOldestFile()
      requires Window() && |chunks| >= 1 && AllFull(|chunks|)
      modifies `directory, `lost, `oldest, `chunks
      ensures Window() && chunks == old(chunks)[1..] && AllFull(|chunks|)
      ensures lost == old(lost) + old(chunks)[0] && oldest == old(oldest) + 1
    {
      hide Full, Covers, FileName, Flatten;
      var oldestFile := OldestFile();
      CoverDrop(service, directory, oldest, chunks);
      directory := directory - {oldestFile};
      FlattenTail(chunks);
      assert lost + chunks[0] + Flatten(chunks[1..]) == lost + Flatten(chunks);
      lost := lost + chunks[0];
      chunks := chunks[1..];
      oldest := oldest + 1;
    }

    method OldestFile() returns (oldestFile: string)
      requires Window() && |chunks| >= 1
      ensures oldestFile == FileName(service, oldest)
    {
      hide Find, Decimal, Render, Flatten, FileName, IsLogName;
      var names := Listing();
      var found, minIndex := false, 0;
      oldestFile := "";
      for n := 0 to |names|
        invariant found ==> oldestFile == FileName(service, minIndex) && oldest <= minIndex
        invariant forall m | 0 <= m < n && names[m] == FileName(service, oldest) :: found && minIndex == oldest
      {
        assert names[n] in directory;
        assert Indexed(service, names[n], oldest, oldest + |chunks|);
        ghost var i: nat :| oldest <= i < oldest + |chunks| && names[n] == FileName(service, i);
        NameRoundTrip(service, i);
        if IsLogName(service, names[n]) {
          var index := IndexIn(names[n]);
          NamesDiffer(service, index, i);
          if names[n] == FileName(service, oldest) {
            NamesDiffer(service, index, oldest);
          }
          if !found || index < minIndex {
            found, minIndex, oldestFile := true, index, names[n];
          }
        }
      }
      assert Holds(service, directory, oldest + 0, chunks[0]);
      assert FileName(service, oldest) in names;
    }

    /** The digits between the underscore and the extension. */
    method IndexIn(name: string) returns (index: nat)
      requires PlainService(service) && exists i: nat :: name == FileName(service, i)
      ensures name == FileName(service, index)
    {
      hide Find, Decimal, FileName, IsLogName;
      ghost var i: nat :| name == FileName(service, i);
      NameRoundTrip(service, i);
      var end := Find(name, EXTENSION);
      index := ParseDecimal(name[|service| + 1..end]);
    }
  }

  lemma FlattenEmpty(chunks: seq<seq<string>>)
    ensures Flatten(chunks + [[]]) == Flatten(chunks)
  {
    hide Flatten;
    FlattenSnoc(chunks, []);
  }

  lemma RenderNothing()
    ensures Render([]) == ""
  {
  }

  /** Any run of writes, from an empty directory on. */
  method RunWrites(service: string, maxFileSizeMb: nat, maxFiles: nat, lines: seq<string>) returns (sink: Sink)
    requires PlainService(service)
    ensures fresh(sink) && sink.Valid() && sink.all == lines
    ensures sink.service == service && sink.maxFileSizeMb == maxFileSizeMb && sink.maxFiles == maxFiles
  {
    hide Covers, Flatten, Render, Full, FileName;
    sink := new Sink(service, maxFileSizeMb, maxFiles);
    for i := 0 to |lines|
      invariant fresh(sink) && sink.Valid() && sink.all == lines[..i]
    {
      var _ := sink.Write(lines[i]);
    }
    assert lines[..|lines|] == lines;
  }

  /** If the files that there can be fit the budget, they stay within it, give or take one line a file. */
  lemma WithinBudget(sink: Sink, totalBudgetMb: nat, longest: nat)
    requires sink.Valid() && sink.maxFileSizeMb * sink.Allowed() <= totalBudgetMb
    requires LinesWithin(sink.all, longest)
    ensures |sink.directory| == |sink.chunks| <= sink.Allowed()
    ensures TotalSize(sink.chunks) <= totalBudgetMb * 1048576 + sink.Allowed() * longest
  {
    hide Render, Full, Flatten, Covers;
    var chunks := sink.chunks;
    forall j | 0 <= j < |chunks| ensures LinesWithin(chunks[j], longest) {
      ChunkIsPart(chunks, j, longest, sink.lost, sink.all);
    }
    TotalSizeBound(chunks, sink.Limit(), longest);
    BudgetArithmetic(|chunks|, sink.Allowed(), sink.maxFileSizeMb, totalBudgetMb, longest);
    assert |sink.directory| == |chunks| by { CoversCount(sink); }
  }

  /** For an accepted configuration that is so unless it allows no file and the one there is does not fit. */
  lemma AcceptedFits(sink: Sink, totalBudgetMb: nat)
    requires AcceptedConfig(sink.maxFileSizeMb, sink.maxFiles, totalBudgetMb)
    ensures sink.maxFileSizeMb * sink.Allowed() <= totalBudgetMb <==>
            sink.maxFiles >= 1 || sink.maxFileSizeMb <= totalBudgetMb
  {
  }

  /** And if it is not so, enough empty lines exceed the budget by more than one line. */
  method ExceedBudget(service: string, maxFileSizeMb: nat, totalBudgetMb: nat) returns (sink: Sink)
    requires PlainService(service) && maxFileSizeMb > totalBudgetMb
    ensures AcceptedConfig(maxFileSizeMb, 0, totalBudgetMb)
    ensures fresh(sink) && sink.Valid() && sink.maxFileSizeMb == maxFileSizeMb && sink.maxFiles == 0
    ensures LinesWithin(sink.all, 1) && TotalSize(sink.chunks) > totalBudgetMb * 1048576 + sink.Allowed() * 1
  {
    hide Covers, Full, FileName, Render, Flatten, TotalSize;
    sink := new Sink(service, maxFileSizeMb, 0);
    var n := totalBudgetMb * MIB + 2;
    assert n < maxFileSizeMb * MIB;
    ghost var lines: seq<string> := [];
    RenderNothing();
    for i := 0 to n
      invariant fresh(sink) && sink.Valid() && sink.maxFileSizeMb == maxFileSizeMb && sink.maxFiles == 0
      invariant sink.all == lines && sink.chunks == [lines] && LinesWithin(lines, 1) && |Render(lines)| == i
    {
      RenderSnoc(lines, "");
      var _ := sink.Write("");
      lines := lines + [""];
    }
    OneFileTotal(lines);
  }

  lemma OneFileTotal(lines: seq<string>)
    ensures TotalSize([lines]) == |Render(lines)|
  {
    hide Render;
    assert [lines][..0] == [];
  }

  lemma CoversCount(sink: Sink)
    requires sink.Valid()
    ensures |sink.directory| == |sink.chunks|
  {
  }

  lemma BudgetArithmetic(files: nat, maxFiles: nat, sizeMb: nat, budgetMb: nat, longest: nat)
    requires files <= maxFiles && sizeMb * maxFiles <= budgetMb
    ensures files * (sizeMb * MIB + longest) <= budgetMb * MIB + maxFiles * longest
  {
    assert files * (sizeMb * MIB + longest) <= maxFiles * (sizeMb * MIB + longest);
    assert maxFiles * (sizeMb * MIB) == sizeMb * maxFiles * MIB <= budgetMb * MIB;
    assert maxFiles * (sizeMb * MIB + longest) == maxFiles * (sizeMb * MIB) + maxFiles * longest;
  }

  lemma {:induction false} ChunkIsPart(
      chunks: seq<seq<string>>, j: nat, longest: nat, lost: seq<string>, all: seq<string>)
    requires j < |chunks| && LinesWithin(all, longest) && lost + Flatten(chunks) <= all
    ensures LinesWithin(chunks[j], longest)
  {
    var n := |chunks| - 1;
    var before := lost + Flatten(chunks[..n]);
    assert lost + Flatten(chunks) == before + chunks[n];
    if j < n {
      ChunkIsPart(chunks[..n], j, longest, lost, all);
    } else {
      SliceWithin(before, chunks[n], all, longest);
    }
  }

  lemma SliceWithin(before: seq<string>, lines: seq<string>, all: seq<string>, longest: nat)
    requires LinesWithin(all, longest) && before + lines <= all
    ensures LinesWithin(lines, longest)
  {
    assert forall i | 0 <= i < |lines| :: lines[i] == all[|before| + i];
  }
}
