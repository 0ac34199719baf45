/**
 Dotted-path lookup of src/config/immutable_config_view.cpp over a merged tree.  Dumping a tree to text and loading
 it again is taken to give the same tree back.
 */
module ConfigView {
  import opened ConfigTree
  import opened Shared

  // Splitting a key

  function Piece(part: string): Path { if part == "" then [] else [part] }

  /** The non-empty parts of a key between dots; part is what was read since the last dot. */
  function SplitFrom(part: string, s: string): Path
    decreases |s|
  {
    if s == "" then Piece(part)
    else if s[0] == '.' then Piece(part) + SplitFrom("", s[1..])
    else SplitFrom(part + [s[0]], s[1..])
  }

  function Split(key: string): Path { SplitFrom("", key) }

  lemma {:induction false} SplitFromDot(part: string, p: string, q: string)
    ensures SplitFrom(part, p + "." + q) == SplitFrom(part, p) + Split(q)
    decreases |p|
  {
    if p == "" {
      assert p + "." + q == "." + q;
      assert ("." + q)[1..] == q;
    } else {
      assert (p + "." + q)[0] == p[0] && (p + "." + q)[1..] == p[1..] + "." + q;
      if p[0] == '.' {
        SplitFromDot("", p[1..], q);
      } else {
        SplitFromDot(part + [p[0]], p[1..], q);
      }
    }
  }

  /** The splitter distributes over concatenation with a dot, for all strings. */
  lemma SplitDistributes(p: string, q: string)
    ensures Split(p + "." + q) == Split(p) + Split(q)
  {
    SplitFromDot("", p, q);
  }

  predicate IsPart(part: string) { part != "" && '.' !in part }

  function Join(parts: Path): string {
    if parts == [] then ""
    else if |parts| == 1 then parts[0]
    else Join(parts[..|parts| - 1]) + "." + parts[|parts| - 1]
  }

  lemma {:induction false} SplitPlain(part: string, s: string)
    requires '.' !in s
    ensures SplitFrom(part, s) == Piece(part + s)
    decreases |s|
  {
    if s == "" {
      assert part + s == part;
    } else {
      assert s[0] != '.';
      SplitPlain(part + [s[0]], s[1..]);
      assert part + [s[0]] + s[1..] == part + s;
    }
  }

  /** Splitting undoes joining with dots. */
  lemma {:induction false} SplitJoin(parts: Path)
    requires forall i | 0 <= i < |parts| :: IsPart(parts[i])
    ensures Split(Join(parts)) == parts
  {
    if |parts| >= 1 {
      var n := |parts| - 1;
      assert IsPart(parts[n]);
      SplitPlain("", parts[n]);
      assert "" + parts[n] == parts[n];
      if n > 0 {
        SplitJoin(parts[..n]);
        SplitDistributes(Join(parts[..n]), parts[n]);
      }
    }
  }

  /** Every part is non-empty and free of dots. */
  lemma {:induction false} SplitGivesParts(part: string, s: string)
    requires '.' !in part
    ensures forall p | p in SplitFrom(part, s) :: IsPart(p)
    decreases |s|
  {
    if s != "" {
      if s[0] == '.' {
        SplitGivesParts("", s[1..]);
      } else {
        SplitGivesParts(part + [s[0]], s[1..]);
      }
    }
  }

  // Lookup

  /** None is a node that is not defined; a walk that cannot go on gives a null node. */
  type Reached = Option<Tree>

  function Walk(current: Reached, parts: Path): Reached
    decreases |parts|
  {
    if parts == [] then current
    else
      match current
      case Some(Map(es)) => Walk(Get(es, parts[0]), parts[1..])
      case _ => Some(Null)
  }

  lemma {:induction false} WalkAppend(current: Reached, p: Path, q: Path)
    ensures Walk(current, p + q) == Walk(Walk(current, p), q)
    decreases |p|
  {
    if p == [] {
      assert p + q == q;
    } else {
      assert (p + q)[1..] == p[1..] + q;
      match current {
        case Some(Map(es)) => WalkAppend(Get(es, p[0]), p[1..], q);
        case _ =>
      }
    }
  }

  datatype View = View(root: Tree) {

    function Node(key: string): Reached { Walk(Some(root), Split(key)) }

    predicate Has(key: string) {
      var node := Node(key);
      node.Some? && !node.value.Null?
    }

    function GetString(key: string, default: string): string {
      match Node(key)
      case Some(Scalar(text)) => text
      case _ => default
    }

    function GetSection(key: string): Option<View> {
      match Node(key)
      case Some(Map(es)) => Some(View(Map(es)))
      case _ => None
    }

    /** Looking up in a section is looking up in the parent under the joined key, for every key whatsoever. */
    lemma SectionComposes(p: string, q: string)
      requires GetSection(p).Some?
      ensures GetSection(p).value.Node(q) == Node(p + "." + q)
    {
      SplitDistributes(p, q);
      WalkAppend(Some(root), Split(p), Split(q));
    }

    /** So every getter of the section agrees with the parent's. */
    lemma SectionGettersAgree(p: string, q: string, default: string)
      requires GetSection(p).Some?
      ensures var section := GetSection(p).value;
              && section.Has(q) == Has(p + "." + q)
              && section.GetString(q, default) == GetString(p + "." + q, default)
              && section.GetSection(q) == GetSection(p + "." + q)
    {
      SectionComposes(p, q);
    }
  }

  // What the getters answer

  lemma {:induction false} WalkIsStatus(t: Tree, path: Path)
    ensures match StatusAt(t, path)
            case Absent => Walk(Some(t), path) in {None, Some(Null)}
            case Shadowed => Walk(Some(t), path) == Some(Null)
            case Leaf(v) => Walk(Some(t), path) == Some(v) && !v.Map?
            case Branch => Walk(Some(t), path).Some? && Walk(Some(t), path).value.Map?
    decreases |path|
  {
    if path != [] && t.Map? && Get(t.entries, path[0]).Some? {
      WalkIsStatus(Get(t.entries, path[0]).value, path[1..]);
    } else if path != [] && t.Map? {
      assert Walk(Some(t), path) == Walk(None, path[1..]);
    }
  }

  /** A getter gives the scalar that the tree has at the path, and the default for anything else. */
  lemma GettersReadTheTree(root: Tree, key: string, default: string)
    ensures var view, status := View(root), StatusAt(root, Split(key));
            && (forall text :: status == Leaf(Scalar(text)) ==> view.GetString(key, default) == text)
            && (!(status.Leaf? && status.value.Scalar?) ==> view.GetString(key, default) == default)
            && (view.Has(key) <==> status == Branch || (status.Leaf? && status.value != Null))
            && (view.GetSection(key).Some? <==> status == Branch)
            && (status == Branch ==> view.Node(key) == Some(view.GetSection(key).value.root))
  {
    WalkIsStatus(root, Split(key));
  }

  const EXAMPLE := Map([Entry("a", Map([Entry("b", Scalar("x")), Entry("c", Null)])), Entry("d", Scalar("y"))])

  lemma StatusByExample()
    ensures StatusAt(EXAMPLE, ["a", "b"]) == Leaf(Scalar("x")) && StatusAt(EXAMPLE, ["d"]) == Leaf(Scalar("y"))
    ensures StatusAt(EXAMPLE, ["a"]) == Branch && StatusAt(EXAMPLE, ["a", "c"]) == Leaf(Null)
    ensures StatusAt(EXAMPLE, ["d", "a"]) == Shadowed && StatusAt(EXAMPLE, ["e"]) == Absent
  {
    var a := Map([Entry("b", Scalar("x")), Entry("c", Null)]);
    assert Get(EXAMPLE.entries, "a") == Some(a) && Get(EXAMPLE.entries, "d") == Some(Scalar("y"));
    assert Get(EXAMPLE.entries, "e") == None;
    assert Get(a.entries, "b") == Some(Scalar("x")) && Get(a.entries, "c") == Some(Null);
    hide Get;
    assert forall k, l: string :: [k, l][1..] == [l];
  }

  lemma SplitByExample()
    ensures Split("a.b") == ["a", "b"] && Split("a.c") == ["a", "c"] && Split("d.a") == ["d", "a"]
    ensures Split("a") == ["a"] && Split("d") == ["d"] && Split(".e.") == ["e"]
  {
    forall c: char | c != '.' ensures Split([c]) == [[c]] {
      SplitPlain("", [c]);
      assert "" + [c] == [c];
    }
    SplitDistributes("a", "b");
    SplitDistributes("a", "c");
    SplitDistributes("d", "a");
    SplitDistributes("", "e.");
    SplitDistributes("e", "");
  }

  /** For instance. */
  lemma GettersByExample()
    ensures var view := View(EXAMPLE);
            && view.GetString("a.b", "z") == "x" && view.GetString("d", "z") == "y"
            && view.GetString("a", "z") == view.GetString("a.c", "z") == view.GetString(".e.", "z") == "z"
            && view.Has("a") && view.Has("a.b") && !view.Has("a.c") && !view.Has("d.a") && !view.Has(".e.")
            && view.GetSection("a").Some? && view.GetSection("d").None? && view.GetSection(".e.").None?
  {
    hide Split, StatusAt;
    SplitByExample();
    StatusByExample();
    forall key { GettersReadTheTree(EXAMPLE, key, "z"); }
  }

  // Lookup over layers

  /** A lookup over merged layers gives what the last layer that decides the path has there. */
  lemma LayeredLookup(layers: seq<Tree>, key: string, default: string, i: nat)
    requires AllWellFormed(layers) && Split(key) != [] && i < |layers|
    requires Decides(layers[i], Split(key)) && forall j | i < j < |layers| :: !Decides(layers[j], Split(key))
    ensures var view, status := View(MergeAll(layers)), StatusAt(layers[i], Split(key));
            && (forall text :: status == Leaf(Scalar(text)) ==> view.GetString(key, default) == text)
            && (!(status.Leaf? && status.value.Scalar?) ==> view.GetString(key, default) == default)
            && (view.Has(key) <==> status == Branch || (status.Leaf? && status.value != Null))
            && (view.GetSection(key).Some? <==> status == Branch)
  {
    hide MergeAll, WellFormed, StatusAt;
    LastDecidingLayerWins(layers, Split(key), i);
    GettersReadTheTree(MergeAll(layers), key, default);
  }

  /** And it gives the default if no layer decides the path. */
  lemma UndecidedLookup(layers: seq<Tree>, key: string, default: string)
    requires AllWellFormed(layers) && Split(key) != []
    requires forall j | 0 <= j < |layers| :: !Decides(layers[j], Split(key))
    ensures View(MergeAll(layers)).GetString(key, default) == default
    ensures !View(MergeAll(layers)).Has(key) && View(MergeAll(layers)).GetSection(key).None?
  {
    hide MergeAll, WellFormed, StatusAt;
    UndecidedPathIsEmpty(layers, Split(key));
    GettersReadTheTree(MergeAll(layers), key, default);
  }

  // The loops

  /** getline with a dot as the delimiter, keeping the non-empty parts. */
  method SplitPath(key: string) returns (parts: Path)
    ensures parts == Split(key)
  {
    parts := [];
    var at := 0;
    while at < |key|
      invariant at <= |key|
      invariant parts + Split(key[at..]) == Split(key)
    {
      var start := at;
      while at < |key| && key[at] != '.'
        invariant start <= at <= |key| && '.' !in key[start..at]
      {
        at := at + 1;
      }
      var part := key[start..at];
      PartThenRest(part, key[start..]);
      if part != "" {
        parts := parts + [part];
      }
      if at < |key| {
        assert key[start..][|part| + 1..] == key[at + 1..];
        at := at + 1;
      } else {
        assert key[at..] == "";
      }
    }
  }

  lemma PartThenRest(part: string, s: string)
    requires part <= s && '.' !in part && (|part| < |s| ==> s[|part|] == '.')
    ensures Split(s) == Piece(part) + if |part| < |s| then Split(s[|part| + 1..]) else []
  {
    SplitPlain("", part);
    assert "" + part == part;
    if |part| < |s| {
      assert s == part + "." + s[|part| + 1..];
      SplitDistributes(part, s[|part| + 1..]);
    } else {
      assert s == part;
    }
  }

  method GetNode(root: Tree, key: string) returns (node: Reached)
    ensures node == View(root).Node(key)
  {
    var parts := SplitPath(key);
    var current: Reached := Some(root);
    for i := 0 to |parts|
      invariant Walk(current, parts[i..]) == Walk(Some(root), parts)
    {
      match current {
        case None => return Some(Null);
        case Some(t) =>
          if !t.Map? {
            return Some(Null);
          }
          assert parts[i..][1..] == parts[i + 1..];
          current := Get(t.entries, parts[i]);
      }
    }
    node := current;
  }
}
