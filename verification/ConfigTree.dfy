/**
 Configuration trees and their deep merge as values: the specification of src/config/config_merger.cpp.  Maps have
 scalar keys, each once, in order; there are no aliases.
 */
module ConfigTree {
  import opened Shared

  datatype Tree = Null | Scalar(text: string) | Sequence(items: seq<Tree>) | Map(entries: seq<Entry>)

  datatype Entry = Entry(key: string, value: Tree)

  type Entries = seq<Entry>

  function Keys(es: Entries): (ks: seq<string>)
    ensures |ks| == |es| && forall i | 0 <= i < |es| :: ks[i] == es[i].key
  {
    seq(|es|, i requires 0 <= i < |es| => es[i].key)
  }

  /** No map anywhere in the tree has a key twice. */
  predicate WellFormed(t: Tree) {
    match t
    case Map(es) => Distinct(Keys(es)) && forall i | 0 <= i < |es| :: WellFormed(es[i].value)
    case _ => true
  }

  predicate Good(es: Entries) { Distinct(Keys(es)) && forall i | 0 <= i < |es| :: WellFormed(es[i].value) }

  /** The place of a key, or the number of entries if it is absent. */
  function IndexOf(es: Entries, key: string): (i: nat)
    ensures i <= |es|
    ensures i < |es| ==> es[i].key == key
    ensures i == |es| <==> key !in Keys(es)
    ensures forall j | 0 <= j < i :: es[j].key != key
  {
    if es == [] then 0
    else if es[0].key == key then 0
    else
      KeysTail(es);
      IndexOf(es[1..], key) + 1
  }

  function Get(es: Entries, key: string): Option<Tree> {
    var i := IndexOf(es, key);
    if i < |es| then Some(es[i].value) else None
  }

  /** Assignment to a key: in place if it is there, at the end if not. */
  function Put(es: Entries, key: string, value: Tree): Entries {
    var i := IndexOf(es, key);
    if i < |es| then es[i := Entry(key, value)] else es + [Entry(key, value)]
  }

  // The merge of the source

  /** What becomes of a value under a key that both maps have. */
  function Over(base: Tree, ov: Tree): Tree
    decreases ov, 1
  {
    if base.Map? && ov.Map? then Map(MergeMap(base.entries, ov.entries)) else ov
  }

  /** mergeMap: entry by entry of the override, in order. */
  function MergeMap(base: Entries, ov: Entries): Entries
    decreases ov, 0
  {
    if ov == [] then base else MergeMap(Put(base, ov[0].key, Merged(base, ov[0])), ov[1..])
  }

  /** What an entry of the override puts under its key. */
  function Merged(base: Entries, e: Entry): Tree
    decreases e, 2
  {
    match Get(base, e.key) case None => e.value case Some(b) => Over(b, e.value)
  }

  lemma MergeMapStep(base: Entries, ov: Entries)
    requires ov != []
    ensures MergeMap(base, ov) == MergeMap(Put(base, ov[0].key, Merged(base, ov[0])), ov[1..])
  {
  }

  /** merge: a null on either side counts as nothing, at the top level only. */
  function Merge(base: Tree, ov: Tree): Tree {
    if base.Null? then ov else if ov.Null? then base else Over(base, ov)
  }

  /** mergeMultiple: from left to right. */
  function MergeAll(layers: seq<Tree>): Tree {
    if layers == [] then Null
    else if |layers| == 1 then layers[0]
    else Merge(MergeAll(layers[..|layers| - 1]), layers[|layers| - 1])
  }

  // Entries as a map in order

  lemma IndexOfTail(es: Entries, key: string)
    requires es != []
    ensures Get(es, key) == if es[0].key == key then Some(es[0].value) else Get(es[1..], key)
  {
  }

  lemma GetIff(es: Entries, key: string)
    ensures Get(es, key).Some? <==> key in Keys(es)
    ensures forall i | 0 <= i < |es| && Distinct(Keys(es)) && es[i].key == key :: Get(es, key) == Some(es[i].value)
  {
    forall i | 0 <= i < |es| && Distinct(Keys(es)) && es[i].key == key ensures IndexOf(es, key) == i {
      var j := IndexOf(es, key);
      assert Keys(es)[i] == key;
      assert j < |es| && Keys(es)[j] == key;
    }
  }

  lemma PutGet(es: Entries, key: string, value: Tree, k: string)
    requires Good(es) && WellFormed(value)
    ensures Good(Put(es, key, value))
    ensures Keys(Put(es, key, value)) == if key in Keys(es) then Keys(es) else Keys(es) + [key]
    ensures Get(Put(es, key, value), k) == if k == key then Some(value) else Get(es, k)
  {
    hide IndexOf;
    var i := IndexOf(es, key);
    var r := Put(es, key, value);
    assert Keys(r) == if key in Keys(es) then Keys(es) else Keys(es) + [key];
    assert Distinct(Keys(r));
    assert r[i] == Entry(key, value);
    GetIff(r, k);
    GetIff(es, k);
    if k != key && k in Keys(es) {
      var j := IndexOf(es, k);
      assert j < |es| && r[j] == es[j];
    }
  }

  lemma GoodTail(es: Entries)
    requires Good(es) && es != []
    ensures Good(es[1..]) && es[0].key !in Keys(es[1..]) && WellFormed(es[0].value)
    ensures forall k :: k in Keys(es) <==> k == es[0].key || k in Keys(es[1..])
  {
    assert Keys(es) == [es[0].key] + Keys(es[1..]);
    assert forall i | 0 <= i < |es| - 1 :: Keys(es[1..])[i] == Keys(es)[i + 1];
    assert forall i | 0 <= i < |es| - 1 :: es[1..][i] == es[i + 1];
  }

  lemma Extensional(a: Entries, b: Entries)
    requires Distinct(Keys(a)) && Keys(a) == Keys(b)
    requires forall k | k in Keys(a) :: Get(a, k) == Get(b, k)
    ensures a == b
  {
    forall i | 0 <= i < |a| ensures a[i] == b[i] {
      assert Keys(a)[i] == a[i].key == Keys(b)[i] == b[i].key;
      GetIff(a, a[i].key);
      GetIff(b, a[i].key);
    }
  }

  // What a merge does to one key

  function Combine(base: Option<Tree>, ov: Option<Tree>): Option<Tree> {
    match (base, ov)
    case (None, _) => ov
    case (_, None) => base
    case (Some(b), Some(o)) => Some(Over(b, o))
  }

  /** The override's keys that are new, in the override's order. */
  function NewKeys(base: seq<string>, ov: seq<string>): seq<string> {
    if ov == [] then [] else (if ov[0] in base then [] else [ov[0]]) + NewKeys(base, ov[1..])
  }

  lemma {:induction false} NewKeysGrow(base: seq<string>, ov: seq<string>, key: string)
    requires key !in ov
    ensures NewKeys(base + [key], ov) == NewKeys(base, ov)
  {
    if ov != [] {
      assert ov[0] != key;
      NewKeysGrow(base, ov[1..], key);
    }
  }

  lemma GetWellFormed(es: Entries, key: string)
    requires Good(es) && Get(es, key).Some?
    ensures WellFormed(Get(es, key).value)
  {
  }

  lemma {:induction false} MergedWellFormed(base: Entries, e: Entry)
    requires Good(base) && WellFormed(e.value)
    ensures WellFormed(Merged(base, e))
    decreases e.value, 2
  {
    hide IndexOf;
    if Get(base, e.key).Some? {
      GetWellFormed(base, e.key);
      OverWellFormed(Get(base, e.key).value, e.value);
    }
  }

  lemma {:induction false} OverWellFormed(base: Tree, ov: Tree)
    requires WellFormed(base) && WellFormed(ov)
    ensures WellFormed(Over(base, ov))
    decreases ov, 1
  {
    hide MergeMap;
    if base.Map? && ov.Map? {
      MergeMapGood(base.entries, ov.entries);
    }
  }

  lemma {:induction false} MergeMapGood(base: Entries, ov: Entries)
    requires Good(base) && Good(ov)
    ensures Good(MergeMap(base, ov))
    decreases ov, 0
  {
    hide IndexOf, Put, Good, Over;
    if ov != [] {
      GoodTail(ov);
      MergedWellFormed(base, ov[0]);
      PutGet(base, ov[0].key, Merged(base, ov[0]), "");
      MergeMapGood(Put(base, ov[0].key, Merged(base, ov[0])), ov[1..]);
      MergeMapStep(base, ov);
    }
  }

  /** The value that a merge leaves under a key. */
  lemma {:induction false} MergeMapGet(base: Entries, ov: Entries, k: string)
    requires Good(base) && Good(ov)
    ensures Get(MergeMap(base, ov), k) == Combine(Get(base, k), Get(ov, k))
    decreases |ov|
  {
    hide IndexOf, Get, Put, Good, Over, MergeMap, WellFormed;
    if ov == [] {
      MergeNothing(base, k);
    } else {
      var e := ov[0];
      var next := Put(base, e.key, Merged(base, e));
      GoodTail(ov);
      MergedWellFormed(base, e);
      PutGet(base, e.key, Merged(base, e), k);
      MergeMapGet(next, ov[1..], k);
      MergeMapStep(base, ov);
      IndexOfTail(ov, k);
      GetIff(ov[1..], e.key);
      GetIff(ov[1..], k);
    }
  }

  lemma MergeNothing(base: Entries, k: string)
    ensures MergeMap(base, []) == base && Get([], k) == None && NewKeys(Keys(base), Keys([])) == []
  {
  }

  /** The key order that a merge leaves: base order first, then the new keys in override order. */
  lemma {:induction false} MergeMapKeys(base: Entries, ov: Entries)
    requires Good(base) && Good(ov)
    ensures Keys(MergeMap(base, ov)) == Keys(base) + NewKeys(Keys(base), Keys(ov))
    decreases |ov|
  {
    hide Good, MergeMap, Put, Merged, NewKeys, Keys;
    if ov == [] {
      MergeNothing(base, "");
      FirstKey(Keys(base), Keys(ov));
    } else {
      KeysAfterOne(base, ov);
      MergeMapKeys(Put(base, ov[0].key, Merged(base, ov[0])), ov[1..]);
      MergeMapStep(base, ov);
    }
  }

  /** What one entry adds to the keys is what it takes off the new ones. */
  lemma KeysAfterOne(base: Entries, ov: Entries)
    requires Good(base) && Good(ov) && ov != []
    ensures var next := Put(base, ov[0].key, Merged(base, ov[0]));
            && Good(next) && Good(ov[1..])
            && Keys(next) + NewKeys(Keys(next), Keys(ov[1..])) == Keys(base) + NewKeys(Keys(base), Keys(ov))
  {
    hide IndexOf, Get, Put, Good, Over, WellFormed, Keys, NewKeys, Merged;
    var e := ov[0];
    GoodTail(ov);
    MergedWellFormed(base, e);
    PutGet(base, e.key, Merged(base, e), "");
    KeysTail(ov);
    KeyMoves(Keys(base), e.key, Keys(ov[1..]));
  }

  lemma KeyMoves(base: seq<string>, key: string, rest: seq<string>)
    requires key !in rest
    ensures var next := if key in base then base else base + [key];
            next + NewKeys(next, rest) == base + NewKeys(base, [key] + rest)
  {
    hide NewKeys;
    FirstKey(base, [key] + rest);
    assert ([key] + rest)[1..] == rest;
    if key !in base {
      NewKeysGrow(base, rest, key);
      Associates(base, [key], NewKeys(base, rest));
    } else {
      assert [] + NewKeys(base, rest) == NewKeys(base, rest);
    }
  }

  lemma Associates(a: seq<string>, b: seq<string>, c: seq<string>)
    ensures a + b + c == a + (b + c)
  {
  }

  lemma KeysTail(es: Entries)
    requires es != []
    ensures Keys(es) == [es[0].key] + Keys(es[1..])
  {
  }

  /** The loop of mergeMap takes one more entry. */
  lemma {:induction false} MergeMapSnoc(base: Entries, ov: Entries, e: Entry)
    ensures var m := MergeMap(base, ov); MergeMap(base, ov + [e]) == Put(m, e.key, Merged(m, e))
    decreases |ov|
  {
    hide Put, Over, Get;
    MergeMapStep(base, ov + [e]);
    if ov == [] {
      assert ([] + [e])[1..] == [];
    } else {
      MergeMapStep(base, ov);
      assert (ov + [e])[1..] == ov[1..] + [e];
      MergeMapSnoc(Put(base, ov[0].key, Merged(base, ov[0])), ov[1..], e);
    }
  }

  // What a merge does to one path

  type Path = seq<string>

  /** What a tree says about a path: nothing, that it cannot exist, a value that is not a map, or a map. */
  datatype Status = Absent | Shadowed | Leaf(value: Tree) | Branch

  function StatusAt(t: Tree, path: Path): Status {
    if path == [] then (if t.Map? then Branch else Leaf(t))
    else if !t.Map? then Shadowed
    else
      match Get(t.entries, path[0])
      case None => Absent
      case Some(v) => StatusAt(v, path[1..])
  }

  /** What a reader sees at a path. */
  function Seen(s: Status): Option<Status> { if s.Absent? || s.Shadowed? then None else Some(s) }

  /** The override decides every path it says anything about; the base decides the others. */
  lemma {:induction false} OverAt(base: Tree, ov: Tree, path: Path)
    requires WellFormed(base) && WellFormed(ov)
    ensures Seen(StatusAt(Over(base, ov), path)) ==
            if StatusAt(ov, path).Absent? then Seen(StatusAt(base, path)) else Seen(StatusAt(ov, path))
    decreases |path|
  {
    hide Get, MergeMap, WellFormed;
    if base.Map? && ov.Map? && path != [] {
      WellFormedIsGood(base);
      WellFormedIsGood(ov);
      var k := path[0];
      MergeMapGet(base.entries, ov.entries, k);
      if Get(base.entries, k).Some? && Get(ov.entries, k).Some? {
        GetWellFormed(base.entries, k);
        GetWellFormed(ov.entries, k);
        OverAt(Get(base.entries, k).value, Get(ov.entries, k).value, path[1..]);
      }
    }
  }

  lemma WellFormedIsGood(t: Tree)
    requires WellFormed(t) && t.Map?
    ensures Good(t.entries)
  {
  }

  /** A layer decides a path unless it is null or silent about it. */
  predicate Decides(layer: Tree, path: Path) { !layer.Null? && !StatusAt(layer, path).Absent? }

  predicate AllWellFormed(layers: seq<Tree>) { forall i | 0 <= i < |layers| :: WellFormed(layers[i]) }

  lemma {:induction false} MergeAllWellFormed(layers: seq<Tree>)
    requires AllWellFormed(layers)
    ensures WellFormed(MergeAll(layers))
  {
    if |layers| > 1 {
      MergeAllWellFormed(layers[..|layers| - 1]);
      OverWellFormed(MergeAll(layers[..|layers| - 1]), layers[|layers| - 1]);
    }
  }

  /** After mergeMultiple the last layer that decides a path settles what is seen there. */
  lemma {:induction false} LastDecidingLayerWins(layers: seq<Tree>, path: Path, i: nat)
    requires AllWellFormed(layers) && path != [] && i < |layers|
    requires Decides(layers[i], path) && forall j | i < j < |layers| :: !Decides(layers[j], path)
    ensures Seen(StatusAt(MergeAll(layers), path)) == Seen(StatusAt(layers[i], path))
  {
    hide WellFormed, Over, StatusAt;
    var n := |layers| - 1;
    if n > 0 {
      var before := MergeAll(layers[..n]);
      MergeAllWellFormed(layers[..n]);
      OverAt(before, layers[n], path);
      if i < n {
        LastDecidingLayerWins(layers[..n], path, i);
        NullSaysNothing(path);
      }
    }
  }

  lemma NullSaysNothing(path: Path)
    requires path != []
    ensures StatusAt(Null, path) == Shadowed
  {
  }

  /** And a path that no layer decides holds nothing. */
  lemma {:induction false} UndecidedPathIsEmpty(layers: seq<Tree>, path: Path)
    requires AllWellFormed(layers) && path != [] && forall j | 0 <= j < |layers| :: !Decides(layers[j], path)
    ensures Seen(StatusAt(MergeAll(layers), path)) == None
  {
    hide WellFormed, Over, StatusAt;
    NullSaysNothing(path);
    var n := |layers| - 1;
    if n > 0 {
      MergeAllWellFormed(layers[..n]);
      OverAt(MergeAll(layers[..n]), layers[n], path);
      UndecidedPathIsEmpty(layers[..n], path);
    }
  }

  // Algebra

  /** Merging a tree over itself changes nothing. */
  lemma {:induction false} MergeIsIdempotent(t: Tree)
    requires WellFormed(t)
    ensures Over(t, t) == t && Merge(t, t) == t
  {
    if t.Map? {
      var es := t.entries;
      WellFormedIsGood(t);
      MergeMapKeys(es, es);
      NothingNew(Keys(es), Keys(es));
      forall k | k in Keys(es) ensures Get(MergeMap(es, es), k) == Get(es, k) {
        hide MergeMap;
        MergeMapGet(es, es, k);
        GetIff(es, k);
        GetWellFormed(es, k);
        var i := IndexOf(es, k);
        assert es[i] in es;
        MergeIsIdempotent(es[i].value);
      }
      Extensional(MergeMap(es, es), es);
    }
  }

  lemma {:induction false} NothingNew(base: seq<string>, ov: seq<string>)
    requires forall k | k in ov :: k in base
    ensures NewKeys(base, ov) == []
  {
    if ov != [] {
      NothingNew(base, ov[1..]);
    }
  }

  /** Merging a under c changes nothing: a's keys lead c's, and the maps under them are absorbed in turn. */
  predicate Absorbed(a: Tree, c: Tree)
    decreases c
  {
    a.Map? && c.Map? ==>
      && Keys(a.entries) <= Keys(c.entries)
      && forall i | 0 <= i < |a.entries| && i < |c.entries| :: Absorbed(a.entries[i].value, c.entries[i].value)
  }

  /** No map is replaced by a non-map and that by a map, except where the first map would have been absorbed anyway. */
  predicate NothingResurfaces(x: Tree, y: Tree, z: Tree)
    decreases z
  {
    if !z.Map? || !x.Map? then true
    else if !y.Map? then Absorbed(x, z)
    else
      forall i | 0 <= i < |z.entries| ::
        var k := z.entries[i].key;
        Get(x.entries, k).Some? && Get(y.entries, k).Some? ==>
          NothingResurfaces(Get(x.entries, k).value, Get(y.entries, k).value, z.entries[i].value)
  }

  lemma {:induction false} NewKeysOfSuffix(base: seq<string>, ov: seq<string>)
    requires forall k | k in ov :: k !in base
    ensures NewKeys(base, ov) == ov
  {
    if ov != [] {
      NewKeysOfSuffix(base, ov[1..]);
    }
  }

  lemma {:induction false} NewKeysAppend(base: seq<string>, u: seq<string>, v: seq<string>)
    ensures NewKeys(base, u + v) == NewKeys(base, u) + NewKeys(base, v)
  {
    hide NewKeys;
    FirstKey(base, u);
    if u == [] {
      assert u + v == v;
    } else {
      NewKeysAppend(base, u[1..], v);
      assert (u + v)[0] == u[0] && (u + v)[1..] == u[1..] + v;
      FirstKey(base, u + v);
    }
  }

  lemma FirstKey(base: seq<string>, ov: seq<string>)
    ensures ov == [] ==> NewKeys(base, ov) == []
    ensures ov != [] ==> NewKeys(base, ov) == (if ov[0] in base then [] else [ov[0]]) + NewKeys(base, ov[1..])
  {
  }

  lemma PrefixThenNew(a: seq<string>, c: seq<string>)
    requires Distinct(c) && a <= c
    ensures a + NewKeys(a, c) == c
  {
    hide NewKeys;
    var rest := c[|a|..];
    assert c == a + rest;
    NewKeysAppend(a, a, rest);
    NothingNew(a, a);
    SuffixIsNew(a, rest);
    NewKeysOfSuffix(a, rest);
  }

  lemma SuffixIsNew(a: seq<string>, rest: seq<string>)
    requires Distinct(a + rest)
    ensures forall k | k in rest :: k !in a
  {
    forall n, i | 0 <= n < |a| && 0 <= i < |rest| ensures a[n] != rest[i] {
      assert (a + rest)[n] == a[n] && (a + rest)[|a| + i] == rest[i];
    }
  }

  /** The structural condition says exactly when merging a under c changes nothing. */
  lemma {:induction false} AbsorbedIff(a: Tree, c: Tree)
    requires WellFormed(a) && WellFormed(c)
    ensures Over(a, c) == c <==> Absorbed(a, c)
    decreases c
  {
    if a.Map? && c.Map? {
      var m := MergeMap(a.entries, c.entries);
      WellFormedIsGood(a);
      WellFormedIsGood(c);
      MergeMapKeys(a.entries, c.entries);
      if Keys(a.entries) <= Keys(c.entries) {
        PrefixThenNew(Keys(a.entries), Keys(c.entries));
        forall i | 0 <= i < |a.entries|
          ensures Get(m, a.entries[i].key) == Get(c.entries, a.entries[i].key) <==>
                  Absorbed(a.entries[i].value, c.entries[i].value)
        {
          AbsorbedAt(a.entries, c.entries, i);
          AbsorbedIff(a.entries[i].value, c.entries[i].value);
        }
        if Absorbed(a, c) {
          forall k | k in Keys(c.entries) ensures Get(m, k) == Get(c.entries, k) {
            MergeMapGet(a.entries, c.entries, k);
            GetIff(a.entries, k);
            GetIff(c.entries, k);
            if k in Keys(a.entries) {
              var i := IndexOf(a.entries, k);
              assert a.entries[i].key == k;
            }
          }
          MergeMapGood(a.entries, c.entries);
          Extensional(m, c.entries);
        }
      }
    }
  }

  lemma AbsorbedAt(a: Entries, c: Entries, i: nat)
    requires Good(a) && Good(c) && Keys(a) <= Keys(c) && i < |a|
    ensures i < |c| && a[i].key == c[i].key && WellFormed(a[i].value) && WellFormed(c[i].value)
    ensures Get(c, a[i].key) == Some(c[i].value)
    ensures Get(MergeMap(a, c), a[i].key) == Some(Over(a[i].value, c[i].value))
  {
    hide Over, MergeMap;
    assert Keys(a)[i] == Keys(c)[i];
    GetIff(a, a[i].key);
    GetIff(c, c[i].key);
    MergeMapGet(a, c, a[i].key);
  }

  lemma {:induction false} NewKeysTwice(x: seq<string>, y: seq<string>, w: seq<string>, z: seq<string>)
    requires forall k :: k in w <==> k in x || k in y
    ensures NewKeys(x, NewKeys(y, z)) == NewKeys(w, z)
  {
    if z != [] {
      NewKeysTwice(x, y, w, z[1..]);
      NewKeysAppend(x, if z[0] in y then [] else [z[0]], NewKeys(y, z[1..]));
    }
  }

  lemma {:induction false} InNewKeys(base: seq<string>, ov: seq<string>, k: string)
    ensures k in NewKeys(base, ov) <==> k in ov && k !in base
  {
    if ov != [] {
      InNewKeys(base, ov[1..], k);
    }
  }

  /** The key order does not depend on the grouping. */
  lemma KeyOrderIsAssociative(x: Entries, y: Entries, z: Entries)
    requires Good(x) && Good(y) && Good(z)
    ensures Good(MergeMap(x, y)) && Good(MergeMap(y, z))
    ensures Keys(MergeMap(MergeMap(x, y), z)) == Keys(MergeMap(x, MergeMap(y, z)))
  {
    hide MergeMap, Good, Keys;
    MergeMapGood(x, y);
    MergeMapGood(y, z);
    MergeMapKeys(x, y);
    MergeMapKeys(y, z);
    MergeMapKeys(MergeMap(x, y), z);
    MergeMapKeys(x, MergeMap(y, z));
    NewKeysRegroup(Keys(x), Keys(y), Keys(z));
  }

  lemma NewKeysRegroup(x: seq<string>, y: seq<string>, z: seq<string>)
    ensures x + NewKeys(x, y) + NewKeys(x + NewKeys(x, y), z) == x + NewKeys(x, y + NewKeys(y, z))
  {
    hide NewKeys;
    NewKeysAppend(x, y, NewKeys(y, z));
    forall k ensures k in x + NewKeys(x, y) <==> k in x || k in y {
      InNewKeys(x, y, k);
    }
    NewKeysTwice(x, y, x + NewKeys(x, y), z);
  }

  /** Regrouping three trees changes nothing exactly when no map resurfaces. */
  lemma {:induction false} OverRegroup(x: Tree, y: Tree, z: Tree)
    requires WellFormed(x) && WellFormed(y) && WellFormed(z)
    ensures Over(Over(x, y), z) == Over(x, Over(y, z)) <==> NothingResurfaces(x, y, z)
    decreases z
  {
    if z.Map? && x.Map? {
      if !y.Map? {
        AbsorbedIff(x, z);
      } else {
        WellFormedIsGood(x);
        WellFormedIsGood(y);
        WellFormedIsGood(z);
        forall i | 0 <= i < |z.entries| ensures
            var k := z.entries[i].key;
            Get(MergeMap(MergeMap(x.entries, y.entries), z.entries), k)
            == Get(MergeMap(x.entries, MergeMap(y.entries, z.entries)), k)
            <==> RegroupsAt(x.entries, y.entries, z.entries, i)
        {
          var k := z.entries[i].key;
          GetIff(z.entries, k);
          if Get(x.entries, k).Some? && Get(y.entries, k).Some? {
            GetWellFormed(x.entries, k);
            GetWellFormed(y.entries, k);
            OverRegroup(Get(x.entries, k).value, Get(y.entries, k).value, z.entries[i].value);
          }
          RegroupKey(x.entries, y.entries, z.entries, k);
        }
        MapsRegroup(x.entries, y.entries, z.entries);
      }
    }
  }

  predicate RegroupsAt(x: Entries, y: Entries, z: Entries, i: nat)
    requires i < |z|
  {
    var k := z[i].key;
    Get(x, k).Some? && Get(y, k).Some? ==> NothingResurfaces(Get(x, k).value, Get(y, k).value, z[i].value)
  }

  lemma RegroupKey(x: Entries, y: Entries, z: Entries, k: string)
    requires Good(x) && Good(y) && Good(z)
    ensures Get(MergeMap(MergeMap(x, y), z), k) == Combine(Combine(Get(x, k), Get(y, k)), Get(z, k))
    ensures Get(MergeMap(x, MergeMap(y, z)), k) == Combine(Get(x, k), Combine(Get(y, k), Get(z, k)))
  {
    hide MergeMap, Good, Combine;
    MergeMapGood(x, y);
    MergeMapGood(y, z);
    MergeMapGet(x, y, k);
    MergeMapGet(y, z, k);
    MergeMapGet(MergeMap(x, y), z, k);
    MergeMapGet(x, MergeMap(y, z), k);
  }

  /** Two groupings of maps are equal exactly when they are equal under each key of the last. */
  lemma MapsRegroup(x: Entries, y: Entries, z: Entries)
    requires Good(x) && Good(y) && Good(z)
    ensures MergeMap(MergeMap(x, y), z) == MergeMap(x, MergeMap(y, z)) <==>
      forall i | 0 <= i < |z| ::
        Get(MergeMap(MergeMap(x, y), z), z[i].key) == Get(MergeMap(x, MergeMap(y, z)), z[i].key)
  {
    hide MergeMap;
    var l, r := MergeMap(MergeMap(x, y), z), MergeMap(x, MergeMap(y, z));
    KeyOrderIsAssociative(x, y, z);
    MergeMapGood(MergeMap(x, y), z);
    if forall i | 0 <= i < |z| :: Get(l, z[i].key) == Get(r, z[i].key) {
      forall k | k in Keys(l) ensures Get(l, k) == Get(r, k) {
        RegroupKey(x, y, z, k);
        GetIff(z, k);
        if Get(z, k).Some? {
          assert z[IndexOf(z, k)].key == k;
        }
      }
      Extensional(l, r);
    }
  }

  /** The same for merge itself, where a null layer is always harmless. */
  lemma MergeRegroup(x: Tree, y: Tree, z: Tree)
    requires WellFormed(x) && WellFormed(y) && WellFormed(z)
    ensures Merge(Merge(x, y), z) == Merge(x, Merge(y, z)) <==>
      x.Null? || y.Null? || z.Null? || NothingResurfaces(x, y, z)
  {
    OverRegroup(x, y, z);
  }

  /** A map, then a scalar, then a map: the left grouping forgets the first map and the right one does not. */
  lemma GroupingMatters()
    ensures var x := Map([Entry("a", Map([Entry("b", Scalar("1"))]))]);
            var y := Map([Entry("a", Scalar("2"))]);
            var z := Map([Entry("a", Map([Entry("c", Scalar("3"))]))]);
            && StatusAt(Merge(Merge(x, y), z), ["a", "b"]) == Absent
            && StatusAt(Merge(x, Merge(y, z)), ["a", "b"]) == Leaf(Scalar("1"))
  {
    var x := Map([Entry("a", Map([Entry("b", Scalar("1"))]))]);
    var y := Map([Entry("a", Scalar("2"))]);
    var z := Map([Entry("a", Map([Entry("c", Scalar("3"))]))]);
    assert Over(Scalar("2"), z.entries[0].value) == z.entries[0].value;
    assert Over(x.entries[0].value, y.entries[0].value) == Scalar("2");
    var b, c := Entry("b", Scalar("1")), Entry("c", Scalar("3"));
    assert MergeMap([b], [c]) == [b, c];
  }
}
