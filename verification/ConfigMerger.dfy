/**
 The in-place merge of src/config/config_merger.cpp on mutable trees without aliases, proved against ConfigTree.
 What a node that is not a map holds is kept as a value: no operation here looks inside it or changes it.
 */
module ConfigMerger {
  import opened ConfigTree

  class Node {
    var isMap: bool
    var leaf: Tree
    var keys: seq<string>
    var children: seq<Node>
    /** The nodes of the tree, and what the tree stands for. */
    ghost var Repr: set<Node>
    ghost var tree: Tree

    ghost predicate Valid()
      reads this, Repr
      decreases Repr
    {
      && this in Repr
      && (isMap ==> Owned() && tree == Map(EntriesOf()) && forall i | 0 <= i < |children| :: children[i].Valid())
      && (!isMap ==> !leaf.Map? && tree == leaf && children == [] && keys == [])
    }

    /** The children are separate trees that do not contain this node. */
    ghost predicate Owned()
      reads this, Repr
    {
      && |keys| == |children|
      && (forall i | 0 <= i < |children| ::
            children[i] in Repr && children[i].Repr <= Repr && this !in children[i].Repr)
      && (forall i, j | 0 <= i < j < |children| :: children[i].Repr !! children[j].Repr)
    }

    ghost function EntriesOf(): Entries
      reads this, children
    {
      seq(|children|, i requires 0 <= i < |children| reads this, children =>
        Entry(if i < |keys| then keys[i] else "", children[i].tree))
    }

    constructor Leaf(value: Tree)
      requires !value.Map?
      ensures Valid() && fresh(Repr) && tree == value && !isMap
    {
      isMap, leaf, keys, children := false, value, [], [];
      tree, Repr := value, {this};
    }

    constructor EmptyMap()
      ensures Valid() && fresh(Repr) && tree == Map([]) && isMap
    {
      isMap, leaf, keys, children := true, Null, [], [];
      tree, Repr := Map([]), {this};
    }

    /** Replaces the child at an existing key. */
    method Replace(i: nat, child: Node)
      requires Valid() && isMap && i < |children| && child.Valid() && child.Repr !! Repr
      modifies this
      ensures Valid() && isMap && Repr == old(Repr) + child.Repr
      ensures tree == Map(old(tree.entries)[i := Entry(old(keys[i]), child.tree)])
    {
      children := children[i := child];
      Repr := Repr + child.Repr;
      tree := Map(EntriesOf());
      assert EntriesOf() == old(EntriesOf())[i := Entry(old(keys[i]), child.tree)];
    }

    /** Adds a key at the end. */
    method Add(key: string, child: Node)
      requires Valid() && isMap && child.Valid() && child.Repr !! Repr
      modifies this
      ensures Valid() && isMap && Repr == old(Repr) + child.Repr
      ensures tree == Map(old(tree.entries) + [Entry(key, child.tree)])
    {
      keys, children := keys + [key], children + [child];
      Repr := Repr + child.Repr;
      tree := Map(EntriesOf());
      assert EntriesOf() == old(EntriesOf()) + [Entry(key, child.tree)];
    }

    /** The place of a key, or the number of keys. */
    method Find(key: string) returns (i: nat)
      requires Valid() && isMap
      ensures i == IndexOf(tree.entries, key) && i <= |children|
    {
      i := 0;
      while i < |keys| && keys[i] != key
        invariant i <= |keys|
        invariant forall j | 0 <= j < i :: keys[j] != key
      {
        i := i + 1;
      }
      IndexIs(tree.entries, key, i);
    }
  }

  lemma IndexIs(es: Entries, key: string, i: nat)
    requires i <= |es| && (i < |es| ==> es[i].key == key) && forall j | 0 <= j < i :: es[j].key != key
    ensures IndexOf(es, key) == i
  {
  }

  /** A copy that shares no node with the original. */
  method Clone(node: Node) returns (copy: Node)
    requires node.Valid()
    ensures copy.Valid() && fresh(copy.Repr) && copy.tree == node.tree
    decreases node.Repr
  {
    if !node.isMap {
      copy := new Node.Leaf(node.leaf);
      return;
    }
    copy := new Node.EmptyMap();
    for i := 0 to |node.children|
      invariant copy.Valid() && fresh(copy.Repr) && copy.isMap
      invariant copy.tree == Map(node.tree.entries[..i])
    {
      var child := Clone(node.children[i]);
      copy.Add(node.keys[i], child);
    }
  }

  /** Merges a map into the map base, in place; the override tree is not touched. */
  method MergeMapInPlace(base: Node, ov: Node)
    requires base.Valid() && ov.Valid() && base.isMap && ov.isMap && base.Repr !! ov.Repr
    requires WellFormed(base.tree) && WellFormed(ov.tree)
    modifies base.Repr
    ensures base.Valid() && base.isMap && fresh(base.Repr - old(base.Repr))
    ensures base.tree == Map(MergeMap(old(base.tree.entries), ov.tree.entries))
    ensures ov.Valid() && ov.tree == old(ov.tree)
    decreases ov.Repr, 0
  {
    hide MergeMap, WellFormed;
    ghost var before, es := base.tree.entries, ov.tree.entries;
    MergeNothing(before, "");
    WellFormedIsGood(base.tree);
    WellFormedIsGood(ov.tree);
    for i := 0 to |ov.keys|
      invariant base.Valid() && base.isMap && fresh(base.Repr - old(base.Repr)) && base.Repr !! ov.Repr
      invariant ov.Valid() && ov.isMap && ov.tree == Map(es)
      invariant ov.keys == old(ov.keys) && ov.children == old(ov.children)
      invariant base.tree == Map(MergeMap(before, es[..i])) && WellFormed(base.tree)
    {
      assert es[..i + 1] == es[..i] + [es[i]];
      MergeMapSnoc(before, es[..i], es[i]);
      EntryIsGood(es, i);
      PutWellFormed(base.tree.entries, es[i]);
      MergeEntry(base, ov.keys[i], ov.children[i]);
    }
    assert es[..|es|] == es;
  }

  /** One pass of the loop. */
  method MergeEntry(base: Node, key: string, value: Node)
    requires base.Valid() && value.Valid() && base.isMap && base.Repr !! value.Repr
    requires WellFormed(base.tree) && WellFormed(value.tree)
    modifies base.Repr
    ensures base.Valid() && base.isMap && fresh(base.Repr - old(base.Repr))
    ensures base.tree == Map(Put(old(base.tree.entries), key, Merged(old(base.tree.entries), Entry(key, value.tree))))
    decreases value.Repr, 2
  {
    hide MergeMap, WellFormed, IndexOf;
    var i := base.Find(key);
    if i < |base.children| {
      if base.children[i].isMap && value.isMap {
        MergeIntoChild(base, i, value);
      } else {
        var copy := Clone(value);
        base.Replace(i, copy);
      }
    } else {
      var copy := Clone(value);
      base.Add(key, copy);
    }
  }

  method MergeIntoChild(base: Node, i: nat, value: Node)
    requires base.Valid() && value.Valid() && base.isMap && base.Repr !! value.Repr
    requires i < |base.children| && base.children[i].isMap && value.isMap
    requires WellFormed(base.tree) && WellFormed(value.tree)
    modifies base.Repr
    ensures base.Valid() && base.isMap && fresh(base.Repr - old(base.Repr))
    ensures base.tree ==
            Map(old(base.tree.entries)[i := Entry(old(base.keys[i]), Over(old(base.children[i].tree), value.tree))])
    decreases value.Repr, 1
  {
    hide MergeMap, WellFormed;
    var child := base.children[i];
    ChildIsWellFormed(base, i);
    MergeMapInPlace(child, value);
    base.Repr := base.Repr + child.Repr;
    base.tree := Map(base.EntriesOf());
    assert base.EntriesOf() == old(base.EntriesOf())[i := Entry(old(base.keys[i]), child.tree)];
  }

  lemma ChildIsWellFormed(node: Node, i: nat)
    requires node.Valid() && node.isMap && WellFormed(node.tree) && i < |node.children|
    ensures WellFormed(node.children[i].tree)
  {
    assert node.tree.entries[i].value == node.children[i].tree;
  }

  lemma EntryIsGood(es: Entries, i: nat)
    requires Good(es) && i < |es|
    ensures WellFormed(es[i].value)
  {
  }

  lemma PutWellFormed(es: Entries, e: Entry)
    requires WellFormed(Map(es)) && WellFormed(e.value)
    ensures WellFormed(Map(Put(es, e.key, Merged(es, e))))
  {
    hide IndexOf, Put, Over;
    MergedWellFormed(es, e);
    PutGet(es, e.key, Merged(es, e), "");
  }

  // merge and mergeMultiple

  /** A new tree; neither argument is touched. */
  method MergeNodes(base: Node, ov: Node) returns (result: Node)
    requires base.Valid() && ov.Valid() && WellFormed(base.tree) && WellFormed(ov.tree)
    ensures result.Valid() && fresh(result.Repr) && result.tree == Merge(base.tree, ov.tree)
  {
    hide MergeMap, WellFormed;
    if !base.isMap && base.leaf.Null? {
      result := Clone(ov);
      return;
    }
    if !ov.isMap && ov.leaf.Null? {
      result := Clone(base);
      return;
    }
    if base.isMap && ov.isMap {
      result := Clone(base);
      MergeMapInPlace(result, ov);
      return;
    }
    result := Clone(ov);
  }

  ghost function Trees(nodes: seq<Node>): (ts: seq<Tree>)
    reads nodes
    ensures |ts| == |nodes| && forall i | 0 <= i < |ts| :: ts[i] == nodes[i].tree
  {
    seq(|nodes|, i requires 0 <= i < |nodes| reads nodes => nodes[i].tree)
  }

  lemma MergeAllFew(trees: seq<Tree>)
    ensures MergeAll([]) == Null
    ensures trees != [] ==> MergeAll(trees[..1]) == trees[0]
  {
  }

  lemma MergeAllStep(trees: seq<Tree>, i: nat)
    requires 0 < i < |trees| && AllWellFormed(trees)
    ensures MergeAll(trees[..i + 1]) == Merge(MergeAll(trees[..i]), trees[i]) && WellFormed(MergeAll(trees[..i + 1]))
  {
    hide WellFormed, Merge;
    assert trees[..i + 1][..i] == trees[..i];
    MergeAllWellFormed(trees[..i + 1]);
  }

  method MergeMultiple(nodes: seq<Node>) returns (result: Node)
    requires forall i | 0 <= i < |nodes| :: nodes[i].Valid() && WellFormed(nodes[i].tree)
    ensures result.Valid() && fresh(result.Repr) && result.tree == MergeAll(Trees(nodes))
  {
    hide WellFormed, Merge, MergeAll;
    MergeAllFew(Trees(nodes));
    if |nodes| == 0 {
      result := new Node.Leaf(Null);
      return;
    }
    result := Clone(nodes[0]);
    ghost var trees := Trees(nodes);
    assert trees[..1] == [nodes[0].tree];
    for i := 1 to |nodes|
      invariant result.Valid() && fresh(result.Repr) && result.tree == MergeAll(trees[..i]) && WellFormed(result.tree)
    {
      MergeAllStep(trees, i);
      result := MergeNodes(result, nodes[i]);
    }
    assert trees[..|nodes|] == trees;
  }
}
