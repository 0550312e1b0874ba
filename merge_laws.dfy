/** What `DataNode::merge` does to a tree, stated on the `Tree` values it works on. */
module MergeLaws {
  import opened DataNodes

  /** One level of `merge`: scalars, key set, and the child under every key. */
  lemma MergedShape(a: Tree, b: Tree)
    ensures Merged(a, b).value == b.value && Merged(a, b).valueType == b.valueType
    ensures Merged(a, b).writable == a.writable
    ensures Merged(a, b).subnodes.Keys == a.subnodes.Keys + b.subnodes.Keys
    ensures forall k :: k in b.subnodes ==> Merged(a, b).subnodes[k] == Merged(ChildOrEmpty(a, k), b.subnodes[k])
    ensures forall k :: k in a.subnodes && k !in b.subnodes ==> Merged(a, b).subnodes[k] == a.subnodes[k]
  {
  }

  /** Merging into `DataNode::new()` copies the other tree, with every writability flag false. */
  lemma {:induction false} MergeIntoEmpty(b: Tree)
    ensures Merged(Empty, b) == Unwritable(b)
    decreases b
  {
    var m := Merged(Empty, b);
    MergedShape(Empty, b);
    forall k | k in b.subnodes
      ensures m.subnodes[k] == Unwritable(b).subnodes[k]
    {
      MergeIntoEmpty(b.subnodes[k]);
    }
    assert m.subnodes == Unwritable(b).subnodes;
  }

  /** Merging the same tree a second time changes nothing. */
  lemma {:induction false} MergeIdempotent(a: Tree, b: Tree)
    ensures Merged(Merged(a, b), b) == Merged(a, b)
    decreases b
  {
    var m := Merged(a, b);
    var mm := Merged(m, b);
    MergedShape(a, b);
    MergedShape(m, b);
    forall k | k in b.subnodes
      ensures mm.subnodes[k] == m.subnodes[k]
    {
      assert ChildOrEmpty(m, k) == Merged(ChildOrEmpty(a, k), b.subnodes[k]);
      MergeIdempotent(ChildOrEmpty(a, k), b.subnodes[k]);
    }
    assert mm.subnodes == m.subnodes;
  }

  /** Merging a tree into itself gives the tree back. */
  lemma {:induction false} MergeSelf(a: Tree)
    ensures Merged(a, a) == a
    decreases a
  {
    var m := Merged(a, a);
    MergedShape(a, a);
    forall k | k in a.subnodes
      ensures m.subnodes[k] == a.subnodes[k]
    {
      MergeSelf(a.subnodes[k]);
    }
    assert m.subnodes == a.subnodes;
  }

  lemma LookupEmpty(path: seq<string>)
    ensures Lookup(Empty, path).Some? <==> path == []
  {
  }

  /**
   * Along any path: the merged tree has a node exactly where either tree has
   * one; where `b` has one, its value and type are `b`'s; where `b` has none,
   * the node is `a`'s, untouched; and writability is `a`'s where `a` has a
   * node and false on every node the merge created.
   */
  lemma {:induction false} MergedLookup(a: Tree, b: Tree, path: seq<string>)
    ensures Lookup(Merged(a, b), path).Some? <==> Lookup(a, path).Some? || Lookup(b, path).Some?
    ensures Lookup(b, path).Some? ==>
      && Lookup(Merged(a, b), path).value.value == Lookup(b, path).value.value
      && Lookup(Merged(a, b), path).value.valueType == Lookup(b, path).value.valueType
    ensures Lookup(b, path).None? ==> Lookup(Merged(a, b), path) == Lookup(a, path)
    ensures Lookup(Merged(a, b), path).Some? ==>
      Lookup(Merged(a, b), path).value.writable == (Lookup(a, path).Some? && Lookup(a, path).value.writable)
    decreases |path|
  {
    MergedShape(a, b);
    if path != [] {
      var k, rest := path[0], path[1..];
      if k in b.subnodes {
        MergedLookup(ChildOrEmpty(a, k), b.subnodes[k], rest);
        if k !in a.subnodes {
          LookupEmpty(rest);
        }
      }
    }
  }
}
