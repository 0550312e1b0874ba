/**
 * The device-parameter tree of src/data_node.rs.
 *
 * `Tree` is the value of a node and of everything below it: what the derived
 * `PartialEq` compares and what the derived `Clone` copies. `DataNode` is the
 * node object that `merge` updates in place; its ghost field `Model` is the
 * `Tree` it currently holds and `Repr` is the set of objects it owns.
 */
module DataNodes {
  import opened Wrappers

  /** The value of one node and, through `subnodes`, of its whole subtree. */
  datatype Tree = Tree(value: string, valueType: string, writable: bool, subnodes: map<string, Tree>)

  /** What `DataNode::new()` holds: empty value, empty type, not writable, no children. */
  const Empty: Tree := Tree("", "", false, map[])

  /** The child `merge` works on for `key`: the existing one, or the empty node it inserts. */
  function ChildOrEmpty(t: Tree, key: string): Tree
  {
    if key in t.subnodes then t.subnodes[key] else Empty
  }

  /**
   * `a` after `a.merge(b)`: value and type are `b`'s, writability stays `a`'s,
   * the child of every key of `b` is merged recursively (into an empty node when
   * `a` has none) and the children of keys only `a` has are kept.
   */
  function Merged(a: Tree, b: Tree): Tree
    decreases b, 1
  {
    MergedOn(a, b, b.subnodes.Keys)
  }

  /** `a` once the keys `done` of `b` have been merged into it: the state of `merge`'s loop. */
  function MergedOn(a: Tree, b: Tree, done: set<string>): Tree
    requires done <= b.subnodes.Keys
    decreases b, 0
  {
    Tree(b.value, b.valueType, a.writable,
      map k | k in a.subnodes.Keys + done ::
        if k in done then Merged(ChildOrEmpty(a, k), b.subnodes[k]) else a.subnodes[k])
  }

  /** The node reached from `t` by following the keys of `path`, if there is one. */
  function Lookup(t: Tree, path: seq<string>): Option<Tree>
    decreases |path|
  {
    if path == [] then Some(t)
    else if path[0] in t.subnodes then Lookup(t.subnodes[path[0]], path[1..])
    else None
  }

  /** `t` with every writability flag cleared, at every depth. */
  function Unwritable(t: Tree): Tree
  {
    Tree(t.value, t.valueType, false, map k | k in t.subnodes :: Unwritable(t.subnodes[k]))
  }

  lemma MergedOnNone(a: Tree, b: Tree)
    ensures MergedOn(a, b, {}) == a.(value := b.value, valueType := b.valueType)
  {
    assert MergedOn(a, b, {}).subnodes == a.subnodes;
  }

  lemma MergedOnStep(a: Tree, b: Tree, done: set<string>, k: string)
    requires done <= b.subnodes.Keys && k in b.subnodes && k !in done
    ensures MergedOn(a, b, done + {k}) ==
      MergedOn(a, b, done).(subnodes := MergedOn(a, b, done).subnodes[k := Merged(ChildOrEmpty(a, k), b.subnodes[k])])
  {
    var m := MergedOn(a, b, done);
    assert MergedOn(a, b, done + {k}).subnodes == m.subnodes[k := Merged(ChildOrEmpty(a, k), b.subnodes[k])];
  }

  /** `t` keeping only the children under the keys `done`. */
  function Restricted(t: Tree, done: set<string>): Tree
  {
    t.(subnodes := map k | k in done && k in t.subnodes :: t.subnodes[k])
  }

  lemma RestrictedNone(t: Tree)
    ensures Restricted(t, {}) == t.(subnodes := map[])
  {
    assert Restricted(t, {}).subnodes == map[];
  }

  lemma RestrictedAll(t: Tree)
    ensures Restricted(t, t.subnodes.Keys) == t
  {
    assert Restricted(t, t.subnodes.Keys).subnodes == t.subnodes;
  }

  lemma RestrictedStep(t: Tree, done: set<string>, k: string)
    requires k in t.subnodes
    ensures Restricted(t, done + {k}) == Restricted(t, done).(subnodes := Restricted(t, done).subnodes[k := t.subnodes[k]])
  {
    assert Restricted(t, done + {k}).subnodes == Restricted(t, done).subnodes[k := t.subnodes[k]];
  }

  lemma UpdateTwice<K, V>(m: map<K, V>, k: K, x: V, y: V)
    ensures m[k := x][k := y] == m[k := y]
  {
  }

  /** A node object. Its children are objects it owns: no two of them share an object. */
  class DataNode {
    var value: string
    var valueType: string
    var writable: bool
    var subnodes: map<string, DataNode>

    ghost var Model: Tree
    ghost var Repr: set<object>

    /** The fields agree with `Model`, every child is valid, and the children own disjoint parts of `Repr`. */
    ghost predicate Valid()
      reads this, Repr
      decreases Repr, 1
    {
      && this in Repr
      && Model.value == value
      && Model.valueType == valueType
      && Model.writable == writable
      && Model.subnodes.Keys == subnodes.Keys
      && (forall k :: k in subnodes ==> ChildValid(k))
      && ChildrenDisjoint()
    }

    /** `Valid()` except for what it says of the child under `key`, which may have changed in place. */
    ghost predicate ValidExcept(key: string)
      reads this, Repr
    {
      && this in Repr
      && Model.value == value
      && Model.valueType == valueType
      && Model.writable == writable
      && Model.subnodes.Keys == subnodes.Keys
      && (forall k :: k in subnodes ==> subnodes[k] in Repr)
      && (forall k :: k in subnodes && k != key ==> ChildValid(k))
      && ChildrenDisjoint()
    }

    /** The child under `k` lies in this node's footprint, is valid and holds `Model`'s child. */
    ghost predicate ChildValid(k: string)
      requires this in Repr && k in subnodes && Model.subnodes.Keys == subnodes.Keys
      reads this, Repr
      decreases Repr, 0
    {
      && subnodes[k] in Repr
      && subnodes[k].Repr <= Repr
      && this !in subnodes[k].Repr
      && subnodes[k].Valid()
      && subnodes[k].Model == Model.subnodes[k]
    }

    ghost predicate ChildrenDisjoint()
      reads this, set k | k in subnodes :: subnodes[k]
    {
      forall k, k' :: k in subnodes && k' in subnodes && k != k' ==> subnodes[k].Repr !! subnodes[k'].Repr
    }

    /** `DataNode::new()`: an empty container, not writable. */
    constructor ()
      ensures Valid() && fresh(Repr)
      ensures Model == Empty
    {
      value := "";
      valueType := "";
      writable := false;
      subnodes := map[];
      Model := Empty;
      Repr := {this};
    }

    /** Assign the value and the type, leaving writability and children as they are. */
    method SetValue(v: string, t: string)
      requires Valid()
      modifies this
      ensures Valid() && Repr == old(Repr) && subnodes == old(subnodes)
      ensures Model == old(Model).(value := v, valueType := t)
    {
      value, valueType, Model := v, t, Model.(value := v, valueType := t);
      assert forall k :: k in subnodes ==> old(ChildValid(k)) ==> ChildValid(k);
    }

    /** Assign the writability flag, leaving everything else as it is. */
    method SetWritable(w: bool)
      requires Valid()
      modifies this
      ensures Valid() && Repr == old(Repr) && subnodes == old(subnodes)
      ensures Model == old(Model).(writable := w)
    {
      writable, Model := w, Model.(writable := w);
      assert forall k :: k in subnodes ==> old(ChildValid(k)) ==> ChildValid(k);
    }

    /** `subnodes.insert(key, child)`: `child` replaces whatever was stored under `key`. */
    method Insert(key: string, child: DataNode)
      requires Valid() && child.Valid() && child.Repr !! Repr
      modifies this
      ensures Valid() && Repr == old(Repr) + child.Repr
      ensures Model == old(Model).(subnodes := old(Model).subnodes[key := child.Model])
    {
      subnodes := subnodes[key := child];
      Repr := Repr + child.Repr;
      Model := Model.(subnodes := Model.subnodes[key := child.Model]);
      assert forall k :: k in subnodes ==> ChildValid(k);
    }

    /** The derived `Clone`: a deep copy that shares no object with this node. */
    method Clone() returns (c: DataNode)
      requires Valid()
      ensures c.Valid() && fresh(c.Repr)
      ensures c.Model == Model
      decreases Repr, 1
    {
      ghost var t := Model;
      c := new DataNode();
      c.SetValue(value, valueType);
      c.SetWritable(writable);
      RestrictedNone(t);
      ghost var done: set<string> := {};
      var pending := subnodes.Keys;
      while pending != {}
        invariant pending == t.subnodes.Keys - done && done <= t.subnodes.Keys
        invariant Valid() && Model == t
        invariant c.Valid() && fresh(c.Repr)
        invariant c.Model == Restricted(t, done)
        decreases pending
      {
        var k :| k in pending;
        CopySubnode(k, c);
        RestrictedStep(t, done, k);
        pending, done := pending - {k}, done + {k};
      }
      assert done == t.subnodes.Keys;
      RestrictedAll(Model);
    }

    /** One turn of the deep copy: store a copy of the child under `key` in `c` under the same key. */
    method CopySubnode(key: string, c: DataNode)
      requires Valid() && key in subnodes
      requires c.Valid() && c.Repr !! Repr
      modifies c
      ensures c.Valid() && fresh(c.Repr - old(c.Repr)) && c.Repr !! Repr
      ensures Valid() && Model == old(Model)
      ensures c.Model == old(c.Model).(subnodes := old(c.Model).subnodes[key := Model.subnodes[key]])
      decreases Repr, 0
    {
      assert ChildValid(key);
      var child := subnodes[key].Clone();
      c.Insert(key, child);
    }

    /** `get_subnode`: a copy of the child stored under `name`, or `None` when there is none. */
    method GetSubnode(name: string) returns (r: Option<DataNode>)
      requires Valid()
      ensures r.Some? <==> name in Model.subnodes
      ensures r.Some? ==> r.value.Valid() && fresh(r.value.Repr) && r.value.Model == Model.subnodes[name]
    {
      if name in subnodes {
        assert ChildValid(name);
        var c := subnodes[name].Clone();
        return Some(c);
      }
      return None;
    }

    /**
     * `merge`: take `other`'s value and type, then merge each child of `other`
     * into the child under the same key. `other` is only read, and Rust's
     * borrow rules keep it apart from this node.
     */
    method Merge(other: DataNode)
      requires Valid() && other.Valid() && Repr !! other.Repr
      modifies Repr
      ensures Valid() && fresh(Repr - old(Repr))
      ensures Model == Merged(old(Model), other.Model)
      decreases other.Repr, 2
    {
      ghost var b := other.Model;
      SetValue(other.value, other.valueType);
      MergedOnNone(old(Model), b);
      ghost var done: set<string> := {};
      var pending := other.subnodes.Keys;
      while pending != {}
        invariant pending == b.subnodes.Keys - done && done <= b.subnodes.Keys
        invariant Valid() && fresh(Repr - old(Repr))
        invariant Repr !! other.Repr && other.Valid() && other.Model == b
        invariant Model == MergedOn(old(Model), b, done)
        decreases pending
      {
        var k :| k in pending;
        assert ChildOrEmpty(Model, k) == ChildOrEmpty(old(Model), k);
        MergeSubnode(k, other);
        MergedOnStep(old(Model), b, done, k);
        pending, done := pending - {k}, done + {k};
      }
      assert done == b.subnodes.Keys;
    }

    /** One turn of `merge`'s loop: merge `other`'s child under `key` into this node's, inserting an empty one first if needed. */
    method MergeSubnode(key: string, other: DataNode)
      requires Valid() && other.Valid() && Repr !! other.Repr
      requires key in other.subnodes
      modifies Repr
      ensures Valid() && fresh(Repr - old(Repr)) && Repr !! other.Repr
      ensures other.Valid() && other.Model == old(other.Model)
      ensures Model == old(Model).(subnodes := old(Model).subnodes[key := Merged(ChildOrEmpty(old(Model), key), other.Model.subnodes[key])])
      decreases other.Repr, 1
    {
      EnsureSubnode(key);
      ghost var was := Model.subnodes[key];
      MergeExisting(key, other);
      UpdateTwice(old(Model).subnodes, key, was, Model.subnodes[key]);
    }

    /** Merge `other`'s child under `key` into the child this node already has under `key`. */
    method MergeExisting(key: string, other: DataNode)
      requires Valid() && other.Valid() && Repr !! other.Repr
      requires key in subnodes && key in other.subnodes
      modifies Repr
      ensures Valid() && fresh(Repr - old(Repr)) && Repr !! other.Repr
      ensures other.Valid() && other.Model == old(other.Model)
      ensures Model == old(Model).(subnodes := old(Model).subnodes[key := Merged(old(Model).subnodes[key], other.Model.subnodes[key])])
      decreases other.Repr, 0
    {
      var child := subnodes[key];
      label before:
      assert ChildValid(key);
      assert other.ChildValid(key);
      child.Merge(other.subnodes[key]);
      SiblingsUnchanged@before(key);
      Refresh(key);
    }

    /** Insert an empty node under `key` unless there is a child there already. */
    method EnsureSubnode(key: string)
      requires Valid()
      modifies this
      ensures Valid() && fresh(Repr - old(Repr))
      ensures key in subnodes
      ensures Model == old(Model).(subnodes := old(Model).subnodes[key := ChildOrEmpty(old(Model), key)])
    {
      if key !in subnodes {
        var tmp := new DataNode();
        Insert(key, tmp);
      }
    }

    /** The child under `key` changed within its own footprint: the other children are as they were. */
    twostate lemma SiblingsUnchanged(key: string)
      requires old(Valid()) && key in old(subnodes)
      requires unchanged(this)
      requires forall o: object :: o in old(Repr) && o !in old(subnodes[key].Repr) ==> unchanged(o)
      requires fresh(subnodes[key].Repr - old(subnodes[key].Repr))
      ensures ValidExcept(key)
      ensures forall k :: k in subnodes && k != key ==> subnodes[k].Repr !! subnodes[key].Repr
    {
      forall k | k in subnodes && k != key
        ensures subnodes[k].Repr == old(subnodes[k].Repr)
        ensures subnodes[k].Repr !! subnodes[key].Repr
        ensures ChildValid(k)
      {
        var c := subnodes[k];
        assert old(ChildValid(k));
        assert old(c.Valid());
        assert c in old(c.Repr);
        assert old(c.Repr !! subnodes[key].Repr);
      }
      assert ChildrenDisjoint() by {
        forall k1, k2 | k1 in subnodes && k2 in subnodes && k1 != k2
          ensures subnodes[k1].Repr !! subnodes[k2].Repr
        {
          if k1 != key && k2 != key {
            assert old(ChildrenDisjoint());
          }
        }
      }
    }

    /** Take the new footprint and value of the child under `key`, which changed in place. */
    ghost method Refresh(key: string)
      requires ValidExcept(key) && key in subnodes
      requires subnodes[key].Valid() && this !in subnodes[key].Repr
      requires forall k :: k in subnodes && k != key ==> subnodes[k].Repr !! subnodes[key].Repr
      modifies this
      ensures Valid() && Repr == old(Repr) + subnodes[key].Repr
      ensures Model == old(Model).(subnodes := old(Model).subnodes[key := subnodes[key].Model])
    {
      var child := subnodes[key];
      Repr, Model := Repr + child.Repr, Model.(subnodes := Model.subnodes[key := child.Model]);
      forall k | k in subnodes
        ensures ChildValid(k)
      {
        if k != key {
          assert old(ChildValid(k));
          assert old(subnodes[k].Valid());
        }
      }
      forall k1, k2 | k1 in subnodes && k2 in subnodes && k1 != k2
        ensures subnodes[k1].Repr !! subnodes[k2].Repr
      {
        if k1 != key && k2 != key {
          assert old(ChildrenDisjoint());
        }
      }
    }
  }
}
