/** `recursive_flatten` / `flatten`: a nested tree becomes one level of dot-joined keys. */
module Flatten {
  import opened Outcomes
  import opened Trees
  import opened Dotted

  /** What one `key: value` item of the loop contributes: the leaf itself under
      `prefix + key`, or the flattening of the sub-object under `prefix + key + "."`. */
  ghost function FlattenEntry(prefix: string, key: string, t: Tree): map<string, string>
    decreases t, 1, 0
  {
    match t
    case Leaf(s) => map[prefix + key := s]
    case Node(m) => FlattenKeys(prefix + key + ".", t, m.Keys)
  }

  /** The loop over the keys `ks` of the object `t`: a later item's output
      overwrites an earlier one's (`output.update`). */
  ghost function FlattenKeys(prefix: string, t: Tree, ks: set<string>): map<string, string>
    requires t.Node? && ks <= t.children.Keys
    decreases t, 0, |ks|
  {
    if ks == {} then map[]
    else
      var k := Pick(ks);
      FlattenKeys(prefix, t, ks - {k}) + FlattenEntry(prefix, k, t.children[k])
  }

  /** `recursive_flatten(prefix, data)`: every entry comes from a leaf, keyed by
      the prefix and the dotted path to it, and every leaf produces an entry under
      that key. Sub-objects, empty or not, contribute no entry of their own. */
  ghost function RecursiveFlatten(prefix: string, data: Dict): (r: map<string, string>)
    ensures forall p | p in r :: KeyOfLeaf(Node(data), prefix, p, r[p])
    ensures forall path | LeafAt(Node(data), path).Some? :: prefix + Join(path) in r
  {
    var t := Node(data);
    var r := FlattenKeys(prefix, t, data.Keys);
    KeysSound(prefix, t, data.Keys);
    KeysComplete(prefix, t, data.Keys);
    assert forall p | p in r :: KeyOfLeaf(t, prefix, p, r[p]) by {
      forall p | p in r
        ensures KeyOfLeaf(t, prefix, p, r[p])
      {
        var path :| |path| >= 1 && path[0] in data.Keys && LeafAt(t, path) == Some(r[p]) && p == prefix + Join(path);
      }
    }
    assert forall path | LeafAt(t, path).Some? :: prefix + Join(path) in r by {
      forall path | LeafAt(t, path).Some?
        ensures prefix + Join(path) in r
      {
        LeafOnlyAtEnd(t, path);
      }
    }
    r
  }

  /** `flatten(data)`: one entry per leaf, keyed by the dot-joined path to it. */
  ghost function FlattenDict(data: Dict): (r: map<string, string>)
    ensures forall p | p in r :: KeyOfLeaf(Node(data), "", p, r[p])
    ensures forall path | LeafAt(Node(data), path).Some? :: Join(path) in r
  {
    assert forall path | LeafAt(Node(data), path).Some? :: "" + Join(path) == Join(path);
    RecursiveFlatten("", data)
  }

  /** The number of leaves below `t`, a leaf counting as one. */
  ghost function LeafCount(t: Tree): nat
    decreases t, 1, 0
  {
    match t
    case Leaf(_) => 1
    case Node(m) => LeafCountKeys(t, m.Keys)
  }

  ghost function LeafCountKeys(t: Tree, ks: set<string>): nat
    requires t.Node? && ks <= t.children.Keys
    decreases t, 0, |ks|
  {
    if ks == {} then 0
    else
      var k := Pick(ks);
      LeafCountKeys(t, ks - {k}) + LeafCount(t.children[k])
  }

  /** Every entry of one item's output comes from a leaf below that item. */
  lemma {:induction false} EntrySound(prefix: string, key: string, t: Tree)
    ensures forall p | p in FlattenEntry(prefix, key, t) ::
      exists path :: LeafAt(t, path) == Some(FlattenEntry(prefix, key, t)[p]) && p == prefix + Join([key] + path)
    decreases t, 1, 0
  {
    var r := FlattenEntry(prefix, key, t);
    match t
    case Leaf(s) =>
      forall p | p in r
        ensures exists path :: LeafAt(t, path) == Some(r[p]) && p == prefix + Join([key] + path)
      {
        assert LeafAt(t, []) == Some(r[p]);
        JoinCons(key, []);
      }
    case Node(m) =>
      var pre := prefix + key + ".";
      assert r == FlattenKeys(pre, t, m.Keys);
      KeysSound(pre, t, m.Keys);
      forall p | p in r
        ensures exists path :: LeafAt(t, path) == Some(r[p]) && p == prefix + Join([key] + path)
      {
        var path :| |path| >= 1 && path[0] in m.Keys && LeafAt(t, path) == Some(r[p]) && p == pre + Join(path);
        JoinCons(key, path);
        assert prefix + (key + "." + Join(path)) == pre + Join(path);
      }
  }

  /** Every leaf below one item appears in that item's output. */
  lemma {:induction false} EntryComplete(prefix: string, key: string, t: Tree)
    ensures forall path | LeafAt(t, path).Some? ::
      prefix + Join([key] + path) in FlattenEntry(prefix, key, t)
    decreases t, 1, 0
  {
    var r := FlattenEntry(prefix, key, t);
    match t
    case Leaf(s) =>
      forall path | LeafAt(t, path).Some?
        ensures prefix + Join([key] + path) in r
      {
        LeafOnlyAtEnd(t, path);
        JoinCons(key, path);
      }
    case Node(m) =>
      var pre := prefix + key + ".";
      assert r == FlattenKeys(pre, t, m.Keys);
      KeysComplete(pre, t, m.Keys);
      forall path | LeafAt(t, path).Some?
        ensures prefix + Join([key] + path) in r
      {
        assert |path| >= 1 && path[0] in m.Keys;
        JoinCons(key, path);
        assert prefix + (key + "." + Join(path)) == pre + Join(path);
      }
  }

  /** Every entry of the loop's output comes from a leaf below one of the keys `ks`. */
  lemma {:induction false} KeysSound(prefix: string, t: Tree, ks: set<string>)
    requires t.Node? && ks <= t.children.Keys
    ensures forall p | p in FlattenKeys(prefix, t, ks) ::
      exists path :: |path| >= 1 && path[0] in ks && LeafAt(t, path) == Some(FlattenKeys(prefix, t, ks)[p])
        && p == prefix + Join(path)
    decreases t, 0, |ks|
  {
    if ks != {} {
      var k := Pick(ks);
      var child := t.children[k];
      var rest := FlattenKeys(prefix, t, ks - {k});
      var own := FlattenEntry(prefix, k, child);
      var r := FlattenKeys(prefix, t, ks);
      assert r == rest + own;
      KeysSound(prefix, t, ks - {k});
      EntrySound(prefix, k, child);
      forall p | p in r
        ensures exists path :: |path| >= 1 && path[0] in ks && LeafAt(t, path) == Some(r[p]) && p == prefix + Join(path)
      {
        if p in own {
          var tail :| LeafAt(child, tail) == Some(own[p]) && p == prefix + Join([k] + tail);
          var path := [k] + tail;
          assert path[1..] == tail;
          assert LeafAt(t, path) == Some(r[p]);
        } else {
          var path :| |path| >= 1 && path[0] in ks - {k} && LeafAt(t, path) == Some(rest[p]) && p == prefix + Join(path);
          assert LeafAt(t, path) == Some(r[p]);
        }
      }
    }
  }

  /** Every leaf below one of the keys `ks` appears in the loop's output. */
  lemma {:induction false} KeysComplete(prefix: string, t: Tree, ks: set<string>)
    requires t.Node? && ks <= t.children.Keys
    ensures forall path | |path| >= 1 && path[0] in ks && LeafAt(t, path).Some? ::
      prefix + Join(path) in FlattenKeys(prefix, t, ks)
    decreases t, 0, |ks|
  {
    if ks != {} {
      var k := Pick(ks);
      var child := t.children[k];
      var r := FlattenKeys(prefix, t, ks);
      assert r == FlattenKeys(prefix, t, ks - {k}) + FlattenEntry(prefix, k, child);
      KeysComplete(prefix, t, ks - {k});
      EntryComplete(prefix, k, child);
      forall path | |path| >= 1 && path[0] in ks && LeafAt(t, path).Some?
        ensures prefix + Join(path) in r
      {
        if path[0] == k {
          var tail := path[1..];
          assert [k] + tail == path;
          assert LeafAt(child, tail).Some?;
        } else {
          assert path[0] in ks - {k};
        }
      }
    }
  }

  /** `p` is the dotted key, below `prefix`, of a leaf of `t` whose text is `v`. */
  ghost predicate KeyOfLeaf(t: Tree, prefix: string, p: string, v: string)
  {
    exists path :: |path| >= 1 && LeafAt(t, path) == Some(v) && p == prefix + Join(path)
  }

  /** With no dotted keys each leaf appears exactly once: the entry under a leaf's
      dotted path holds that leaf's text, and no other leaf shares the key. */
  lemma FlattenExact(prefix: string, data: Dict)
    requires NoDots(Node(data))
    ensures forall path | LeafAt(Node(data), path).Some? ::
      prefix + Join(path) in RecursiveFlatten(prefix, data)
      && RecursiveFlatten(prefix, data)[prefix + Join(path)] == LeafAt(Node(data), path).value
    ensures forall path1, path2 | LeafAt(Node(data), path1).Some? && LeafAt(Node(data), path2).Some? ::
      prefix + Join(path1) == prefix + Join(path2) ==> path1 == path2
  {
    var t := Node(data);
    var r := RecursiveFlatten(prefix, data);
    forall path1, path2 | LeafAt(t, path1).Some? && LeafAt(t, path2).Some? && prefix + Join(path1) == prefix + Join(path2)
      ensures path1 == path2
    {
      SameLeafKey(prefix, t, path1, path2);
    }
    forall path | LeafAt(t, path).Some?
      ensures r[prefix + Join(path)] == LeafAt(t, path).value
    {
      var q := prefix + Join(path);
      assert KeyOfLeaf(t, prefix, q, r[q]);
      var other :| |other| >= 1 && LeafAt(t, other) == Some(r[q]) && q == prefix + Join(other);
      SameLeafKey(prefix, t, path, other);
    }
  }

  /** Two leaf paths of a dot-free tree that flatten to the same key are the same path. */
  lemma SameLeafKey(prefix: string, t: Tree, path1: seq<string>, path2: seq<string>)
    requires NoDots(t) && t.Node?
    requires LeafAt(t, path1).Some? && LeafAt(t, path2).Some?
    requires prefix + Join(path1) == prefix + Join(path2)
    ensures path1 == path2
  {
    assert |path1| >= 1 && |path2| >= 1;
    assert Join(path1) == (prefix + Join(path1))[|prefix|..];
    assert Join(path2) == (prefix + Join(path2))[|prefix|..];
    LeafPathDotFree(t, path1);
    LeafPathDotFree(t, path2);
    JoinInjective(path1, path2);
  }

  lemma {:induction false} EntryCount(prefix: string, key: string, t: Tree)
    requires NoDots(t)
    ensures |FlattenEntry(prefix, key, t)| == LeafCount(t)
    decreases t, 1, 0
  {
    match t
    case Leaf(s) =>
    case Node(m) =>
      KeysCount(prefix + key + ".", t, m.Keys);
  }

  lemma {:induction false} KeysCount(prefix: string, t: Tree, ks: set<string>)
    requires t.Node? && ks <= t.children.Keys
    requires NoDots(t)
    ensures |FlattenKeys(prefix, t, ks)| == LeafCountKeys(t, ks)
    decreases t, 0, |ks|
  {
    if ks != {} {
      var k := Pick(ks);
      var child := t.children[k];
      var rest := FlattenKeys(prefix, t, ks - {k});
      var own := FlattenEntry(prefix, k, child);
      KeysCount(prefix, t, ks - {k});
      EntryCount(prefix, k, child);
      KeysSound(prefix, t, ks - {k});
      EntrySound(prefix, k, child);
      forall p | p in rest && p in own
        ensures false
      {
        var path1 :| |path1| >= 1 && path1[0] in ks - {k} && LeafAt(t, path1) == Some(rest[p]) && p == prefix + Join(path1);
        var tail :| LeafAt(child, tail) == Some(own[p]) && p == prefix + Join([k] + tail);
        var path2 := [k] + tail;
        assert path2[1..] == tail;
        assert LeafAt(t, path2).Some?;
        SameLeafKey(prefix, t, path1, path2);
      }
      assert rest.Keys !! own.Keys;
      assert (rest + own).Keys == rest.Keys + own.Keys;
    }
  }

  /** With no dotted keys the flattening has exactly one entry per leaf. */
  lemma FlattenCount(prefix: string, data: Dict)
    requires NoDots(Node(data))
    ensures |RecursiveFlatten(prefix, data)| == LeafCount(Node(data))
  {
    KeysCount(prefix, Node(data), data.Keys);
  }
}
