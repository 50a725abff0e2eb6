/** Translation trees: parsed translation files, nested string-keyed objects with string leaves. */
module Trees {
  import opened Outcomes

  datatype Tree = Leaf(text: string) | Node(children: map<string, Tree>)

  /** A JSON object at the top of a translation file, or any nested object. */
  type Dict = map<string, Tree>

  /** A fixed but unspecified element of a non-empty set: the model of Python's
      iteration order over a dict or set, which decides only which value wins a
      key collision. */
  ghost function Pick<T>(s: set<T>): (x: T)
    requires s != {}
    ensures x in s
  {
    var x :| x in s; x
  }

  /** Python truthiness of a tree: the empty string and the empty object are falsy. */
  predicate Truthy(t: Tree)
    ensures !Truthy(t) <==> t == Leaf("") || t == Node(map[])
  {
    match t
    case Leaf(s) => s != ""
    case Node(m) => m != map[]
  }

  /** Python's `d.get(key)`. */
  function Get(d: Dict, key: string): (r: Option<Tree>)
    ensures r.Some? <==> key in d
    ensures r.Some? ==> r.value == d[key]
  {
    if key in d then Some(d[key]) else None
  }

  /** No key at any depth contains a `.`. */
  predicate NoDots(t: Tree)
    decreases t
  {
    match t
    case Leaf(_) => true
    case Node(m) => forall k | k in m :: '.' !in k && NoDots(m[k])
  }

  /** The leaf reached from `t` by following the keys of `path`, if the path ends at a leaf. */
  function LeafAt(t: Tree, path: seq<string>): Option<string>
    decreases |path|
  {
    if path == [] then
      if t.Leaf? then Some(t.text) else None
    else if t.Node? && path[0] in t.children then
      LeafAt(t.children[path[0]], path[1..])
    else
      None
  }

  /** A leaf is reached only by the empty path; an object only by longer ones. */
  lemma LeafOnlyAtEnd(t: Tree, path: seq<string>)
    requires LeafAt(t, path).Some?
    ensures t.Leaf? <==> path == []
  {
  }

  /** Every key on a path to a leaf of a dot-free tree is itself dot-free. */
  lemma {:induction false} LeafPathDotFree(t: Tree, path: seq<string>)
    requires NoDots(t)
    requires LeafAt(t, path).Some?
    ensures forall i | 0 <= i < |path| :: '.' !in path[i]
    decreases |path|
  {
    if path != [] {
      LeafPathDotFree(t.children[path[0]], path[1..]);
      forall i | 0 <= i < |path|
        ensures '.' !in path[i]
      {
        if i > 0 {
          assert path[i] == path[1..][i - 1];
        }
      }
    }
  }
}
