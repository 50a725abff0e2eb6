/** Dotted identifiers: Python's `str.split(".")` and its inverse `".".join`. */
module Dotted {

  /** `s.split(".")`: the dot-free runs of `s` between its dots, empty runs included. */
  function Split(s: string): (parts: seq<string>)
    ensures |parts| >= 1
    ensures forall i | 0 <= i < |parts| :: '.' !in parts[i]
    decreases |s|
  {
    if s == [] then [""]
    else
      var rest := Split(s[1..]);
      if s[0] == '.' then [""] + rest
      else [[s[0]] + rest[0]] + rest[1..]
  }

  /** `".".join(parts)`. */
  function Join(parts: seq<string>): string
    requires |parts| >= 1
    decreases |parts|
  {
    if |parts| == 1 then parts[0] else parts[0] + "." + Join(parts[1..])
  }

  /** Joining a longer path puts a dot after its first key. */
  lemma JoinCons(key: string, path: seq<string>)
    ensures |path| == 0 ==> Join([key] + path) == key
    ensures |path| >= 1 ==> Join([key] + path) == key + "." + Join(path)
  {
    assert ([key] + path)[1..] == path;
  }

  lemma JoinConsChar(c: char, parts: seq<string>)
    requires |parts| >= 1
    ensures Join([[c] + parts[0]] + parts[1..]) == [c] + Join(parts)
  {
    var q := [[c] + parts[0]] + parts[1..];
    if |parts| > 1 {
      assert q[1..] == parts[1..];
    }
  }

  /** Joining the pieces of a split gives back the original string. */
  lemma {:induction false} JoinSplit(s: string)
    ensures Join(Split(s)) == s
    decreases |s|
  {
    if s != [] {
      JoinSplit(s[1..]);
      var rest := Split(s[1..]);
      assert s == [s[0]] + s[1..];
      if s[0] == '.' {
        assert ([""] + rest)[1..] == rest;
      } else {
        JoinConsChar(s[0], rest);
      }
    }
  }

  lemma {:induction false} SplitDotFreePrefix(a: string, s: string)
    requires '.' !in a
    ensures Split(a + s) == [a + Split(s)[0]] + Split(s)[1..]
    decreases |a|
  {
    if a == [] {
      assert a + s == s;
      assert a + Split(s)[0] == Split(s)[0];
      assert Split(s) == [Split(s)[0]] + Split(s)[1..];
    } else {
      SplitDotFreePrefix(a[1..], s);
      assert (a + s)[1..] == a[1..] + s;
      assert [a[0]] + (a[1..] + Split(s)[0]) == a + Split(s)[0];
    }
  }

  /** Splitting a join of dot-free pieces gives back the pieces. */
  lemma {:induction false} SplitJoin(parts: seq<string>)
    requires |parts| >= 1
    requires forall i | 0 <= i < |parts| :: '.' !in parts[i]
    ensures Split(Join(parts)) == parts
    decreases |parts|
  {
    if |parts| == 1 {
      SplitDotFreePrefix(parts[0], "");
      assert parts[0] + "" == parts[0];
    } else {
      var tail := parts[1..];
      assert forall i | 0 <= i < |tail| :: '.' !in tail[i] by {
        forall i | 0 <= i < |tail| ensures '.' !in tail[i] {
          assert tail[i] == parts[i + 1];
        }
      }
      SplitJoin(tail);
      var j := Join(tail);
      assert ("." + j)[1..] == j;
      assert Split("." + j) == [""] + Split(j);
      SplitDotFreePrefix(parts[0], "." + j);
      assert parts[0] + "." + j == parts[0] + ("." + j);
      assert parts[0] + "" == parts[0];
    }
  }

  /** Distinct sequences of dot-free keys have distinct dotted joins. */
  lemma {:induction false} JoinInjective(a: seq<string>, b: seq<string>)
    requires |a| >= 1 && |b| >= 1
    requires forall i | 0 <= i < |a| :: '.' !in a[i]
    requires forall i | 0 <= i < |b| :: '.' !in b[i]
    requires Join(a) == Join(b)
    ensures a == b
  {
    SplitJoin(a);
    SplitJoin(b);
  }

  lemma {:induction false} JoinSnoc(parts: seq<string>)
    requires |parts| >= 2
    ensures Join(parts) == Join(parts[..|parts| - 1]) + "." + parts[|parts| - 1]
    decreases |parts|
  {
    var n := |parts|;
    if n > 2 {
      JoinSnoc(parts[1..]);
      assert parts[1..][..n - 2] == parts[..n - 1][1..];
    }
  }

  /** `d` is the text of `id` before its first dot (all of `id` when it has none). */
  predicate IsFirstSegment(d: string, id: string)
  {
    '.' !in d && |d| <= |id| && id[..|d|] == d && (|d| == |id| || id[|d|] == '.')
  }

  /** `d` is the text of `id` after its last dot (all of `id` when it has none). */
  predicate IsLastSegment(d: string, id: string)
  {
    '.' !in d && |d| <= |id| && id[|id| - |d|..] == d && (|d| == |id| || id[|id| - |d| - 1] == '.')
  }

  /** The domain `build_resources` files an id under: `id` if dot-free, else `id.split(".", 1)[0]`. */
  function FirstSegment(id: string): (d: string)
    ensures IsFirstSegment(d, id)
  {
    if '.' !in id then id
    else
      var parts := Split(id);
      JoinSplit(id);
      if |parts| == 1 then
        assert false; id
      else
        assert id == parts[0] + ("." + Join(parts[1..]));
        parts[0]
  }

  /** The domain path resolution and cache fill use: `id.split(".")[-1]`. */
  function LastSegment(id: string): (d: string)
    ensures IsLastSegment(d, id)
  {
    var parts := Split(id);
    JoinSplit(id);
    if |parts| >= 2 then
      JoinSnoc(parts);
      assert id == (Join(parts[..|parts| - 1]) + ".") + parts[|parts| - 1];
      parts[|parts| - 1]
    else
      parts[0]
  }

  /** A dot-free id is its own first and last segment; a two-segment id `a.b`
      is aggregated under `a` but resolved against `b`. */
  lemma {:induction false} SegmentsOfSimpleIds(a: string, b: string)
    requires '.' !in a && '.' !in b
    ensures FirstSegment(a) == a && LastSegment(a) == a
    ensures Split(a + "." + b) == [a, b]
    ensures FirstSegment(a + "." + b) == a && LastSegment(a + "." + b) == b
  {
    SplitJoin([a, b]);
    assert Join([a, b]) == a + "." + b;
    SplitJoin([a]);
  }
}
