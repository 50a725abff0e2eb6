/** `build_resources`: per-component trees folded into per-domain trees. */
module Aggregate {
  import opened Trees
  import opened Dotted

  /** The domains the ids of `components` are filed under. */
  function Domains(components: set<string>): set<string>
  {
    set c | c in components :: FirstSegment(c)
  }

  /** Some requested id filed under `domain` has `key: v` at the top of its cached tree. */
  ghost predicate Contributed(cache: map<string, Dict>, components: set<string>, domain: string, key: string, v: Tree)
  {
    exists c :: c in components && c in cache && FirstSegment(c) == domain && key in cache[c] && cache[c][key] == v
  }

  /** The response for `components`: each id's cached tree shallow-merged into the
      tree of the domain before its first dot, ids taken in an unspecified order
      (a later id's top-level key overwrites an earlier one's). */
  ghost function BuildResources(cache: map<string, Dict>, components: set<string>): (r: map<string, Dict>)
    requires components <= cache.Keys
    ensures r.Keys == Domains(components)
    ensures forall c | c in components :: cache[c].Keys <= r[FirstSegment(c)].Keys
    ensures forall domain, key | domain in r && key in r[domain] ::
      Contributed(cache, components, domain, key, r[domain][key])
    decreases |components|
  {
    if components == {} then map[]
    else
      var c := Pick(components);
      var acc := BuildResources(cache, components - {c});
      var domain := FirstSegment(c);
      var merged := if domain in acc then acc[domain] else map[];
      acc[domain := merged + cache[c]]
  }

  /** A top-level key only one requested id of a domain has keeps that id's value:
      which id wins a collision is the only thing iteration order decides. */
  lemma SoleContributor(cache: map<string, Dict>, components: set<string>, c: string, key: string)
    requires components <= cache.Keys
    requires c in components && key in cache[c]
    requires forall c' | c' in components && c' != c && FirstSegment(c') == FirstSegment(c) :: key !in cache[c']
    ensures BuildResources(cache, components)[FirstSegment(c)][key] == cache[c][key]
  {
    var r := BuildResources(cache, components);
    assert Contributed(cache, components, FirstSegment(c), key, r[FirstSegment(c)][key]);
  }
}
