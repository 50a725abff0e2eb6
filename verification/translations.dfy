/** `async_get_translations`: the flat response for one language, with English
    filling the keys the language lacks. */
module Translations {
  import opened Outcomes
  import opened Trees
  import opened Dotted
  import opened Flatten
  import opened CacheFill

  /** The components to fetch: the one integration asked for; otherwise the loaded
      components, with the config-flow domains added when `configFlow` is true
      (None counts as false). */
  function SelectComponents(integration: Option<string>, configFlow: Option<bool>,
                            loaded: set<string>, configFlows: set<string>): (r: set<string>)
    ensures integration.Some? ==> r == {integration.value}
    ensures integration.None? ==> loaded <= r <= loaded + configFlows
    ensures integration.None? && configFlow != Some(true) ==> r == loaded
    ensures integration.None? && configFlow == Some(true) ==> configFlows <= r
  {
    if integration.Some? then {integration.value}
    else if configFlow == Some(true) then loaded + configFlows
    else loaded
  }

  /** `value or {}`: a missing or falsy category becomes an empty object. */
  function OrEmpty(value: Option<Tree>): (r: Tree)
    ensures Truthy(r) ==> value == Some(r)
    ensures value.Some? && Truthy(value.value) ==> r == value.value
    ensures !Truthy(r) ==> r == Node(map[])
  {
    if value.Some? && Truthy(value.value) then value.value else Node(map[])
  }

  /** Every domain's tree narrowed to the one category. */
  function NarrowCategory(resources: map<string, Dict>, category: string): (r: map<string, Dict>)
    ensures r.Keys == resources.Keys
    ensures forall domain | domain in r :: r[domain].Keys == {category}
    ensures forall domain | domain in r ::
      if category in resources[domain] && Truthy(resources[domain][category])
      then r[domain][category] == resources[domain][category]
      else r[domain][category] == Node(map[])
  {
    map domain | domain in resources :: map[category := OrEmpty(Get(resources[domain], category))]
  }

  /** The flat map for one language: narrowed when a category is given, wrapped
      under `component`, then flattened. Every key starts with `component.`. */
  ghost function Assemble(resources: map<string, Dict>, category: Option<string>): (r: map<string, string>)
    ensures forall k | k in r :: "component." <= k
  {
    var narrowed := if category.Some? then NarrowCategory(resources, category.value) else resources;
    var inner := map domain | domain in narrowed :: Node(narrowed[domain]);
    WrappedKeys("component", inner);
    assert "component" + "." == "component.";
    FlattenDict(map["component" := Node(inner)])
  }

  /** `{**base, **primary}`: the fallback entries overridden key by key. */
  function MergeFallback(base: map<string, string>, primary: map<string, string>): (r: map<string, string>)
    ensures r.Keys == base.Keys + primary.Keys
    ensures forall k | k in primary :: r[k] == primary[k]
    ensures forall k | k in base && k !in primary :: r[k] == base[k]
  {
    base + primary
  }

  /** A response: the cache afterwards and the flat map or the failure. */
  datatype Response = Response(cache: Cache, result: Result<map<string, string>>)

  /** The response from the primary fetch's outcome and, for a language other
      than English, the English fetch's: the primary failure first, then the
      English one, else the English flat map overridden by the primary one. */
  ghost function Respond(cache: Cache, own: Result<map<string, Dict>>, base: Option<Result<map<string, Dict>>>,
                         category: Option<string>): (r: Response)
    ensures r.cache == cache
    ensures r.result.Ok? <==> own.Ok? && (base.None? || base.value.Ok?)
    ensures own.Err? ==> r.result == Err(own.failure)
    ensures r.result.Ok? ==> forall k | k in r.result.value :: "component." <= k
    ensures r.result.Ok? && base.None? ==> r.result.value == Assemble(own.value, category)
    ensures r.result.Ok? && base.Some? ==>
      var primary := Assemble(own.value, category);
      var english := Assemble(base.value.value, category);
      r.result.value.Keys == primary.Keys + english.Keys
      && (forall k | k in primary :: r.result.value[k] == primary[k])
      && (forall k | k in english && k !in primary :: r.result.value[k] == english[k])
  {
    match own
    case Err(e) => Response(cache, Err(e))
    case Ok(resources) =>
      if base.None? then Response(cache, Ok(Assemble(resources, category)))
      else match base.value
        case Err(e) => Response(cache, Err(e))
        case Ok(fallback) =>
          Response(cache, Ok(MergeFallback(Assemble(fallback, category), Assemble(resources, category))))
  }

  /** One call, its fetches taken in sequence: the primary language, then English
      unless the primary language is English. A failure of the primary fetch is
      the one reported; the English fetch still runs. */
  ghost function GetTranslations(cache: Cache, language: string, category: Option<string>,
                                 integration: Option<string>, configFlow: Option<bool>,
                                 loaded: set<string>, configFlows: set<string>,
                                 registry: Registry, loader: Loader): (r: Response)
    ensures r.result.Ok? ==> forall k | k in r.result.value :: "component." <= k
    ensures forall l | l != language && l != "en" :: (l in r.cache <==> l in cache) && (l in cache ==> r.cache[l] == cache[l])
    ensures forall l, c | l in cache && c in cache[l] :: l in r.cache && c in r.cache[l] && r.cache[l][c] == cache[l][c]
    ensures var components := SelectComponents(integration, configFlow, loaded, configFlows);
      var primary := FillCache(cache, language, components, registry, loader);
      if language == "en" then
        r.cache == primary.cache
        && (r.result.Ok? <==> primary.result.Ok?)
        && (r.result.Ok? ==> r.result.value == Assemble(primary.result.value, category))
      else
        var english := FillCache(primary.cache, "en", components, registry, loader);
        r.cache == english.cache
        && (r.result.Ok? <==> primary.result.Ok? && english.result.Ok?)
        && (r.result.Ok? ==>
          var own := Assemble(primary.result.value, category);
          var base := Assemble(english.result.value, category);
          r.result.value.Keys == own.Keys + base.Keys
          && (forall k | k in own :: r.result.value[k] == own[k])
          && (forall k | k in base && k !in own :: r.result.value[k] == base[k]))
  {
    var components := SelectComponents(integration, configFlow, loaded, configFlows);
    var primary := FillCache(cache, language, components, registry, loader);
    if language == "en" then
      Respond(primary.cache, primary.result, None, category)
    else
      var english := FillCache(primary.cache, "en", components, registry, loader);
      Respond(english.cache, primary.result, Some(english.result), category)
  }

  /** Flattening an object wrapped under one key puts that key and a dot in front
      of every entry. */
  lemma {:induction false} WrappedKeys(key: string, inner: Dict)
    ensures forall k | k in FlattenDict(map[key := Node(inner)]) :: key + "." <= k
  {
    var data := map[key := Node(inner)];
    var r := FlattenDict(data);
    forall k | k in r
      ensures key + "." <= k
    {
      WrappedKey(key, inner, k, r[k]);
    }
  }

  /** A leaf's dotted key below `{key: obj}` starts with `key.`. */
  lemma WrappedKey(key: string, inner: Dict, k: string, v: string)
    requires KeyOfLeaf(Node(map[key := Node(inner)]), "", k, v)
    ensures key + "." <= k
  {
    var data := map[key := Node(inner)];
    var path :| |path| >= 1 && LeafAt(Node(data), path) == Some(v) && k == "" + Join(path);
    assert path[0] == key;
    assert LeafAt(Node(inner), path[1..]).Some?;
    LeafOnlyAtEnd(Node(inner), path[1..]);
    JoinCons(key, path[1..]);
    assert [path[0]] + path[1..] == path;
    assert k == (key + ".") + Join(path[1..]);
  }

  /** Repeating a successful call returns the same response and leaves the cache
      as it was, whatever the registry and the loader would now answer: nothing
      is looked up or loaded twice. */
  lemma {:induction false} RepeatTranslations(cache: Cache, language: string, category: Option<string>,
                                              integration: Option<string>, configFlow: Option<bool>,
                                              loaded: set<string>, configFlows: set<string>, registry: Registry, loader: Loader,
                                              registry': Registry, loader': Loader)
    ensures var first := GetTranslations(cache, language, category, integration, configFlow, loaded, configFlows, registry, loader);
      first.result.Ok? ==>
        GetTranslations(first.cache, language, category, integration, configFlow, loaded, configFlows, registry', loader') == first
  {
    var first := GetTranslations(cache, language, category, integration, configFlow, loaded, configFlows, registry, loader);
    if first.result.Ok? {
      var components := SelectComponents(integration, configFlow, loaded, configFlows);
      var primary := FillCache(cache, language, components, registry, loader);
      if language == "en" {
        RepeatFill(cache, language, components, registry, loader, registry', loader');
      } else {
        var english := FillCache(primary.cache, "en", components, registry, loader);
        assert first.cache == english.cache;
        assert components <= first.cache[language].Keys && primary.cache[language] == first.cache[language];
        NothingToFill(first.cache, language, components, registry', loader');
        RepeatFill(primary.cache, "en", components, registry, loader, registry', loader');
      }
    }
  }
}
