/** `async_get_component_resources`: fill one language's cache with the requested
    components, then aggregate them per domain. */
module CacheFill {
  import opened Outcomes
  import opened Trees
  import opened Dotted
  import opened Paths
  import opened Aggregate

  /** One language's cache: component id to its tree, `{}` marking "no file". */
  type Partition = map<string, Dict>

  /** The process-wide cache: language to partition. */
  type Cache = map<string, Partition>

  /** The integration registry (`async_get_integration`): None for an unknown domain. */
  type Registry = string -> Option<Integration>

  /** The document loader (`load_json`): None when the file cannot be read or parsed. */
  type Loader = string -> Option<Tree>

  /** A fill's effect on one partition: the partition afterwards, the failure that
      aborted the load if any, and the files handed to the loader. */
  datatype PartitionFill = PartitionFill(part: Partition, failure: Option<Failure>, files: map<string, string>)

  /** One fill: the cache afterwards, the aggregated response or the failure that
      aborted it, the domains it looked up and the files it handed to the loader. */
  datatype Fill = Fill(cache: Cache, result: Result<map<string, Dict>>, lookedUp: set<string>, files: map<string, string>)

  /** `hass.data[...].setdefault(language, {})`, read side. */
  function PartitionOf(cache: Cache, language: string): Partition
  {
    if language in cache then cache[language] else map[]
  }

  /** The registry domains of some ids: the last segment of each. */
  function MissingDomains(missing: set<string>): set<string>
  {
    set c | c in missing :: LastSegment(c)
  }

  /** The concurrent registry lookups: all of them, or the failure of one. */
  ghost function LookupAll(registry: Registry, domains: set<string>): (r: Result<map<string, Integration>>)
    ensures r.Ok? <==> forall d | d in domains :: registry(d).Some?
    ensures r.Ok? ==> r.value.Keys == domains && forall d | d in domains :: r.value[d] == registry(d).value
    ensures r.Err? ==> r.failure.IntegrationNotFound? && r.failure.domain in domains && registry(r.failure.domain).None?
  {
    if forall d | d in domains :: registry(d).Some? then
      Ok(map d | d in domains :: registry(d).value)
    else
      var d :| d in domains && registry(d).None?;
      Err(IntegrationNotFound(d))
  }

  /** The translation file of `c`, resolved against the integration of its last segment. */
  function PathOf(c: string, language: string, integrations: map<string, Integration>): (r: Option<string>)
    requires LastSegment(c) in integrations
    ensures |Split(c)| == 2 ==> r.Some?
    ensures r.Some? ==> (integrations[LastSegment(c)].filePath + "/.translations/" <= r.value
      && EndsWith(r.value, language + ".json"))
  {
    ComponentTranslationFile(c, language, integrations[LastSegment(c)])
  }

  /** The registry knows the integration of `c`'s last segment. */
  ghost predicate Resolves(registry: Registry, c: string)
  {
    registry(LastSegment(c)).Some?
  }

  /** The translation file of `c`, resolved against the registry itself. */
  ghost function FileOf(c: string, language: string, registry: Registry): (r: Option<string>)
    requires Resolves(registry, c)
    ensures |Split(c)| == 2 ==> r.Some?
    ensures r.Some? ==> (registry(LastSegment(c)).value.filePath + "/.translations/" <= r.value
      && EndsWith(r.value, language + ".json"))
  {
    ComponentTranslationFile(c, language, registry(LastSegment(c)).value)
  }

  /** A missing id that does not stop a fill: its integration is known, and its
      translation file, when it has one, loads as an object. */
  ghost predicate Fillable(c: string, language: string, registry: Registry, loader: Loader)
  {
    Resolves(registry, c)
    && (FileOf(c, language, registry).Some? ==> IsMapping(loader(FileOf(c, language, registry).value)))
  }

  /** A loaded document that `load_translations_files` accepts: an object. */
  predicate IsMapping(doc: Option<Tree>)
  {
    doc.Some? && doc.value.Node?
  }

  function LoadFailure(doc: Option<Tree>, path: string): Failure
  {
    if doc.None? then LoadError(path) else NotAMapping(path)
  }

  /** `load_translations_files`: every file loaded and an object, or the batch fails
      as a whole with the failure of one of its files. */
  ghost function LoadTranslationsFiles(loader: Loader, files: map<string, string>): (r: Result<map<string, Dict>>)
    ensures r.Ok? <==> forall c | c in files :: IsMapping(loader(files[c]))
    ensures r.Ok? ==> r.value.Keys == files.Keys
    ensures r.Ok? ==> forall c | c in files :: Node(r.value[c]) == loader(files[c]).value
    ensures r.Err? ==> exists c :: (c in files && !IsMapping(loader(files[c]))
      && r.failure == LoadFailure(loader(files[c]), files[c]))
  {
    if forall c | c in files :: IsMapping(loader(files[c])) then
      Ok(map c | c in files :: loader(files[c]).value.children)
    else
      var c :| c in files && !IsMapping(loader(files[c]));
      Err(LoadFailure(loader(files[c]), files[c]))
  }

  /** Loaded trees of dot-free ids that lack a `title` get the integration's name
      as their title; every other tree is kept as loaded. */
  function BackfillTitles(loaded: map<string, Dict>, integrations: map<string, Integration>): (r: map<string, Dict>)
    requires forall c | c in loaded && '.' !in c :: c in integrations
    ensures r.Keys == loaded.Keys
    ensures forall c | c in loaded && ('.' in c || "title" in loaded[c]) :: r[c] == loaded[c]
    ensures forall c | c in loaded && '.' !in c && "title" !in loaded[c] ::
      "title" in r[c] && r[c]["title"] == Leaf(integrations[c].name) && r[c] - {"title"} == loaded[c]
  {
    map c | c in loaded ::
      if '.' in c || "title" in loaded[c] then loaded[c]
      else loaded[c]["title" := Leaf(integrations[c].name)]
  }

  /** The fill for `language` and `components`, as one state transition. */
  ghost function FillCache(cache: Cache, language: string, components: set<string>,
                           registry: Registry, loader: Loader): (f: Fill)
    ensures language in f.cache
    ensures forall l | l != language :: (l in f.cache <==> l in cache) && (l in cache ==> f.cache[l] == cache[l])
    ensures forall c | c in PartitionOf(cache, language) ::
      c in f.cache[language] && f.cache[language][c] == PartitionOf(cache, language)[c]
    ensures f.cache[language].Keys <= PartitionOf(cache, language).Keys + components
    ensures f.lookedUp == MissingDomains(components - PartitionOf(cache, language).Keys)
    ensures f.files.Keys <= components - PartitionOf(cache, language).Keys
    ensures f.result.Ok? ==> (components <= f.cache[language].Keys
      && f.result.value == BuildResources(f.cache[language], components))
    ensures f.result.Err? ==> forall c | c in f.cache[language] && c !in PartitionOf(cache, language) ::
      f.cache[language][c] == map[]
  {
    var part := PartitionOf(cache, language);
    var missing := components - part.Keys;
    var domains := MissingDomains(missing);
    match LookupAll(registry, domains)
    case Err(e) =>
      Fill(cache[language := part], Err(e), domains, map[])
    case Ok(integrations) =>
      var p := LoadMissing(part, language, missing, integrations, loader);
      var result := if p.failure.Some? then Err(p.failure.value) else Ok(BuildResources(p.part, components));
      Fill(cache[language := p.part], result, domains, p.files)
  }

  /** When a fill succeeds: exactly when every missing id's integration is known and
      its translation file, if it has one, loads as an object. Every file handed to
      the loader is a missing id's own file; an unknown integration stops the fill
      before anything is loaded, and otherwise every missing id that has a file has
      it loaded. */
  lemma {:induction false} FillSucceeds(cache: Cache, language: string, components: set<string>, registry: Registry, loader: Loader)
    ensures var f := FillCache(cache, language, components, registry, loader);
      var missing := components - PartitionOf(cache, language).Keys;
      (f.result.Ok? <==> forall c | c in missing :: Fillable(c, language, registry, loader))
      && (forall c | c in f.files :: Resolves(registry, c) && FileOf(c, language, registry) == Some(f.files[c]))
      && ((exists c :: c in missing && !Resolves(registry, c)) ==> f.files == map[])
      && ((forall c | c in missing :: Resolves(registry, c)) ==>
            forall c | c in missing && FileOf(c, language, registry).Some? :: c in f.files)
  {
    var part := PartitionOf(cache, language);
    var missing := components - part.Keys;
    var domains := MissingDomains(missing);
    match LookupAll(registry, domains)
    case Err(e) =>
      UnknownDomain(registry, missing, e.domain);
    case Ok(integrations) =>
      KnownDomains(registry, missing, language, integrations);
      var p := LoadMissing(part, language, missing, integrations, loader);
      LoadOutcome(missing, language, registry, loader, integrations, p);
  }

  /** A domain whose integration is a single module file, not a directory named
      after it, has no translations: filling it succeeds, loads nothing and caches
      `{}` for it. */
  lemma {:induction false} SingleFileIntegration(cache: Cache, language: string, domain: string,
                                                 registry: Registry, loader: Loader)
    requires '.' !in domain && domain !in PartitionOf(cache, language)
    requires registry(domain).Some? && registry(domain).value.dirName != domain
    ensures var f := FillCache(cache, language, {domain}, registry, loader);
      f.result.Ok? && f.files == map[] && f.cache[language][domain] == map[]
  {
    SingleFileOutcome(cache, language, domain, registry, loader);
    SegmentsOfSimpleIds(domain, domain);
    DomainPath(domain, language, registry(domain).value);
    FillEntries(cache, language, {domain}, registry, loader);
  }

  /** The success and the empty load of a single-file integration's fill. */
  lemma {:induction false} SingleFileOutcome(cache: Cache, language: string, domain: string,
                                             registry: Registry, loader: Loader)
    requires '.' !in domain && domain !in PartitionOf(cache, language)
    requires registry(domain).Some? && registry(domain).value.dirName != domain
    ensures var f := FillCache(cache, language, {domain}, registry, loader);
      f.result.Ok? && f.files == map[]
  {
    SegmentsOfSimpleIds(domain, domain);
    DomainPath(domain, language, registry(domain).value);
    assert FileOf(domain, language, registry).None?;
    var f := FillCache(cache, language, {domain}, registry, loader);
    assert {domain} - PartitionOf(cache, language).Keys == {domain};
    assert Fillable(domain, language, registry, loader);
    FillSucceeds(cache, language, {domain}, registry, loader);
    assert f.files.Keys == {};
  }

  /** A domain the registry does not know, among the domains of `missing`, is the
      last segment of some missing id that does not resolve. */
  lemma UnknownDomain(registry: Registry, missing: set<string>, d: string)
    requires d in MissingDomains(missing) && registry(d).None?
    ensures exists c :: c in missing && !Resolves(registry, c)
  {
    var c :| c in missing && LastSegment(c) == d;
    assert !Resolves(registry, c);
  }

  /** Once every domain of `missing` is looked up, resolving a path through the
      lookup table is resolving it through the registry. */
  lemma KnownDomains(registry: Registry, missing: set<string>, language: string, integrations: map<string, Integration>)
    requires LookupAll(registry, MissingDomains(missing)) == Ok(integrations)
    ensures forall c | c in missing :: (Resolves(registry, c) && LastSegment(c) in integrations
      && PathOf(c, language, integrations) == FileOf(c, language, registry))
  {
    forall c | c in missing
      ensures Resolves(registry, c) && LastSegment(c) in integrations
        && PathOf(c, language, integrations) == FileOf(c, language, registry)
    {
      assert LastSegment(c) in MissingDomains(missing);
    }
  }

  /** The partition fill succeeds exactly when every missing id is fillable. */
  lemma LoadOutcome(missing: set<string>, language: string, registry: Registry, loader: Loader,
                    integrations: map<string, Integration>, p: PartitionFill)
    requires forall c | c in missing :: (Resolves(registry, c) && LastSegment(c) in integrations
      && PathOf(c, language, integrations) == FileOf(c, language, registry))
    requires p.files.Keys <= missing
    requires forall c | c in missing ::
      (PathOf(c, language, integrations).None? <==> c !in p.files)
      && (c in p.files ==> Some(p.files[c]) == PathOf(c, language, integrations))
    requires p.failure.None? <==> forall c | c in p.files :: IsMapping(loader(p.files[c]))
    ensures p.failure.None? <==> forall c | c in missing :: Fillable(c, language, registry, loader)
    ensures forall c | c in p.files :: Resolves(registry, c) && FileOf(c, language, registry) == Some(p.files[c])
    ensures forall c | c in missing && FileOf(c, language, registry).Some? :: c in p.files
  {
    if p.failure.None? {
      forall c | c in missing
        ensures Fillable(c, language, registry, loader)
      {
        if FileOf(c, language, registry).Some? {
          assert c in p.files;
        }
      }
    } else {
      var c :| c in p.files && !IsMapping(loader(p.files[c]));
      assert !Fillable(c, language, registry, loader);
    }
  }

  /** The ids among `missing` that have no translation file. */
  function NotApplicable(missing: set<string>, language: string, integrations: map<string, Integration>): (r: set<string>)
    requires forall c | c in missing :: LastSegment(c) in integrations
    ensures r <= missing
    ensures forall c | c in missing :: c in r <==> PathOf(c, language, integrations).None?
  {
    set c | c in missing && PathOf(c, language, integrations).None?
  }

  /** `missing_files`: the translation file of each id among `missing` that has one. */
  function MissingFiles(missing: set<string>, language: string, integrations: map<string, Integration>): (r: map<string, string>)
    requires forall c | c in missing :: LastSegment(c) in integrations
    ensures r.Keys <= missing
    ensures forall c | c in missing :: c in r <==> PathOf(c, language, integrations).Some?
    ensures forall c | c in r :: Some(r[c]) == PathOf(c, language, integrations)
  {
    map c | c in missing && PathOf(c, language, integrations).Some? :: PathOf(c, language, integrations).value
  }

  /** The partition with `{}` recorded for every id in `absent`. */
  function MarkAbsent(part: Partition, absent: set<string>): (r: Partition)
    ensures r.Keys == part.Keys + absent
    ensures forall c | c in r :: r[c] == if c in absent then map[] else part[c]
  {
    part + map c | c in absent :: map[]
  }

  /** The fill of one partition once the domains of all `missing` ids are resolved:
      `{}` for ids without a file, then the batch load, title backfill and merge. */
  ghost function LoadMissing(part: Partition, language: string, missing: set<string>,
                             integrations: map<string, Integration>, loader: Loader): (p: PartitionFill)
    requires forall c | c in missing :: LastSegment(c) in integrations
    requires missing !! part.Keys
    ensures forall c | c in part :: c in p.part && p.part[c] == part[c]
    ensures p.part.Keys <= part.Keys + missing
    ensures p.files.Keys <= missing
    ensures p.failure.None? ==> missing <= p.part.Keys
    ensures p.failure.Some? ==> forall c | c in p.part && c !in part :: p.part[c] == map[]
    ensures p.failure.None? <==> forall c | c in p.files :: IsMapping(loader(p.files[c]))
    ensures p.failure.Some? ==> exists c :: (c in p.files && !IsMapping(loader(p.files[c]))
      && p.failure.value == LoadFailure(loader(p.files[c]), p.files[c]))
    ensures forall c | c in missing ::
      (PathOf(c, language, integrations).None? <==> c !in p.files)
      && (PathOf(c, language, integrations).None? ==> c in p.part && p.part[c] == map[])
      && (c in p.files ==> Some(p.files[c]) == PathOf(c, language, integrations))
    ensures p.failure.None? ==> forall c | c in p.files ::
      IsMapping(loader(p.files[c])) && c in p.part
      && (('.' in c || "title" in loader(p.files[c]).value.children) ==>
            p.part[c] == loader(p.files[c]).value.children)
      && (('.' !in c && "title" !in loader(p.files[c]).value.children) ==>
            c in integrations && "title" in p.part[c] && p.part[c]["title"] == Leaf(integrations[c].name)
            && p.part[c] - {"title"} == loader(p.files[c]).value.children)
  {
    var absent := NotApplicable(missing, language, integrations);
    var files := MissingFiles(missing, language, integrations);
    var marked := MarkAbsent(part, absent);
    if |files| == 0 then
      PartitionFill(marked, None, files)
    else
      match LoadTranslationsFiles(loader, files)
      case Err(e) =>
        PartitionFill(marked, Some(e), files)
      case Ok(loaded) =>
        SegmentsAreOwnDomains(files.Keys);
        PartitionFill(marked + BackfillTitles(loaded, integrations), None, files)
  }

  /** With nothing missing the partition fill loads nothing and changes nothing. */
  lemma NothingMissing(part: Partition, language: string, loader: Loader)
    ensures LoadMissing(part, language, {}, map[], loader) == PartitionFill(part, None, map[])
  {
    assert MissingFiles({}, language, map[]) == map[];
    assert MarkAbsent(part, NotApplicable({}, language, map[])) == part;
  }

  /** After a successful fill every requested id that was missing is cached: as `{}`
      when it has no translation file, otherwise as its loaded tree, with the
      integration's name added as `title` to a dot-free id's tree that lacks one. */
  lemma FillEntries(cache: Cache, language: string, components: set<string>, registry: Registry, loader: Loader)
    requires FillCache(cache, language, components, registry, loader).result.Ok?
    ensures var f := FillCache(cache, language, components, registry, loader);
      forall c | c in components && c !in PartitionOf(cache, language) ::
        registry(LastSegment(c)).Some?
        && var path := ComponentTranslationFile(c, language, registry(LastSegment(c)).value);
        (path.None? ==> c !in f.files && f.cache[language][c] == map[])
        && (path.Some? ==> (c in f.files && f.files[c] == path.value && IsMapping(loader(path.value))
            && var tree := loader(path.value).value.children;
            (('.' in c || "title" in tree) ==> f.cache[language][c] == tree)
            && (('.' !in c && "title" !in tree) ==> (registry(c).Some?
                && "title" in f.cache[language][c] && f.cache[language][c]["title"] == Leaf(registry(c).value.name)
                && f.cache[language][c] - {"title"} == tree))))
  {
    var f := FillCache(cache, language, components, registry, loader);
    var part := PartitionOf(cache, language);
    var missing := components - part.Keys;
    var domains := MissingDomains(missing);
    var integrations := LookupAll(registry, domains).value;
    var p := LoadMissing(part, language, missing, integrations, loader);
    assert f.cache[language] == p.part && f.files == p.files && p.failure.None?;
    forall c | c in missing
      ensures registry(LastSegment(c)).Some? && integrations[LastSegment(c)] == registry(LastSegment(c)).value
    {
      assert LastSegment(c) in domains;
    }
    SegmentsAreOwnDomains(missing);
  }

  /** A second fill with the same request finds nothing missing: it looks nothing
      up, loads nothing, leaves the cache as it is and returns the same response,
      whatever the registry and loader would now answer. */
  lemma {:induction false} RepeatFill(cache: Cache, language: string, components: set<string>, registry: Registry, loader: Loader,
                                     registry': Registry, loader': Loader)
    ensures var first := FillCache(cache, language, components, registry, loader);
      first.result.Ok? ==>
        FillCache(first.cache, language, components, registry', loader') == Fill(first.cache, first.result, {}, map[])
  {
    var first := FillCache(cache, language, components, registry, loader);
    if first.result.Ok? {
      NothingToFill(first.cache, language, components, registry', loader');
    }
  }

  /** A fill whose every requested id is already cached is a pure read. */
  lemma {:induction false} NothingToFill(cache: Cache, language: string, components: set<string>, registry: Registry, loader: Loader)
    requires language in cache && components <= cache[language].Keys
    ensures FillCache(cache, language, components, registry, loader)
      == Fill(cache, Ok(BuildResources(cache[language], components)), {}, map[])
  {
    var part := PartitionOf(cache, language);
    assert cache[language := part] == cache;
    assert components - part.Keys == {};
    assert MissingDomains({}) == {};
    assert LookupAll(registry, {}) == Ok(map[]);
    NothingMissing(part, language, loader);
  }

  /** A dot-free id is its own registry domain. */
  lemma SegmentsAreOwnDomains(ids: set<string>)
    ensures forall c | c in ids && '.' !in c :: LastSegment(c) == c
  {
    forall c | c in ids && '.' !in c
      ensures LastSegment(c) == c
    {
      SegmentsOfSimpleIds(c, c);
    }
  }
}
