# Translation resolution, modelled in Dafny

This project models the translation helper of Home Assistant
(`homeassistant/helpers/translation.py`). The helper finds, loads, caches and merges the
per-integration translation files into one flat map for a language:

- **Path resolution.** A component id is either a domain (`hue`) or a platform id
  `<platform>.<integration>` (`light.hue`). It maps to
  `<integration root>/.translations/<language>.json` for a domain, or to
  `<integration root>/.translations/<platform>.<language>.json` for a platform. A domain
  whose integration is a single module file has no translations.
- **Flattening.** A nested translation object becomes one level of dot-joined keys.
- **Aggregation.** Each component's cached tree is shallow-merged into the tree of its
  domain. Here the domain is the text before the *first* dot. Path resolution and the
  registry lookup use the text after the *last* dot instead. Both are modelled as
  written.
- **Cache fill.** The cache is `language -> component -> tree`. A fill works out which
  requested ids are missing, then looks up their integrations. It records `{}` for ids
  that cannot have a file, loads the rest as one batch, gives a dot-free id's tree a
  `title` when it lacks one, and merges the result into the cache.
- **Top level.** It chooses the component set and fetches the language plus English. It
  narrows the result to a category if one is given, wraps it under `component`,
  flattens it, and lays the language's map over the English one.

Files:

- `outcomes.dfy`: `Option`, `Result` and the failure kinds.
- `trees.dfy`: the tree datatype, Python truthiness and the leaf-path relation `LeafAt`.
- `dotted.dfy`: `str.split(".")` and its inverse, plus the first/last segment of an id.
- `flatten.dfy`: `recursive_flatten` / `flatten`.
- `paths.dfy`: `component_translation_file`.
- `aggregate.dfy`: `build_resources`.
- `cache_fill.dfy`: `load_translations_files` and `async_get_component_resources`.
- `translations.dfy`: `async_get_translations`.

The integration registry and the JSON loader are parameters: total functions from a
domain to `Option<Integration>` and from a path to `Option<Tree>`. The loaded
components and the config-flow domains are given sets. The cache is an explicit value:
a fill is a function from one cache to the next, and its result also reports which
domains it looked up and which files it loaded.

Python iterates dicts and sets in an order this model does not carry. The model
processes keys and ids in a fixed but unspecified order, given by a ghost choice. For
that reason flattening, aggregation and the fill are ghost functions. Their contracts
hold for every order.

Two points of the code are modelled exactly as written:

- A two-segment id `a.b` names platform `a` of integration `b`. Its file is
  `a.<lang>.json` in `b`'s directory, and its tree is filed under domain `a`.
- Whether a missing file is an error is left to `load_json`, which is the loader
  parameter here.

## Model

| member | source | states |
|---|---|---|
| Dotted.Split | homeassistant/helpers/translation.py:53 | `component.split(".")` yields at least one part, and no part contains a dot |
| Dotted.JoinSplit | homeassistant/helpers/translation.py:53 | joining the parts of a split with dots gives back the original id |
| Dotted.SplitJoin | homeassistant/helpers/translation.py:53 | splitting a dot-join of dot-free parts gives back those parts |
| Dotted.FirstSegment | homeassistant/helpers/translation.py:90-93 | the aggregation domain is dot-free, is a prefix of the id, and is followed by a dot or by the end of the id |
| Dotted.LastSegment | homeassistant/helpers/translation.py:53-54 | the lookup domain `parts[-1]` is dot-free, is a suffix of the id, and is preceded by a dot or by the start of the id |
| Dotted.SegmentsOfSimpleIds | homeassistant/helpers/translation.py:53-55 | a dot-free id is its own first and last segment; `a.b` splits into exactly `[a, b]`, is aggregated under `a` and resolved against `b` |
| Flatten.KeysSound | homeassistant/helpers/translation.py:25-31 | every entry the loop over some keys of an object produces comes from a leaf below one of those keys, keyed by the prefix plus the dot-joined path to it |
| Flatten.KeysComplete | homeassistant/helpers/translation.py:25-31 | every leaf below one of the keys the loop runs over yields an entry under the prefix plus its dot-joined path |
| Flatten.RecursiveFlatten | homeassistant/helpers/translation.py:23-31 | every output entry comes from a leaf and is keyed by the prefix plus the dot-joined path to it; every leaf yields an entry under that key; sub-objects, empty ones included, yield no entry of their own |
| Flatten.FlattenDict | homeassistant/helpers/translation.py:34-36 | `flatten` with the empty prefix: every entry is a leaf under its dot-joined path, and every leaf has an entry |
| Flatten.FlattenExact | homeassistant/helpers/translation.py:23-36 | with no dotted keys, the entry under a leaf's dotted path holds that leaf's text, and two distinct leaf paths never share a key |
| Flatten.FlattenCount | homeassistant/helpers/translation.py:23-36 | with no dotted keys, the number of output entries equals the number of leaves |
| Paths.ComponentTranslationFile | homeassistant/helpers/translation.py:40-67 | any path returned lies in `<root>/.translations/` and ends in `<language>.json` |
| Paths.PlatformPath | homeassistant/helpers/translation.py:53-59 | for an id `a.b` the path is `<root>/.translations/a.<language>.json`, whatever the root directory is called |
| Paths.NonPlatformPath | homeassistant/helpers/translation.py:60-67 | for an id without exactly two segments, the result is None exactly when the root directory's name differs from the id's last segment; otherwise it is `<root>/.translations/<language>.json` |
| Paths.DomainPath | homeassistant/helpers/translation.py:60-67 | a dot-free id has no file exactly when the integration's directory is not named after it |
| Aggregate.BuildResources | homeassistant/helpers/translation.py:83-103 | needs every requested id cached; the result's keys are exactly the first segments of the requested ids; every top-level key of each id's tree appears under its domain; every domain entry comes from some requested id of that domain |
| Aggregate.SoleContributor | homeassistant/helpers/translation.py:95-101 | a top-level key held by only one requested id of a domain keeps that id's value, whatever the iteration order |
| Trees.Truthy | homeassistant/helpers/translation.py:208 | a tree is falsy exactly when it is the empty string or the empty object |
| CacheFill.PartitionOf | homeassistant/helpers/translation.py:118-119 | the partition a fill starts from: the language's cached partition, or an empty one when the language has none yet |
| CacheFill.MissingDomains | homeassistant/helpers/translation.py:123 | the domains a fill looks up: the last segment of each missing id |
| CacheFill.PathOf | homeassistant/helpers/translation.py:137-141 | the file of a missing id, resolved through the looked-up integration of its last segment: a platform id always has one, and any path lies in that integration's `.translations` directory and ends in `<language>.json` |
| CacheFill.FileOf | homeassistant/helpers/translation.py:137-141 | the same resolution through the registry directly: a platform id always has a file, and any path lies in the integration's `.translations` directory and ends in `<language>.json` |
| CacheFill.NotApplicable | homeassistant/helpers/translation.py:136-144 | the missing ids whose path is None, and only those |
| CacheFill.MissingFiles | homeassistant/helpers/translation.py:135-146 | `missing_files` holds exactly the missing ids that have a path, each mapped to that path |
| CacheFill.MarkAbsent | homeassistant/helpers/translation.py:143-144 | `{}` is recorded for each id without a file; every other entry of the partition is unchanged |
| CacheFill.LookupAll | homeassistant/helpers/translation.py:123-132 | succeeds exactly when every missing domain resolves, mapping each to its integration; otherwise it fails with a domain the registry does not know |
| CacheFill.LoadTranslationsFiles | homeassistant/helpers/translation.py:70-80 | succeeds exactly when every file loads to an object, giving each component that object; otherwise the whole batch fails with the failure of one file |
| CacheFill.BackfillTitles | homeassistant/helpers/translation.py:156-162 | a dot-free id whose tree lacks `title` gains exactly `title` = the integration's name; ids with a dot, and trees that already have a title, keep the tree as loaded |
| CacheFill.LoadMissing | homeassistant/helpers/translation.py:134-165 | ids with no applicable file are recorded as `{}` and never loaded; the others are loaded from their resolved paths, then backfilled; old entries are kept; after a failure only `{}` markers have been added |
| CacheFill.FillCache | homeassistant/helpers/translation.py:117-167 | other languages' caches are untouched; entries cached before are unchanged; only requested ids are added; lookups are exactly the last segments of missing ids; only missing ids are loaded; on success every requested id is cached and the result aggregates them; a failure merges no loaded tree (when a fill succeeds is stated by FillSucceeds) |
| CacheFill.FillSucceeds | homeassistant/helpers/translation.py:123-167 | a fill succeeds exactly when every missing id's integration is known and its file, if it has one, loads as an object; every file handed to the loader is a missing id's own file; an unknown integration stops the fill before anything is loaded; otherwise every missing id with a file has it loaded |
| CacheFill.SingleFileIntegration | homeassistant/helpers/translation.py:60-64 | a dot-free domain whose integration is not a directory named after it fills successfully with `{}` and loads nothing |
| CacheFill.SingleFileOutcome | homeassistant/helpers/translation.py:141-149 | the fill of such a domain succeeds and hands no file to the loader |
| CacheFill.FillEntries | homeassistant/helpers/translation.py:134-165 | after a successful fill, each previously missing id maps to `{}` when its path is None; otherwise it maps to its loaded tree, with `title` added exactly when the id is dot-free and the tree lacks one |
| CacheFill.NothingToFill | homeassistant/helpers/translation.py:121-167 | when every requested id is already cached, a fill looks nothing up, loads nothing, keeps the cache and returns the aggregation |
| CacheFill.RepeatFill | homeassistant/helpers/translation.py:117-167 | repeating a successful fill with the same ids performs no lookups and no loads, keeps the cache and returns the same response, whatever the registry and the loader now answer |
| Translations.SelectComponents | homeassistant/helpers/translation.py:184-189 | an explicit integration is the only component; otherwise all loaded components are used, plus the config-flow domains exactly when the flag is true |
| Translations.OrEmpty | homeassistant/helpers/translation.py:208 | `value or {}`: a present, truthy value is kept; a missing or falsy one becomes the empty object |
| Translations.NarrowCategory | homeassistant/helpers/translation.py:206-210 | the domain set is preserved; each domain maps to exactly `{category: tree[category]}`, or to `{category: {}}` when the key is missing or its value is falsy |
| Translations.MergeFallback | homeassistant/helpers/translation.py:225 | the merged keys are the union; the primary value wins on a collision; English-only keys keep their English value |
| Translations.Assemble | homeassistant/helpers/translation.py:206-212 | the flat map of one language, narrowed to the category when one is given, wrapped under `component` and flattened: every key starts with `component.` |
| Translations.WrappedKeys | homeassistant/helpers/translation.py:212 | flattening `{key: obj}` puts `key.` in front of every entry |
| Translations.Respond | homeassistant/helpers/translation.py:204-227 | a primary failure is reported first; on success the keys start with `component.`, and the English map is overridden key by key by the primary one |
| Translations.GetTranslations | homeassistant/helpers/translation.py:184-227 | every output key starts with `component.`; only the caches of the language and of English change, and no cached entry is lost; for English no fallback is fetched; otherwise primary keys win and English-only keys survive |
| Translations.RepeatTranslations | homeassistant/helpers/translation.py:170-227 | repeating a successful call returns the same response and the same cache, whatever the registry and the loader now answer |

## Left out

- Concurrency is not modelled: `asyncio.gather`, the process-wide `asyncio.Lock` and `hass.async_add_job`. A call is run sequentially: the primary language first, then English.
- Translations.GetTranslations: when both fetches fail, the model reports the primary failure. In the source the first exception raised wins, and that depends on scheduling. The model also applies the English fetch's cache changes within the call; in the source that task may finish after the call has already failed.
- Flatten.RecursiveFlatten: when keys contain dots, two leaves can flatten to the same key. The contract then says only that the value comes from one of them, because the winner depends on dict insertion order, which the model does not carry.
- Aggregate.BuildResources: when two requested ids of one domain share a top-level key, the contract says only that the value comes from one of them, because Python's set iteration order is unspecified.
- CacheFill.LookupAll: when several domains are unknown, the contract says only that the reported one is among them.
- CacheFill.LoadTranslationsFiles: when several files fail, the contract says only that the reported failure belongs to one of them.
- `load_json` and the file system are an abstract loader. The tree type has only string leaves and objects, so JSON numbers, booleans, null and arrays are not represented, and neither is their Python truthiness in the category narrowing.
- `async_get_integration`, `async_get_config_flows` and `hass.config.components` are foreign registry calls. They are given as a function and two sets.
- `hass.data`, the lazy creation of the lock, and the `bind_hass` / `callback` decorators are replaced by an explicit cache value.
- Paths are strings joined with `/`. The root directory's name is a given field, not derived from the root path. `pathlib`'s normalisation, such as a root of `/`, is not modelled.
- Logging is not modelled.
