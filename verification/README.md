# Configuration resolution engine of kea-ha, in Dafny

This project models the configuration engine of the kea-ha command-line
tool. The engine is a tree of YAML values addressed by path strings such as
`image/repository/url`, `list1.2.name` or `a__b`. String leaves may hold
`$c{path}` references to other parts of the tree and `$e{NAME}` references
to environment variables, which are interpolated when they are read. The
repository implements the engine twice, and the model covers both:

- **`Reflective`** (src/app/util/object.py): instances wrap a value and link
  to the instance that created them. `create` looks a path up. `up` writes a
  value back through the root's tree. `parse` interpolates against the
  root's tree. `debug` and `parsing` are flags kept at the root.
- **`Config`** (src/app/model/config.py): instances wrap a root tree and a
  context inside it. `ref` looks a path up and memoises the answer in a
  per-instance cache under a converted key. Attribute and item access read
  a member of the context. Interpolation fills the cache as a side effect.

It also models two small parsers:

- **`ImageRepo`** (src/app/model/images.py): a Docker reference
  `[url/]name[:tag]`, parsed by `from_tag` and rendered by `repo_path`.
- **`ConfigLoader.load_file`** (src/app/util/config.py): a `key=value`
  settings file.

The modules follow the program's structure:

| file | module | contents |
|---|---|---|
| wrappers.dfy | `Wrappers` | `Option`, `Result`, and the exceptions that escape |
| strings.dfy | `Strings` | the Python `str` operations the engine uses |
| values.dfy | `Values` | the value tree, with dicts as ordered entry sequences |
| paths.dfy | `Paths` | both engines' key segmentation, `_convert_key`, the `_reducer` lookup, and writes through a path |
| tokens.dfy | `Tokens` | `re.findall` with the two reference patterns |
| reflective.dfy | `ReflectiveEngine` | `Reflective` |
| config.dfy | `ConfigEngine` | `Config` |
| images.dfy | `Images` | `ImageRepo` |
| loader.dfy | `Loader` | the line loop of `load_file` |

Python objects that share state by reference are modelled explicitly:

- The `Reflective` instances live in one arena (a sequence of nodes), so
  that several instances share one root.
- Every `Config` operation that touches the cache returns the cache it
  leaves behind.
- Interpolation is recursive and has no cycle guard. The model bounds it
  with a `fuel` parameter. Running out of fuel is `RecursionError`, which is
  what the source's stack overflow raises.

Three behaviours of the code are kept as the code has them:

- An unset environment variable renders as the text `None`, not as an empty
  string (`Values.Getenv`, `ConfigEngine.UnsetEnvironment`,
  `ReflectiveEngine.UnsetVariable`).
- `Config`'s cache is never invalidated. A write is not seen by a later
  `ref` of the same key (`ConfigEngine.StaleAfterWrite`).
- Writes and lookups follow the source's own rules, including their
  defects (see Findings). `ReflectiveEngine.UpAsWritten` is `up` as written
  and `ReflectiveEngine.Up` its corrected form. Every `Config` operation
  that can reach `ref` takes a `ConfigEngine.RefRule`: `AsWritten` splits
  the key as given at `___`, as the source does, and `Corrected` walks the
  converted key. A lemma about these operations holds under both rules
  unless it names one.

## Model

| member | source | states |
|---|---|---|
| Paths.KeySegments | src/app/util/object.py:606-617 | an int key, or a key with none of the separators, is one segment; otherwise the key is split; there is always at least one segment |
| Paths.FirstSeparator | src/app/util/object.py:611-615 | the separator chosen is one of the list and occurs in the key; when none is chosen, none of the list occurs |
| Paths.KeySegmentsRoundTrip | src/app/util/object.py:611-617 | joining the segments with the chosen separator gives the key back, and no segment contains that separator |
| Paths.SegmentsOfJoin | src/app/util/object.py:606-617 | a key joined from plain segments with any of `//`, `/`, `__`, `.` splits back into exactly those segments |
| Paths.ChosenSeparator | src/app/util/object.py:611-615 | in such a joined key, the separator picked is the one used to join it |
| Paths.DoubleSlashIsOneSeparator | src/app/util/object.py:611 | `a//b` is the two segments `a`, `b`, because `//` is tried before `/` |
| Paths.ConvertKey | src/app/model/config.py:94-102 | `_convert_key`: a key without separators is unchanged; otherwise its pieces around the first separator found are rejoined with `___` |
| Paths.ConvertJoin | src/app/model/config.py:94-102 | plain segments joined with any separator convert to the same segments joined with `___` |
| Paths.ConvertChoice | src/app/model/config.py:96-100 | in such a key, `_convert_key` picks the separator used to join it, although it tries `.` first |
| Paths.EnginesAgreeOnPlainKeys | src/app/model/config.py:104-123 | for keys built from plain segments, splitting the converted key at `___` gives the same segments as `Reflective._get_key_segments` |
| Paths.SelectDecimal | src/app/util/object.py:641-645 | the segment `str(i)` is read as the index `i` |
| Paths.Position | src/app/util/object.py:641-645 | a list index addresses a position exactly when `-len <= n < len`, counting from the end when negative |
| Paths.Step | src/app/util/object.py:641-645 | one `_reducer` step: `c[k]` finds a value exactly for a present dict key or an in-bounds number on a list or str, and raises `IndexError` exactly for an out-of-bounds number |
| Paths.Walk | src/app/util/object.py:493 | the `reduce` over segments: over a one-segment path it is one `_reducer` step |
| Paths.WalkAppend | src/app/util/object.py:493 | the `reduce` over segments (`Walk`): reducing over a concatenated path reduces over its two halves in turn |
| Paths.Fetch | src/app/util/object.py:489-495 | the lookup fails exactly when an index is out of range (`IndexError`); a miss gives the default; otherwise it gives the value found |
| Paths.StepPut | src/app/util/object.py:534 | after `c[k] = v`, reading the same slot gives `v` and every other slot reads as before |
| Paths.WriteThroughWalk | src/app/util/object.py:520-534 | a write through a path (`WriteThrough`) finds no parent exactly when the lookup misses; an out-of-range index raises `IndexError`; a successful write leaves the changed parent at the same path |
| Paths.ReadAfterWrite | src/app/util/object.py:520-534 | after a successful write the path reads back the value written, and sibling slots read as before |
| Values.SetKey | src/app/util/object.py:517 | `d[k] = v` keeps an existing key in place and appends a new one |
| Values.LookupSetKey | src/app/util/object.py:517 | after `d[k] = v`, `d[k]` is `v` and every other key reads as before |
| Values.ShapedContainerTruthy | src/app/util/object.py:553-573 | interpolation never makes a non-empty container empty or an empty one non-empty |
| Values.Getenv | src/app/util/object.py:591-592 | `str(os.getenv(name))`: the variable's value, or `None` when it is unset |
| Tokens.MatchAt | src/app/util/object.py:25 | a match occurs in the string at its position, with kind `c`/`C`/`e`/`E` and a path the pattern accepts |
| Tokens.FindAllFrom | src/app/util/object.py:581 | every token found has a valid kind and path |
| Tokens.FindAllSound | src/app/util/object.py:581 | every token found occurs in the string; nothing is found exactly when no position starts a match |
| Tokens.MatchOfToken | src/app/util/object.py:25 | the text `f'${kind}{{{path}}}'` that the engine replaces matches back to the same token |
| Tokens.SingleToken | src/app/model/config.py:177 | a token's text followed by text without matches yields exactly that token |
| Tokens.NoDollarNoTokens | src/app/util/object.py:581 | a string without `$` holds no reference |
| Tokens.LeadingDigitPath | src/app/model/config.py:22 | `Config`'s pattern rejects a path starting with a digit, which `Reflective`'s pattern accepts |
| Tokens.KindLetter | src/app/model/config.py:22 | `$X{p}` over a path the pattern accepts is a reference exactly when `X` is `c`, `C`, `e` or `E` (the pattern is case-insensitive), and the letter is kept as written |
| ReflectiveEngine.NewRoot | src/app/util/object.py:156-162 | a new instance without a parent is its own root and leaves the other instances alone |
| ReflectiveEngine.Root | src/app/util/object.py:57-62 | the root has no parent and was created no later than the instance |
| ReflectiveEngine.SetDebug | src/app/util/object.py:97-103 | setting `debug` changes no instance's value or parent |
| ReflectiveEngine.SetParsing | src/app/util/object.py:114-120 | setting `parsing` changes no instance's value or parent |
| ReflectiveEngine.Delegates | src/app/util/object.py:91 | only an instance with a parent can differ from its root |
| ReflectiveEngine.Debug | src/app/util/object.py:88-95 | a root reads its own `_debug`, `False` when unset; a delegating instance reads its root's |
| ReflectiveEngine.Parsing | src/app/util/object.py:105-112 | a root reads its own `_parsing`, `True` when unset; a delegating instance reads its root's |
| ReflectiveEngine.FlagsAgree | src/app/util/object.py:88-120 | the getters `Debug` and `Parsing` read back a flag set through the root or through any instance that `Delegates` to it, from the root and from every delegating instance of the same root |
| ReflectiveEngine.EqualValueKeepsOwnFlag | src/app/util/object.py:91-95 | `root != self` (`Delegates`) compares values, so a child whose value equals its root's keeps a flag of its own, and setting it leaves the root's flag alone |
| ReflectiveEngine.Interp | src/app/util/object.py:538-551 | interpolation returns a value of the input's shape |
| ReflectiveEngine.InterpEntries | src/app/util/object.py:553-562 | `parse_dict` keeps the keys in order and each value's shape |
| ReflectiveEngine.InterpItems | src/app/util/object.py:564-573 | `parse_list` keeps the length and each item's shape |
| ReflectiveEngine.Substitute | src/app/util/object.py:583-594 | with no tokens left the string is returned as it is; the loop fails only when a `$c{..}` token is among the tokens, so `$e{..}` substitution never fails |
| ReflectiveEngine.InterpTemplate | src/app/util/object.py:575-594 | literal text (holding no `$` between the references) interleaved with any references, repeats allowed, becomes the same text with each `$c{p}` replaced by what `p` resolves to in the root's tree and each `$e{N}` by the variable |
| ReflectiveEngine.Resolve | src/app/util/object.py:586-588 | `str` of the instance `create` gives for a reference: a path that runs out of a list's range raises `IndexError`; a miss gives `None`; a string found gives its interpolation when `parsing` is on and itself when off; another scalar gives `str` of it; a container gives its JSON when `parsing` is off |
| ReflectiveEngine.Parse | src/app/util/object.py:538-551 | an instance's `parse` keeps its argument's shape |
| ReflectiveEngine.InterpNoTokens | src/app/util/object.py:575-594 | a string without references comes back unchanged |
| ReflectiveEngine.ResolvesAgainstRoot | src/app/util/object.py:586-588 | when `$c{p}` is the only token, it is resolved against the root's tree: every occurrence is replaced by the string found at `p` |
| ReflectiveEngine.UnsetVariable | src/app/util/object.py:590-592 | an `$e{NAME}` token for an unset variable becomes the text `None` |
| ReflectiveEngine.Create | src/app/util/object.py:481-500 | an out-of-range lookup raises `IndexError`; otherwise a new instance is appended; its parent is the creator only when the creator is truthy; its key is the last segment only when that segment is truthy; it records the path it was found at |
| ReflectiveEngine.CreatedValue | src/app/util/object.py:489-498 | the value `create` wraps fails only on an out-of-range index |
| ReflectiveEngine.Child | src/app/util/object.py:156-162 | `__init__` stores the parent only if it is truthy and the key only if it is truthy |
| ReflectiveEngine.CreateFinds | src/app/util/object.py:489-498 | the new instance holds the value found, or the default on a miss; it is interpolated, and then keeps its shape, exactly when it is truthy and `parse` is set |
| ReflectiveEngine.CreatePlain | src/app/util/object.py:481-500 | `create` of a plain key whose value needs no interpolation appends a child over that value |
| ReflectiveEngine.RefPath | src/app/util/object.py:41-55 | `ref_path` ends with the instance's own key when it has one, and it is never longer than the number of instances created up to and including this one (parents are created first) |
| ReflectiveEngine.CreatedRefPath | src/app/util/object.py:41-55 | `ref_path` (`RefPath`) of a created instance is its creator's (only if the creator is truthy) followed by its own key (only if truthy) |
| ReflectiveEngine.RefPathPrefix | src/app/util/object.py:41-55 | creating instances never changes an existing instance's `ref_path` |
| ReflectiveEngine.SimpleKeptByParse | src/app/util/object.py:122-125 | `simple` (`Simple`) gives the same answer before and after interpolation |
| ReflectiveEngine.RootUp | src/app/util/object.py:516-534 | the corrected root write: when the write succeeds the path reads back the value; when the parent is missing the tree is unchanged |
| ReflectiveEngine.AssignAsWritten | src/app/util/object.py:516-534 | `ref[k] = value` (the single-segment write, and the last-segment write where a numeric key is converted for a list) on a dict stores the value under the key; on a list it keeps the length; on anything else it raises `TypeError` |
| ReflectiveEngine.RootUpAsWritten | src/app/util/object.py:516-536 | the root branch of `up` as written: when the walk to the parent of the last segment misses, nothing changes; when it runs out of range, `IndexError`; a single segment on a dict always succeeds |
| ReflectiveEngine.AsWrittenAgrees | src/app/util/object.py:516-534 | the root write as written (`RootUpAsWritten`) equals the corrected one whenever the last segment is an int or a non-numeric name |
| ReflectiveEngine.LeafAgrees | src/app/util/object.py:529-534 | on such a segment, the final assignment as written is the corrected one |
| ReflectiveEngine.NumericKeyWriteIsLost | src/app/util/object.py:529-534 | under `{"a": {}}`, writing `a/0` stores the string key `"0"`, and reading `a/0` then misses |
| ReflectiveEngine.NumericKeyWriteIsFound | src/app/util/object.py:529-534 | the corrected write of `a/0` is read back |
| ReflectiveEngine.NumericNameMissesText | src/app/util/object.py:641-645 | a numeric segment reads a dict under the int key, so a string key with the same digits is not found |
| ReflectiveEngine.Up | src/app/util/object.py:502-536 | the corrected `up`: a non-root instance writes at its own location followed by the key, and the value written is read back there |
| ReflectiveEngine.UpAsWritten | src/app/util/object.py:502-536 | `up` as written keeps the arena valid and its size unchanged |
| ReflectiveEngine.UpAsWrittenAtRoot | src/app/util/object.py:508-534 | at a root, `up` as written equals the corrected `up` whenever the last segment is an int or a non-numeric name |
| ReflectiveEngine.UpAsWrittenBelowRoot | src/app/util/object.py:510-514 | below a root, `up` as written equals the corrected `up` whenever the `ref_path` the chain hands the root splits into the instance's location followed by the key, on the same last-segment condition |
| ReflectiveEngine.TruthyParentAgrees | src/app/util/object.py:510-514 | under `{"a": {"b": 1}}`, `create("a").up("x", 1)` as written equals the corrected `up` |
| ReflectiveEngine.Chain | src/app/util/object.py:512-513 | the chain of temporary instances has one link per segment |
| ReflectiveEngine.ChainKeys | src/app/util/object.py:481-500 | each link of the chain keeps the key `create` stores for its segment (`LinkKey`) |
| ReflectiveEngine.ChainHead | src/app/util/object.py:512-513 | the first link keeps its segment's key and the rest of the chain is reduced from its value |
| ReflectiveEngine.LinkKeyKept | src/app/util/object.py:500 | a plain non-numeric name is kept whole as the key; a number is kept as an int, except `0`, which is falsy and dropped |
| ReflectiveEngine.FalsyParentMisplacesWrite | src/app/util/object.py:512-514 | under `{"a": {}}`, `create("a").up("x", 1)` writes `x` at the top of the tree, while the corrected `up` writes it inside `a` |
| ConfigEngine.Init | src/app/model/config.py:192-199 | a missing context becomes the root; the cache starts empty; the flags are stored |
| ConfigEngine.RefAlong | src/app/model/config.py:104-132 | a cached converted key returns its entry and leaves the cache alone; otherwise an out-of-range index raises; a miss answers an instance over the default, and a hit an instance over the value found, unless that value is truthy and parsing is asked for, in which case the answer is the parsed value, of the same shape; the answer is cached under the converted key; the cache only grows |
| ConfigEngine.RefPath | src/app/model/config.py:104-123 | the path `ref` walks has at least one segment |
| ConfigEngine.RefPathTexts | src/app/model/config.py:108-123 | the path's segments rejoin with `___` into the key itself under the source's rule (or when the key holds `___`), and into the converted key under the corrected rule |
| ConfigEngine.RulesAgreeOnInternal | src/app/model/config.py:123 | a key that holds `___` walks the same path under both rules |
| ConfigEngine.CorrectedPathOfJoin | src/app/model/config.py:94-123 | under the corrected rule, a key joined from plain segments with `.`, `//`, `/`, `__` or `___` walks exactly those segments |
| ConfigEngine.InternalJoinPath | src/app/model/config.py:123 | a key joined from plain segments with `___` walks exactly those segments under both rules |
| ConfigEngine.Ref | src/app/model/config.py:104-132 | `ref`'s answer is cached under the converted key, under either rule, and no entry is lost; a cached key answers its entry; otherwise an out-of-range index raises, a miss answers an instance over the default, and a hit an instance over the value found, unless that value is truthy and parsing is on, when the answer is the parsed value, of the same shape |
| ConfigEngine.RefMemoised | src/app/model/config.py:115-118 | once `ref` has answered, any later `ref` of a key with the same conversion returns the same instance, whatever its context, default or flags |
| ConfigEngine.Parse | src/app/model/config.py:134-147 | interpolation keeps the value's shape and only adds cache entries |
| ConfigEngine.ParseEntries | src/app/model/config.py:149-158 | `parse_dict` keeps keys and shapes, and the cache only grows |
| ConfigEngine.ParseItems | src/app/model/config.py:160-169 | `parse_list` keeps length and shapes, and the cache only grows |
| ConfigEngine.ParseString | src/app/model/config.py:171-190 | `parse_string` gives a string, and the cache only grows |
| ConfigEngine.Substitute | src/app/model/config.py:179-190 | the substitution loop gives a string and only adds cache entries; with no tokens the string is unchanged |
| ConfigEngine.ParseTemplate | src/app/model/config.py:171-190 | literal text (holding no `$` between the references) interleaved with any references, repeats allowed, becomes the same text with each `$c{p}` replaced by the rendered answer of `ref(p)` and each `$e{N}` by the variable; the cache ends as those `ref` calls leave it |
| ConfigEngine.Member | src/app/model/config.py:215-219 | a dict context gives the value under a present key and `{}` for an absent one; a context that is not a container or str raises `TypeError` |
| ConfigEngine.AccessContext | src/app/model/config.py:215-222 | the accessed value has the member's shape, and the cache only grows |
| ConfigEngine.GetAttr | src/app/model/config.py:207-226 | attributes come first; an entry cached under the raw key is returned unchanged; a new instance is cached under the raw key; nothing else about the instance changes |
| ConfigEngine.GetItem | src/app/model/config.py:258-278 | as for attributes, except that a key with a separator is answered by `ref` on the root and cached under its converted key |
| ConfigEngine.GetItemAsAttr | src/app/model/config.py:258-278 | a key that is no attribute and has no separator is read exactly as `__getattr__` reads it |
| ConfigEngine.GetItemIsCall | src/app/model/config.py:266-275 | a new key with a separator, whose member is computed without touching the cache, succeeds exactly when `__call__` with that key does, and gives the instance and cache `__call__` gives |
| ConfigEngine.AccessKeepsCache | src/app/model/config.py:215-222 | without parsing, the member is computed and the cache is left alone |
| ConfigEngine.SetAttr | src/app/model/config.py:228-247 | the cache is never touched; a key naming no field is stored in the context exactly when the context is a dict, and the root sees it exactly when the context is the root |
| ConfigEngine.SetField | src/app/model/config.py:236-245 | assigning an instance field succeeds for every field but `_cache`; it keeps the cache; `_root` and `_context` store the value assigned and keep the other; the flags keep root and context |
| ConfigEngine.Call | src/app/model/config.py:201-205 | no key gives the context; a key gives `ref`'s answer on the root, cached under the converted key |
| ConfigEngine.CallRepeats | src/app/model/config.py:201-205 | a second `__call__` with a key of the same conversion hands back the first answer and changes nothing |
| ConfigEngine.GetAttrRepeats | src/app/model/config.py:215-226 | a repeated attribute read returns the first answer and changes nothing |
| ConfigEngine.AbsentKeyGivesEmpty | src/app/model/config.py:216-219 | a dict context without the key gives an instance over `{}` |
| ConfigEngine.SimpleKey | src/app/model/config.py:94-102 | a key without separator characters converts to itself and is one segment |
| ConfigEngine.SeparatedKeyPaths | src/app/model/config.py:123 | for a key joined from plain segments with `.`, `//`, `/` or `__`, the corrected rule walks the segments, while the source's split at `___` leaves the key whole |
| ConfigEngine.RefSlashPathMisses | src/app/model/config.py:120-130 | `ref("a/b")` on `{"a": {"b": 1}}` under the source's rule misses and answers the whole root; under the corrected rule it answers `1` |
| ConfigEngine.RefAlongMissing | src/app/model/config.py:120-130 | a miss with default `None` answers an instance over the whole context |
| ConfigEngine.RefAlongScalar | src/app/model/config.py:120-130 | a path that reaches an int answers an instance over that int |
| ConfigEngine.RefPlain | src/app/model/config.py:104-132 | `ref` of a plain, uncached name holding plain text answers an instance over that text and caches it under the name |
| ConfigEngine.Render | src/app/model/config.py:356-358 | `str` of an instance with parsing off is `str` of its context |
| ConfigEngine.RenderContainer | src/app/model/config.py:360-363 | with parsing on, `str` of an instance over a dict or list is the YAML dump of the context parsed twice, the second time over the first parse's result |
| ConfigEngine.RenderText | src/app/model/config.py:356-365 | `str` of an instance (`Render`) over plain text is that text |
| ConfigEngine.RenderTemplate | src/app/model/config.py:356-365 | with parsing on, an instance over literal text (holding no `$` between the references) interleaved with references renders as the text with each reference replaced as `parse_string` replaces it |
| ConfigEngine.RenderScalar | src/app/model/config.py:356-365 | an instance over a scalar that is not a string renders as `str` of it, with parsing on or off |
| ConfigEngine.SubstituteConfigRef | src/app/model/config.py:182-184 | a `$c{..}` step replaces the token by the rendered answer of `ref` and keeps `ref`'s cache |
| ConfigEngine.SubstituteRenderFails | src/app/model/config.py:182-184 | the loop stops with the error of the first reference that fails to render |
| ConfigEngine.ParseReference | src/app/model/config.py:171-190 | `$c{a}` followed by plain text without `$` becomes the text of `a` followed by that text, and `a` is cached |
| ConfigEngine.Interpolation | src/app/model/config.py:207-226 | in a tree with `a: x` and `b: "$c{a}..."`, reading `b` gives an instance over `x...` |
| ConfigEngine.AccessParsed | src/app/model/config.py:215-226 | a first access with parsing on caches an instance over the interpolated member |
| ConfigEngine.StaleAfterWrite | src/app/model/config.py:115-118 | after `ref(a)` and then setting `a` to `y`, the tree holds `y` but `ref(a)` still answers the old value |
| ConfigEngine.SetPlain | src/app/model/config.py:228-247 | setting a plain name on an instance whose context is the root writes it into the root and keeps the cache |
| ConfigEngine.DanglingRef | src/app/model/config.py:120-130 | `ref` of a missing key answers an instance over the whole root |
| ConfigEngine.DanglingReferenceDiverges | src/app/model/config.py:120-130 | a reference to a missing key inside the tree never resolves: interpolation and rendering fail for any fuel |
| ConfigEngine.DanglingRead | src/app/model/config.py:207-226 | reading an entry that holds such a reference fails for any fuel |
| ConfigEngine.ParseStringNoTokens | src/app/model/config.py:171-190 | a string without references and the cache come back unchanged |
| ConfigEngine.UnsetEnvironment | src/app/model/config.py:186-188 | `$e{NAME}` for an unset variable becomes the text `None` |
| Images.SplitOnce | src/app/model/images.py:53 | `split(c, 1)` returns the text before the first `c` and the text after it, which rejoin into the input |
| Images.RepoPath | src/app/model/images.py:8-25 | the path starts with the url and ends with `:tag` when a tag is set; a bare name renders as itself |
| Images.FromTag | src/app/model/images.py:41-67 | all three parts are set; the url has no `/`; the name has no `:`; an empty or absent reference gives three empty parts; otherwise the url is the text before the first `/` when there are two or more, and the rest, less one trailing `:`, is `name:tag` or the bare name with an empty tag |
| Images.UrlSplit | src/app/model/images.py:49-57 | with two or more `/`, the url is the text before the first one; otherwise there is no url |
| Images.NameAndTag | src/app/model/images.py:59-65 | the name keeps no `:`; with one trailing `:` dropped, the name part is `name:tag` when it holds a `:`, the tag being everything after the first one, and otherwise the name alone with an empty tag |
| Images.TagPart | src/app/model/images.py:49-65 | `name:tag` with at most one `/` gives that name and tag and no url, for any tag without `/` that does not end in `:`, further colons included |
| Images.ColonsInTag | src/app/model/images.py:62-65 | `a:b:c` gives the name `a` and the tag `b:c` |
| Images.TrailingColonDropped | src/app/model/images.py:59-65 | `a:b:` gives the name `a` and the tag `b` |
| Images.RoundTrip | src/app/model/images.py:8-67 | rendering a reference without a url and parsing it back gives the same parts |
| Images.UntaggedGainsColon | src/app/model/images.py:8-67 | a reference without a tag parses with an empty tag, which renders as a trailing `:` |
| Images.UrlWithPlainName | src/app/model/images.py:49-51 | `url/name:tag` has a single `/` and parses with the url folded into the name |
| Loader.ParseLine | src/app/util/config.py:20-21 | unpacking succeeds exactly when the line holds one `=`; otherwise it raises `ValueError` |
| Loader.ParseLineOfPair | src/app/util/config.py:20-21 | `key=value` reads back as the stripped, lower-cased key and the stripped value |
| Loader.Entries | src/app/util/config.py:19-21 | each line of a well-formed file gives its entry, in order |
| Loader.KeysOfSettings | src/app/util/config.py:19-21 | a key is present exactly when some line names it |
| Loader.LastLineWins | src/app/util/config.py:19-21 | a key holds the value of the last line that names it |
| Loader.LoadFile | src/app/util/config.py:11-24 | an absent file gives `{}`; a well-formed file gives its settings; any malformed line raises `ValueError` |
| Loader.EmptyLineRaises | src/app/util/config.py:20 | an empty line stops the load with `ValueError` |

## Findings

| source | as written | input that shows it | evidently intended | confidence | as-written member | corrected member |
|---|---|---|---|---|---|---|
| src/app/util/object.py:529-534 | the last segment of a multi-segment write becomes an int only when the parent is a list, so a dict gets the string key `"0"`; lookups through `_reducer` read a numeric segment as an int key | `Reflective({"a": {}}).up("a/0", "v")`, then reading `a/0` | the write lands where the same path is read | not executed | ReflectiveEngine.NumericKeyWriteIsLost | ReflectiveEngine.RootUp |
| src/app/util/object.py:512-514 | a non-root write rebuilds its target from the `ref_path` of a chain of temporary instances; that path drops falsy keys such as index `0`, and stops at falsy instances such as an empty dict | `create("a")` on `{"a": {}}`, then `.up("x", 1)` | the value is written inside `a` | not executed | ReflectiveEngine.FalsyParentMisplacesWrite | ReflectiveEngine.Up |
| src/app/model/config.py:123 | `ref` splits the original key at `___`, so only keys written with `___` walk the tree; a key with `.`, `//`, `/` or `__` is looked up whole | `ref` of `a/b` on `{"a": {"b": 1}}` | walk the converted key, which is already computed as the cache key | not executed | ConfigEngine.RefSlashPathMisses | ConfigEngine.CorrectedPathOfJoin |

`ReflectiveEngine.AsWrittenAgrees` shows that the first defect affects
only a numeric last segment. `ReflectiveEngine.UpAsWrittenBelowRoot` and
`ReflectiveEngine.TruthyParentAgrees` show that the second is harmless when
the chain reaches the instance's own location. `ConfigEngine.SeparatedKeyPaths`
shows that the third affects every key built with `.`, `//`, `/` or `__`.
`up` is modelled both ways. The `Config` operations take the rule as a
parameter, so every lemma about them that names no rule holds for the
source's `ref` as well as for the corrected one.

## Left out

- I/O: file existence and reading in `load_file` are the `Option` input. `print` logging under `debug` is not modelled.
- `json.dumps`, `yaml.dump`, `repr` of containers and `str` of floats are functions supplied in `Values.Host`. The process environment is a map in `Host`.
- Interpolation depth is bounded by `fuel`. Where the source recurses forever and overflows the stack, the model gives `RecursionError`.
- `Reflective` members outside the core are not modelled: `__call__`, `__getattr__`, `__setattr__`, `__getitem__`, the other dunder methods, `_reduce`, `json`, `yaml`, and operator forwarding. The same goes for `Config`'s dict-like helpers and operator methods, and for `load_yaml`.
- ReflectiveEngine.Resolve: renders the temporary instance with the caller's root and `parsing` flag. In the source, that instance reads its own flag (default `True`) when its value equals the root's value, or when the caller is falsy and so was not linked.
- ReflectiveEngine.ResolvesAgainstRoot: covers a string with one token. Strings with several tokens are covered by `ReflectiveEngine.InterpTemplate`.
- ReflectiveEngine.Substitute: its own contract gives the string only for the empty token list, and for longer lists says only which tokens can fail. Longer lists are covered by `ReflectiveEngine.InterpTemplate`, with the premises below.
- ReflectiveEngine.InterpTemplate: states the result only when no replacement text holds a `$` and the text between references holds no `$` either. A stray `$` outside a reference is left alone by the source, but the lemma does not cover it. A replacement that holds another token's text would be rewritten again by a later step of the loop, and the lemma does not describe that. `ConfigEngine.ParseTemplate` and `ConfigEngine.RenderTemplate` have the same two premises, and `ConfigEngine.ParseReference` asks for text without `$` after its reference.
- ReflectiveEngine.UpAsWritten: its own contract states only that the arena stays valid and keeps its size. What it writes is stated by comparison with `Up`, in `UpAsWrittenAtRoot`, `UpAsWrittenBelowRoot`, `TruthyParentAgrees` and `FalsyParentMisplacesWrite`.
- ReflectiveEngine.Create: when the value found is not rebuilt (parsing off, or a falsy value), the source's new instance wraps the very object inside the root's tree, so a later write through the root is seen through the child. The arena holds a copy, so such a child keeps the value it had when it was created. YAML anchors, which make two places of a tree one object, are not modelled for the same reason.
- ReflectiveEngine.Delegates: compares values structurally. Python's `!=` ignores the key order of dicts and treats `1`, `1.0` and `True` as equal, so an instance may delegate in the model where it does not in the source.
- ReflectiveEngine.Chain: treats every segment as a tree key. In the source, a segment naming one of the instance's own attributes (`_ref`, `_parent`, ...) is returned by `__getitem__`. The temporaries' interpolation uses the original root and flag, with the same approximation as for `Resolve`.
- ConfigEngine.Substitute: its own contract gives the string and the cache only for the empty token list. Longer lists are covered by `ConfigEngine.ParseTemplate`, with the premises above.
- ConfigEngine.Render: the cache entries gained while rendering an instance are discarded, because the model does not keep that instance's cache.
- ConfigEngine.SetField: assigning `_cache` gives `Unsupported`. `_debug` and `_parsing` store the truth value of what is assigned. Callable fields, which the source calls instead of storing, are not modelled.
- ConfigEngine.GetAttr: special (`__x__`) names, which Python resolves on the class or on `object`, are treated as tree keys.
- `Config` instances created from one another share one root object in the source. In the model each holds its own snapshot, so a write through one instance is not seen by the others. `SetAttr` records whether the context is the root object itself (`aliased`), and then writes both.
- Strings.IsNumeric: `str.isnumeric` is modelled for the ASCII digits only. `lower` is modelled for the ASCII letters only.
- Tokens.IsLetter: only the ASCII letters. Under `re.IGNORECASE`, Python's `[a-z]` also matches `İ`, `ı`, `ſ` and the Kelvin sign `K`, so a path holding them is found by the source and not by the model.
- Values.Value: a `Float` is a real number. YAML's `.nan` and `.inf` are not modelled.
- Dict keys: Python's `True == 1` and `1.0 == 1` key aliasing is not modelled. YAML keys are strings or ints.
- Concurrency: none exists in the source.
