/** The `Config` engine of src/app/model/config.py.

    A `Config` wraps a root tree and a context (the part of the tree it
    stands for), two flags, and a per-instance cache of the `Config`s it has
    handed out.  `ref` looks a path up and memoises the answer under the
    path's converted key; attribute and item access memoise under the raw
    key; interpolation (`parse`) expands `$c{path}` and `$e{NAME}` tokens and
    fills the cache as a side effect.  Nothing ever removes a cache entry.

    Every operation that touches the cache returns the cache it leaves
    behind, so the Python object's mutation is explicit here.
 */
module ConfigEngine {
  import opened Wrappers
  import opened Strings
  import opened Values
  import opened Paths
  import opened Tokens

  datatype Config = Config(
    root: Value,
    context: Value,
    /** the context is the root object itself, so writes to one are writes
        to the other */
    aliased: bool,
    debug: bool,
    parsing: bool,
    cache: map<string, Config>)

  /** `after` only adds entries: every key of `before` is still there,
      bound to the same instance. */
  predicate Extends(before: map<string, Config>, after: map<string, Config>)
  {
    forall k :: k in before ==> k in after && after[k] == before[k]
  }

  lemma ExtendsTransitive(a: map<string, Config>, b: map<string, Config>, c: map<string, Config>)
    requires Extends(a, b) && Extends(b, c)
    ensures Extends(a, c)
  {
  }

  /** `Config.__init__`: a missing context (None) with a present root makes
      the root the context; the cache starts empty. */
  function Init(root: Value, context: Value, debug: bool, parsing: bool): (c: Config)
    ensures c.cache == map[]
    ensures c.root == root && c.debug == debug && c.parsing == parsing
    ensures !context.Null? ==> c.context == context && !c.aliased
    ensures context.Null? ==> c.aliased == !root.Null? && c.context == root
  {
    if context.Null? && !root.Null? then Config(root, root, true, debug, parsing, map[])
    else Config(root, context, false, debug, parsing, map[])
  }

  /** Which segments `ref` walks.  `AsWritten` is the source's rule: the key
      as given, split at `___` (src/app/model/config.py:123), so a key written
      with `.`, `/`, `//` or `__` is looked up whole.  `Corrected` walks the
      converted key, which the source already computes as its cache key; a
      key that itself contains `___` is split as given under both rules, so
      every key the source walks keeps its meaning.  Every operation below
      that can reach `ref` takes the rule. */
  datatype RefRule = AsWritten | Corrected

  function RefPath(rule: RefRule, key: string): (path: seq<PathKey>)
    ensures |path| >= 1
  {
    if rule.AsWritten? || Contains(key, Internal) then Names(Split(key, Internal))
    else Names(Split(ConvertKey(key), Internal))
  }

  /** The segments of a path are the pieces of a text that `___` rejoins:
      the key itself under the source's rule or when it holds `___`, and its
      conversion otherwise. */
  lemma RefPathTexts(rule: RefRule, key: string) returns (texts: seq<string>)
    ensures RefPath(rule, key) == Names(texts)
    ensures rule.AsWritten? || Contains(key, Internal) ==> Join(texts, Internal) == key
    ensures rule.Corrected? && !Contains(key, Internal) ==> Join(texts, Internal) == ConvertKey(key)
  {
    if rule.AsWritten? || Contains(key, Internal) {
      texts := Split(key, Internal);
      JoinSplit(key, Internal);
    } else {
      texts := Split(ConvertKey(key), Internal);
      JoinSplit(ConvertKey(key), Internal);
    }
  }

  /** A key that already contains `___` walks the same path under both
      rules. */
  lemma RulesAgreeOnInternal(key: string)
    requires Contains(key, Internal)
    ensures RefPath(Corrected, key) == RefPath(AsWritten, key)
  {
  }

  /** The corrected rule walks the segments of any key built from plain
      segments with `.`, `//`, `/`, `__` or `___`. */
  lemma CorrectedPathOfJoin(parts: seq<string>, sep: string)
    requires |parts| >= 1
    requires forall i :: 0 <= i < |parts| ==> Plain(parts[i])
    requires sep in SegmentSeparators || sep == Internal
    ensures RefPath(Corrected, Join(parts, sep)) == Names(parts)
  {
    var key := Join(parts, sep);
    forall i | 0 <= i < |parts|
      ensures Avoids(parts[i], Internal)
    {
      PlainAvoids(parts[i], Internal);
    }
    if sep == Internal {
      if |parts| == 1 {
        PlainHasNoSeparator(parts[0]);
        AbsentByChar(parts[0], Internal);
        SplitAbsent(parts[0], Internal);
      } else {
        JoinedKey(parts, Internal);
      }
    } else {
      JoinLacksInternal(parts, sep);
      ConvertJoin(parts, sep);
      SplitJoin(parts, Internal);
    }
  }

  /** A key written with `___` walks its segments under both rules. */
  lemma {:induction false} InternalJoinPath(rule: RefRule, parts: seq<string>)
    requires |parts| >= 2
    requires forall i :: 0 <= i < |parts| ==> Plain(parts[i])
    ensures RefPath(rule, Join(parts, Internal)) == Names(parts)
  {
    if rule.Corrected? {
      CorrectedPathOfJoin(parts, Internal);
    } else {
      JoinedKey(parts, Internal);
    }
  }

  /** The value an interpolation produced, and the cache it left. */
  datatype Parsed = Parsed(value: Value, cache: map<string, Config>)

  /** The instance `ref` returned, and the cache it left. */
  datatype Reffed = Reffed(entry: Config, cache: map<string, Config>)

  /** `ref(context, key, default, parse)` walking `path`: a cached entry under
      the converted key is returned as it is; otherwise the path is looked up
      (a miss gives `default`), a truthy result is interpolated when `parse`
      is set, and a new instance over it is cached and returned. */
  function RefAlong(rule: RefRule, self: Config, cache: map<string, Config>, context: Value, key: string,
                    path: seq<PathKey>, default: Value, parse: bool, host: Host, fuel: nat): (r: Result<Reffed>)
    ensures r.Ok? ==> ConvertKey(key) in r.value.cache && r.value.cache[ConvertKey(key)] == r.value.entry
    ensures r.Ok? ==> Extends(cache, r.value.cache)
    ensures ConvertKey(key) in cache ==> r == Ok(Reffed(cache[ConvertKey(key)], cache))
    ensures ConvertKey(key) !in cache && Walk(context, path).OutOfRange? ==> r == Err(IndexError)
    ensures ConvertKey(key) !in cache && Walk(context, path).Missing? && !(Truthy(default) && parse) ==>
      r.Ok? && r.value.entry == Init(context, default, self.debug, self.parsing)
    ensures ConvertKey(key) !in cache && Walk(context, path).Found? && !(Truthy(Walk(context, path).value) && parse) ==>
      r.Ok? && r.value.entry == Init(context, Walk(context, path).value, self.debug, self.parsing)
    ensures ConvertKey(key) !in cache && Walk(context, path).Found? && Truthy(Walk(context, path).value) && parse ==>
      r.Ok? ==> Shaped(Walk(context, path).value, r.value.entry.context)
    ensures ConvertKey(key) !in cache && Walk(context, path).Missing? && Truthy(default) && parse ==>
      r.Ok? ==> Shaped(default, r.value.entry.context)
    decreases fuel, 3, 0, 0
  {
    var ck := ConvertKey(key);
    if ck in cache then Ok(Reffed(cache[ck], cache))
    else
      var found :- Fetch(context, path, default);
      var parsed :- if Truthy(found) && parse then Parse(rule, self, cache, context, found, host, fuel)
                    else Ok(Parsed(found, cache));
      var entry := Init(context, parsed.value, self.debug, self.parsing);
      Ok(Reffed(entry, parsed.cache[ck := entry]))
  }

  /** `Config.parse(context, value)`: strings are interpolated, dicts and
      lists are rebuilt element by element, everything else is returned as it
      is.  The result has the shape of the input, and the cache only grows. */
  function Parse(rule: RefRule, self: Config, cache: map<string, Config>, context: Value, v: Value,
                 host: Host, fuel: nat): (r: Result<Parsed>)
    ensures r.Ok? ==> Shaped(v, r.value.value) && Extends(cache, r.value.cache)
    decreases fuel, 2, Size(v), 1
  {
    match v
    case Str(s) =>
      var out :- ParseString(rule, self, cache, context, s, host, fuel);
      Ok(Parsed(Str(out.value.s), out.cache))
    case List(xs) =>
      ParseItems(rule, self, cache, context, xs, host, fuel)
    case Map(es) =>
      ParseEntries(rule, self, cache, context, es, host, fuel)
    case _ => Ok(Parsed(v, cache))
  }

  /** `Config.parse_list` */
  function ParseItems(rule: RefRule, self: Config, cache: map<string, Config>, context: Value, xs: seq<Value>,
                      host: Host, fuel: nat): (r: Result<Parsed>)
    ensures r.Ok? ==> Shaped(List(xs), r.value.value) && Extends(cache, r.value.cache)
    decreases fuel, 2, ItemsSize(xs), 2
  {
    if |xs| == 0 then Ok(Parsed(List([]), cache))
    else
      var head :- Parse(rule, self, cache, context, xs[0], host, fuel);
      var tail :- ParseItems(rule, self, head.cache, context, xs[1..], host, fuel);
      assert xs == [xs[0]] + xs[1..];
      ShapedConsItem(xs[0], xs[1..], head.value, tail.value.items);
      Ok(Parsed(List([head.value] + tail.value.items), tail.cache))
  }

  /** `Config.parse_dict` */
  function ParseEntries(rule: RefRule, self: Config, cache: map<string, Config>, context: Value, es: seq<Entry>,
                        host: Host, fuel: nat): (r: Result<Parsed>)
    ensures r.Ok? ==> Shaped(Map(es), r.value.value) && Extends(cache, r.value.cache)
    decreases fuel, 2, EntriesSize(es), 2
  {
    if |es| == 0 then Ok(Parsed(Map([]), cache))
    else
      assert es[0] in es;
      assert es[0].val < es[0];
      var head :- Parse(rule, self, cache, context, es[0].val, host, fuel);
      var tail :- ParseEntries(rule, self, head.cache, context, es[1..], host, fuel);
      assert es == [es[0]] + es[1..];
      ShapedConsEntry(es[0], es[1..], head.value, tail.value.entries);
      Ok(Parsed(Map([Entry(es[0].key, head.value)] + tail.value.entries), tail.cache))
  }

  /** `Config.parse_string`: the tokens `Config`'s pattern finds, substituted
      in order. */
  function ParseString(rule: RefRule, self: Config, cache: map<string, Config>, context: Value, s: string,
                       host: Host, fuel: nat): (r: Result<Parsed>)
    ensures r.Ok? ==> r.value.value.Str? && Extends(cache, r.value.cache)
    decreases fuel, 1, 0, 0
  {
    Substitute(rule, self, cache, context, s, FindAll(ConfigPattern, s), host, fuel)
  }

  /** The loop of `parse_string`: each token's text is replaced everywhere in
      the current string, a `$c{..}` token by the text of the instance `ref`
      returns, a `$e{..}` token by the environment variable. */
  function Substitute(rule: RefRule, self: Config, cache: map<string, Config>, context: Value, cur: string,
                      tokens: seq<Token>, host: Host, fuel: nat): (r: Result<Parsed>)
    ensures r.Ok? ==> r.value.value.Str? && Extends(cache, r.value.cache)
    ensures |tokens| == 0 ==> r == Ok(Parsed(Str(cur), cache))
    decreases fuel, 0, |tokens|, 0
  {
    if |tokens| == 0 then Ok(Parsed(Str(cur), cache))
    else
      var t := tokens[0];
      if IsConfigRef(t) then
        if fuel == 0 then Err(RecursionError)
        else
          var out :- RefAlong(rule, self, cache, context, t.path, RefPath(rule, t.path), Null, self.parsing, host, fuel - 1);
          var text :- Render(rule, out.entry, host, fuel - 1);
          Substitute(rule, self, out.cache, context, Replace(cur, TokenText(t), text), tokens[1..], host, fuel)
      else
        Substitute(rule, self, cache, context, Replace(cur, TokenText(t), Getenv(host, t.path)), tokens[1..], host, fuel)
  }

  /** `Config.__str__`: without parsing, `str` of the context; with parsing,
      the interpolated context, where a container is dumped as YAML after
      `yaml()` interpolates it once more. */
  function Render(rule: RefRule, c: Config, host: Host, fuel: nat): (r: Result<string>)
    ensures !c.parsing ==> r == Ok(PyStr(host, c.context))
    decreases fuel, 3, 0, 0
  {
    if !c.parsing then Ok(PyStr(host, c.context))
    else
      var p :- Parse(rule, c, c.cache, c.root, c.context, host, fuel);
      if IsContainer(p.value) then
        var q :- Parse(rule, c, p.cache, c.root, p.value, host, fuel);
        Ok(host.yaml(q.value))
      else Ok(PyStr(host, p.value))
  }

  /** `Config.ref`, navigating along the converted key. */
  function Ref(rule: RefRule, self: Config, context: Value, key: string, default: Value, parse: bool,
               host: Host, fuel: nat): (r: Result<Reffed>)
    ensures r.Ok? ==> ConvertKey(key) in r.value.cache && r.value.cache[ConvertKey(key)] == r.value.entry
    ensures r.Ok? ==> Extends(self.cache, r.value.cache)
    ensures ConvertKey(key) in self.cache ==> r == Ok(Reffed(self.cache[ConvertKey(key)], self.cache))
    ensures var w := Walk(context, RefPath(rule, key));
      ConvertKey(key) !in self.cache ==>
        && (w.OutOfRange? ==> r == Err(IndexError))
        && (w.Missing? && !(Truthy(default) && parse) ==>
              r.Ok? && r.value.entry == Init(context, default, self.debug, self.parsing))
        && (w.Found? && !(Truthy(w.value) && parse) ==>
              r.Ok? && r.value.entry == Init(context, w.value, self.debug, self.parsing))
        && (w.Found? && Truthy(w.value) && parse && r.Ok? ==> Shaped(w.value, r.value.entry.context))
  {
    RefAlong(rule, self, self.cache, context, key, RefPath(rule, key), default, parse, host, fuel)
  }

  /** Memoisation: once `ref` has stored an entry, any later `ref` whose key
      converts to the same cache key returns that entry and leaves the cache
      alone, whatever the context, default or flags of the later call. */
  lemma RefMemoised(rule: RefRule, self: Config, context: Value, key: string, default: Value, parse: bool,
                    host: Host, fuel: nat,
                    context': Value, key': string, default': Value, parse': bool, fuel': nat)
    requires Ref(rule, self, context, key, default, parse, host, fuel).Ok?
    requires ConvertKey(key') == ConvertKey(key)
    ensures var first := Ref(rule, self, context, key, default, parse, host, fuel).value;
      Ref(rule, self.(cache := first.cache), context', key', default', parse', host, fuel')
        == Ok(Reffed(first.entry, first.cache))
  {
  }

  /** What `__getattr__` and `__getitem__` hand back. */
  datatype Item =
    | Field(name: string)   // an instance field, or an attribute of the class
    | Node(entry: Config)   // a `Config` over a part of the tree

  /** The instance's own fields, which attribute and item access return
      before looking at the tree. */
  const InstanceFields: set<string> := {"_cache", "_root", "_context", "_debug", "_parsing"}

  /** The names the class itself defines other than special methods: its
      properties, its methods and its class attributes.  Python's ordinary
      attribute lookup finds them before `__getattr__` is consulted. */
  const ClassAttributes: set<string> := {
    "_cache", "_root", "_context", "_debug", "_parsing", "_ref_pattern",
    "root", "context", "debug", "parsing", "_log", "json", "yaml", "_convert_key",
    "ref", "parse", "parse_dict", "parse_list", "parse_string",
    "get", "set", "update", "copy", "clear", "keys", "values", "items", "pop"}

  /** Names attribute access resolves without looking at the tree. */
  const Attributes: set<string> := InstanceFields + ClassAttributes

  /** Every such name is at least three characters long. */
  lemma ShortNameNotAttribute(k: string)
    requires |k| < 3
    ensures k !in Attributes
  {
  }

  /** `key in context` followed by `context[key]`: the value under a present
      key of a dict; `{}` when the key is absent; a `TypeError` when the
      context is not a dict (a list or string that passes the membership test
      cannot be indexed by a string, and the other scalars do not support
      `in`). */
  function Member(context: Value, key: string): (r: Result<Value>)
    ensures context.Map? ==> r.Ok?
    ensures context.Map? && KStr(key) !in Keys(context.entries) ==> r == Ok(Map([]))
    ensures context.Map? && KStr(key) in Keys(context.entries) ==>
      r == Ok(Lookup(context.entries, KStr(key)).value)
    ensures !context.Map? && !context.List? && !context.Str? ==> r == Err(TypeError)
  {
    match context
    case Map(es) =>
      (match Lookup(es, KStr(key))
       case Some(v) => Ok(v)
       case None => Ok(Map([])))
    case List(xs) => if Str(key) in xs then Err(TypeError) else Ok(Map([]))
    case Str(s) => if Contains(s, key) then Err(TypeError) else Ok(Map([]))
    case _ => Err(TypeError)
  }

  /** The value an access interpolates: the member, parsed against the root
      when parsing is on. */
  function AccessContext(rule: RefRule, self: Config, key: string, host: Host, fuel: nat): (r: Result<Parsed>)
    ensures r.Ok? ==> Extends(self.cache, r.value.cache)
    ensures r.Ok? ==> Member(self.context, key).Ok? && Shaped(Member(self.context, key).value, r.value.value)
  {
    var context :- Member(self.context, key);
    if self.parsing then Parse(rule, self, self.cache, self.root, context, host, fuel)
    else
      ShapedReflexive(context);
      Ok(Parsed(context, self.cache))
  }

  lemma ShapedReflexive(v: Value)
    ensures Shaped(v, v)
  {
  }

  /** The item an access returns, and the instance it leaves. */
  datatype Accessed = Accessed(item: Item, self: Config)

  /** `cfg.key`: an instance field or class attribute, found by ordinary
      lookup; else (`Config.__getattr__`) the instance cached under the raw
      key; else a new instance over the (interpolated) member, which is
      cached under the raw key. */
  function GetAttr(rule: RefRule, self: Config, key: string, host: Host, fuel: nat): (r: Result<Accessed>)
    ensures key in Attributes ==> r == Ok(Accessed(Field(key), self))
    ensures key !in Attributes && key in self.cache ==> r == Ok(Accessed(Node(self.cache[key]), self))
    ensures r.Ok? && key !in Attributes ==>
      && key in r.value.self.cache
      && r.value.item == Node(r.value.self.cache[key])
      && Extends(self.cache, r.value.self.cache)
      && r.value.self == self.(cache := r.value.self.cache)
  {
    if key in Attributes then Ok(Accessed(Field(key), self))
    else if key in self.cache then Ok(Accessed(Node(self.cache[key]), self))
    else
      var p :- AccessContext(rule, self, key, host, fuel);
      var entry := Init(self.root, p.value, self.debug, self.parsing);
      Ok(Accessed(Node(entry), self.(cache := p.cache[key := entry])))
  }

  /** `'.' in key or '/' in key or '__' in key` */
  predicate HasSeparator(key: string)
  {
    Contains(key, ".") || Contains(key, "/") || Contains(key, "__")
  }

  /** `Config.__getitem__(key)`: like `__getattr__`, except that a key with a
      separator, once its member has been computed, is handed to `ref` on the
      root and its answer is not cached under the raw key. */
  function GetItem(rule: RefRule, self: Config, key: string, host: Host, fuel: nat): (r: Result<Accessed>)
    ensures key in InstanceFields ==> r == Ok(Accessed(Field(key), self))
    ensures key !in InstanceFields && key in self.cache ==> r == Ok(Accessed(Node(self.cache[key]), self))
    ensures r.Ok? && key !in InstanceFields ==> Extends(self.cache, r.value.self.cache)
    ensures r.Ok? && key !in InstanceFields && key !in self.cache && HasSeparator(key) ==>
      && ConvertKey(key) in r.value.self.cache
      && r.value.item == Node(r.value.self.cache[ConvertKey(key)])
  {
    if key in InstanceFields then Ok(Accessed(Field(key), self))
    else if key in self.cache then Ok(Accessed(Node(self.cache[key]), self))
    else
      var p :- AccessContext(rule, self, key, host, fuel);
      if HasSeparator(key) then
        var out :- RefAlong(rule, self, p.cache, self.root, key, RefPath(rule, key), Null, self.parsing, host, fuel);
        ExtendsTransitive(self.cache, p.cache, out.cache);
        Ok(Accessed(Node(out.entry), self.(cache := out.cache)))
      else
        var entry := Init(self.root, p.value, self.debug, self.parsing);
        Ok(Accessed(Node(entry), self.(cache := p.cache[key := entry])))
  }

  /** The names `__setattr__` tries, in order: the key, then its
      `_`-prefixed form unless it already starts with `_`. */
  function TestKeys(key: string): seq<string>
  {
    if StartsWith(key, "_") then [key] else [key, "_" + key]
  }

  /** `self.__dict__[field] = value` */
  function SetField(self: Config, field: string, value: Value): (r: Result<Config>)
    requires field in InstanceFields
    ensures r.Ok? <==> field != "_cache"
    ensures r.Ok? ==> r.value.cache == self.cache
    ensures field == "_root" ==> r.value.root == value && r.value.context == self.context && !r.value.aliased
    ensures field == "_context" ==> r.value.context == value && r.value.root == self.root && !r.value.aliased
    ensures field == "_debug" || field == "_parsing" ==>
      r.value.root == self.root && r.value.context == self.context && r.value.aliased == self.aliased
  {
    if field == "_root" then Ok(self.(root := value, aliased := false))
    else if field == "_context" then Ok(self.(context := value, aliased := false))
    else if field == "_debug" then Ok(self.(debug := Truthy(value)))
    else if field == "_parsing" then Ok(self.(parsing := Truthy(value)))
    else Err(Unsupported)
  }

  /** `Config.__setattr__(key, value)`: the first test key naming an instance
      field is set; otherwise `context[key] = value`, which only a dict
      context accepts, and which the root sees when the context is the root.
      The cache is never touched. */
  function SetAttr(self: Config, key: string, value: Value): (r: Result<Config>)
    ensures r.Ok? ==> r.value.cache == self.cache
    ensures (forall k :: k in TestKeys(key) ==> k !in InstanceFields) ==>
      && (r.Ok? <==> self.context.Map?)
      && (r.Ok? ==> r.value.context == Map(SetKey(self.context.entries, KStr(key), value)))
      && (r.Ok? ==> r.value.root == if self.aliased then r.value.context else self.root)
  {
    var tests := TestKeys(key);
    if tests[0] in InstanceFields then SetField(self, tests[0], value)
    else if |tests| == 2 && tests[1] in InstanceFields then SetField(self, tests[1], value)
    else
      match self.context
      case Map(es) =>
        var ctx := Map(SetKey(es, KStr(key), value));
        Ok(self.(context := ctx, root := if self.aliased then ctx else self.root))
      case _ => Err(TypeError)
  }

  /** What `__call__` returns: the raw context, or the instance `ref` gave. */
  datatype Called = Context(value: Value) | Handed(entry: Config, self: Config)

  /** `Config.__call__(key, default)`: no key gives the context; a key is
      looked up with `ref` on the root. */
  function Call(rule: RefRule, self: Config, key: Option<string>, default: Value, host: Host, fuel: nat): (r: Result<Called>)
    ensures key.None? ==> r == Ok(Context(self.context))
    ensures key.Some? && r.Ok? ==>
      && r.value.Handed?
      && ConvertKey(key.value) in r.value.self.cache
      && r.value.self.cache[ConvertKey(key.value)] == r.value.entry
  {
    match key
    case None => Ok(Context(self.context))
    case Some(k) =>
      var out :- Ref(rule, self, self.root, k, default, self.parsing, host, fuel);
      Ok(Handed(out.entry, self.(cache := out.cache)))
  }

  /** Item access on a name that is neither an attribute nor separated is
      attribute access. */
  lemma GetItemAsAttr(rule: RefRule, self: Config, key: string, host: Host, fuel: nat)
    requires key !in Attributes && !HasSeparator(key)
    ensures GetItem(rule, self, key, host, fuel) == GetAttr(rule, self, key, host, fuel)
  {
  }

  /** Item access on a new separated key is `__call__` with that key and no
      default, provided computing the member left the cache alone (as it
      does without parsing); the member is still computed first, so an
      access whose member raises raises though `ref` would answer. */
  lemma GetItemIsCall(rule: RefRule, self: Config, key: string, p: Parsed, host: Host, fuel: nat)
    requires key !in InstanceFields && key !in self.cache && HasSeparator(key)
    requires AccessContext(rule, self, key, host, fuel) == Ok(p) && p.cache == self.cache
    ensures GetItem(rule, self, key, host, fuel).Ok? <==> Call(rule, self, Some(key), Null, host, fuel).Ok?
    ensures GetItem(rule, self, key, host, fuel).Ok? ==>
      var called := Call(rule, self, Some(key), Null, host, fuel).value;
      called.Handed? && GetItem(rule, self, key, host, fuel).value == Accessed(Node(called.entry), called.self)
  {
  }

  /** Without parsing, the member is computed without touching the cache. */
  lemma AccessKeepsCache(rule: RefRule, self: Config, key: string, host: Host, fuel: nat)
    requires !self.parsing && Member(self.context, key).Ok?
    ensures AccessContext(rule, self, key, host, fuel) == Ok(Parsed(Member(self.context, key).value, self.cache))
  {
  }

  /** A second `__call__` with a key of the same conversion hands back the
      instance the first one handed back, and changes nothing. */
  lemma CallRepeats(rule: RefRule, self: Config, key: string, default: Value, host: Host, fuel: nat,
                    key': string, default': Value, fuel': nat)
    requires Call(rule, self, Some(key), default, host, fuel).Ok?
    requires ConvertKey(key') == ConvertKey(key)
    ensures var first := Call(rule, self, Some(key), default, host, fuel).value;
      first.Handed? && Call(rule, first.self, Some(key'), default', host, fuel') == Ok(first)
  {
    var first := Call(rule, self, Some(key), default, host, fuel).value;
    var again := Ref(rule, first.self, first.self.root, key', default', first.self.parsing, host, fuel');
    assert again == Ok(Reffed(first.entry, first.self.cache));
    assert first.self.(cache := first.self.cache) == first.self;
  }

  /** With parsing on, an instance over literal text interleaved with
      references renders as the text with each reference replaced by what
      it resolves to. */
  lemma RenderTemplate(rule: RefRule, c: Config, texts: seq<string>, toks: seq<Token>,
                       res: map<Token, string>, final: map<string, Config>, host: Host, fuel: nat)
    requires |texts| == |toks| + 1 && Literal(texts) && Accepted(ConfigPattern, toks)
    requires c.parsing && c.context == Str(Template(texts, toks))
    requires Trace(rule, c, c.cache, c.root, toks, res, final, host, fuel)
    ensures Render(rule, c, host, fuel) == Ok(Fill(texts, toks, res))
  {
    ParseTemplate(rule, c, c.cache, c.root, texts, toks, res, final, host, fuel);
  }

  /** An instance over a scalar that is not a string renders as `str` of
      it, with parsing on or off. */
  lemma RenderScalar(rule: RefRule, c: Config, host: Host, fuel: nat)
    requires !IsContainer(c.context) && !c.context.Str?
    ensures Render(rule, c, host, fuel) == Ok(PyStr(host, c.context))
  {
  }

  /** With parsing on, an instance over a container renders as the YAML dump
      of its context interpolated twice: once by `__str__`, once more by
      `yaml()`, the second pass starting from the cache the first left. */
  lemma RenderContainer(rule: RefRule, c: Config, p: Parsed, q: Parsed, host: Host, fuel: nat)
    requires c.parsing && IsContainer(c.context)
    requires Parse(rule, c, c.cache, c.root, c.context, host, fuel) == Ok(p)
    requires Parse(rule, c, p.cache, c.root, p.value, host, fuel) == Ok(q)
    ensures Render(rule, c, host, fuel) == Ok(host.yaml(q.value))
  {
  }

  /** Repeated attribute access returns the instance the first access cached,
      and changes nothing. */
  lemma GetAttrRepeats(rule: RefRule, self: Config, key: string, host: Host, fuel: nat, fuel': nat)
    requires key !in Attributes
    requires GetAttr(rule, self, key, host, fuel).Ok?
    ensures var first := GetAttr(rule, self, key, host, fuel).value;
      GetAttr(rule, first.self, key, host, fuel') == Ok(first)
  {
  }

  /** A dict context without the key gives an instance over `{}`. */
  lemma AbsentKeyGivesEmpty(rule: RefRule, self: Config, key: string, host: Host, fuel: nat)
    requires key !in Attributes && key !in self.cache
    requires self.context.Map? && KStr(key) !in Keys(self.context.entries)
    ensures GetAttr(rule, self, key, host, fuel).Ok?
    ensures GetAttr(rule, self, key, host, fuel).value.item.Node?
    ensures GetAttr(rule, self, key, host, fuel).value.item.entry.context == Map([])
  {
    var p := AccessContext(rule, self, key, host, fuel);
    if self.parsing {
      assert Parse(rule, self, self.cache, self.root, Map([]), host, fuel)
        == Ok(Parsed(Map([]), self.cache));
    }
  }

  /** An entry under a string key, for the examples below. */
  function Leaf(k: string, v: Value): Entry
  {
    Entry(KStr(k), v)
  }

  /** A key without separators converts to itself and is a single segment. */
  lemma SimpleKey(rule: RefRule, k: string)
    requires Avoids(k, "./_")
    ensures ConvertKey(k) == k
    ensures RefPath(rule, k) == [Name(k)]
  {
    AbsentByChar(k, ".");
    AbsentByChar(k, "//");
    AbsentByChar(k, "/");
    AbsentByChar(k, "__");
    assert FirstSeparator(k, ConvertSeparators) == None;
    AbsentByChar(k, Internal);
    SplitAbsent(k, Internal);
  }

  /** For a key built from two or more plain segments with `.`, `//`, `/`
      or `__`, the corrected rule walks the segments, while the source's
      split at `___` leaves the key whole. */
  lemma SeparatedKeyPaths(parts: seq<string>, sep: string)
    requires |parts| >= 2
    requires forall i :: 0 <= i < |parts| ==> Plain(parts[i])
    requires sep in SegmentSeparators
    ensures RefPath(Corrected, Join(parts, sep)) == Names(parts)
    ensures RefPath(AsWritten, Join(parts, sep)) == [Name(Join(parts, sep))]
  {
    var key := Join(parts, sep);
    CorrectedPathOfJoin(parts, sep);
    JoinLacksInternal(parts, sep);
    SplitAbsent(key, Internal);
  }

  /** `ref` of `a/b` on `{"a": {"b": 1}}`: the source's rule walks the
      single segment `a/b`, misses, and hands back an instance over the
      whole root; the corrected rule finds `1`. */
  lemma RefSlashPathMisses(host: Host, fuel: nat)
    ensures var root := Map([Leaf("a", Map([Leaf("b", Int(1))]))]);
      var self := Init(root, Null, false, true);
      && Ref(AsWritten, self, root, "a/b", Null, true, host, fuel).Ok?
      && Ref(AsWritten, self, root, "a/b", Null, true, host, fuel).value.entry.context == root
      && Ref(Corrected, self, root, "a/b", Null, true, host, fuel).Ok?
      && Ref(Corrected, self, root, "a/b", Null, true, host, fuel).value.entry.context == Int(1)
  {
    var root := Map([Leaf("a", Map([Leaf("b", Int(1))]))]);
    var self := Init(root, Null, false, true);
    assert Join(["a", "b"], "/") == "a/b";
    assert Plain("a") && Plain("b");
    SeparatedKeyPaths(["a", "b"], "/");
    NestedWalks();
    RefAlongMissing(AsWritten, self, map[], root, "a/b", RefPath(AsWritten, "a/b"), true, host, fuel);
    RefAlongScalar(Corrected, self, map[], root, "a/b", RefPath(Corrected, "a/b"), Int(1), Null, true, host, fuel);
  }

  lemma NestedWalks()
    ensures var root := Map([Leaf("a", Map([Leaf("b", Int(1))]))]);
      && Walk(root, Names(["a", "b"])) == Found(Int(1))
      && Walk(root, [Name("a/b")]) == Missing
  {
  }

  /** A path that misses with the default `None` hands back an instance
      over the whole tree `ref` was given. */
  lemma RefAlongMissing(rule: RefRule, self: Config, cache: map<string, Config>, context: Value, key: string,
                        path: seq<PathKey>, parse: bool, host: Host, fuel: nat)
    requires ConvertKey(key) !in cache && Walk(context, path).Missing? && !context.Null?
    ensures RefAlong(rule, self, cache, context, key, path, Null, parse, host, fuel).Ok?
    ensures RefAlong(rule, self, cache, context, key, path, Null, parse, host, fuel).value.entry.context == context
  {
  }

  /** A path that reaches an int hands back an instance over that int. */
  lemma RefAlongScalar(rule: RefRule, self: Config, cache: map<string, Config>, context: Value, key: string,
                       path: seq<PathKey>, v: Value, default: Value, parse: bool, host: Host, fuel: nat)
    requires ConvertKey(key) !in cache && Walk(context, path) == Found(v) && v.Int?
    ensures RefAlong(rule, self, cache, context, key, path, default, parse, host, fuel).Ok?
    ensures RefAlong(rule, self, cache, context, key, path, default, parse, host, fuel).value.entry.context == v
  {
  }

  /** A key that both engines and `Config`'s pattern take as one plain
      name: a letter followed by letters and digits. */
  predicate PlainName(a: string)
  {
    Plain(a) && ValidPath(ConfigPattern, a)
  }

  lemma PlainNamePath(rule: RefRule, a: string)
    requires PlainName(a)
    ensures ConvertKey(a) == a && RefPath(rule, a) == [Name(a)]
    ensures Select(Name(a)) == ByName(a)
  {
    SimpleKey(rule, a);
    assert !IsDigit(a[0]);
  }

  /** `ref` of a plain name that holds a string without references, not yet
      cached: an instance over that string, now cached under the name. */
  lemma RefPlain(rule: RefRule, self: Config, cache: map<string, Config>, root: Value, a: string, x: string,
                 host: Host, fuel: nat)
    requires PlainName(a) && a !in cache
    requires root.Map? && Lookup(root.entries, KStr(a)) == Some(Str(x))
    requires '$' !in x
    ensures var entry := Init(root, Str(x), self.debug, self.parsing);
      RefAlong(rule, self, cache, root, a, RefPath(rule, a), Null, self.parsing, host, fuel)
        == Ok(Reffed(entry, cache[a := entry]))
  {
    PlainNamePath(rule, a);
    assert Walk(root, [Name(a)]) == Found(Str(x));
    NoDollarNoTokens(ConfigPattern, x);
    ParseStringNoTokens(rule, self, cache, root, x, host, fuel);
    assert Parse(rule, self, cache, root, Str(x), host, fuel) == Ok(Parsed(Str(x), cache));
  }

  /** An instance over a string without references renders as that string. */
  lemma RenderText(rule: RefRule, root: Value, x: string, debug: bool, host: Host, fuel: nat)
    requires '$' !in x
    ensures Render(rule, Init(root, Str(x), debug, true), host, fuel) == Ok(x)
  {
    var c := Init(root, Str(x), debug, true);
    NoDollarNoTokens(ConfigPattern, x);
    ParseStringNoTokens(rule, c, c.cache, c.root, x, host, fuel);
  }

  /** Replacing a token's text at the head of a string whose rest holds no
      `$`. */
  lemma ReplaceToken(t: Token, suffix: string, x: string)
    requires '$' !in suffix
    ensures Replace(TokenText(t) + suffix, TokenText(t), x) == x + suffix
  {
    assert Avoids(suffix, [TokenText(t)[0]]);
    AbsentByChar(suffix, TokenText(t));
    ReplaceLeading(TokenText(t), suffix, x);
  }

  lemma SubstituteOne(rule: RefRule, self: Config, cache: map<string, Config>, root: Value, a: string, x: string,
                      suffix: string, host: Host, fuel: nat)
    requires fuel >= 1 && self.parsing
    requires PlainName(a) && a !in cache
    requires root.Map? && Lookup(root.entries, KStr(a)) == Some(Str(x))
    requires '$' !in x && '$' !in suffix
    ensures var entry := Init(root, Str(x), self.debug, true);
      Substitute(rule, self, cache, root, TokenText(Token('c', a)) + suffix, [Token('c', a)], host, fuel)
        == Ok(Parsed(Str(x + suffix), cache[a := entry]))
  {
    var t := Token('c', a);
    var out := ReferencePremises(rule, self, cache, root, t, x, suffix, host, fuel);
    SubstituteConfigRef(rule, self, cache, root, TokenText(t) + suffix, t, out, x, x + suffix, host, fuel);
  }

  /** What one `$c{..}` step of the loop of `parse_string` needs: `ref`
      answers, the answer renders as `text`, and replacing the token's text
      by it gives `next`. */
  predicate ReferenceResolves(rule: RefRule, self: Config, cache: map<string, Config>, root: Value, cur: string, t: Token,
                              out: Reffed, text: string, next: string, host: Host, fuel: nat)
  {
    && fuel >= 1
    && IsConfigRef(t)
    && RefAlong(rule, self, cache, root, t.path, RefPath(rule, t.path), Null, self.parsing, host, fuel - 1) == Ok(out)
    && Render(rule, out.entry, host, fuel - 1) == Ok(text)
    && Replace(cur, TokenText(t), text) == next
  }

  lemma ReferencePremises(rule: RefRule, self: Config, cache: map<string, Config>, root: Value, t: Token, x: string,
                          suffix: string, host: Host, fuel: nat) returns (out: Reffed)
    requires fuel >= 1 && self.parsing && t.kind == 'c'
    requires PlainName(t.path) && t.path !in cache
    requires root.Map? && Lookup(root.entries, KStr(t.path)) == Some(Str(x))
    requires '$' !in x && '$' !in suffix
    ensures out == Reffed(Init(root, Str(x), self.debug, true), cache[t.path := Init(root, Str(x), self.debug, true)])
    ensures ReferenceResolves(rule, self, cache, root, TokenText(t) + suffix, t, out, x, x + suffix, host, fuel)
  {
    ReplaceToken(t, suffix, x);
    var entry := Init(root, Str(x), self.debug, true);
    out := Reffed(entry, cache[t.path := entry]);
    RenderText(rule, root, x, self.debug, host, fuel - 1);
    RefPlain(rule, self, cache, root, t.path, x, host, fuel - 1);
  }

  /** One step of the loop of `parse_string` on a `$c{..}` token. */
  lemma SubstituteConfigRef(rule: RefRule, self: Config, cache: map<string, Config>, root: Value, cur: string, t: Token,
                            out: Reffed, text: string, next: string, host: Host, fuel: nat)
    requires ReferenceResolves(rule, self, cache, root, cur, t, out, text, next, host, fuel)
    ensures Substitute(rule, self, cache, root, cur, [t], host, fuel) == Ok(Parsed(Str(next), out.cache))
  {
  }

  /** The run of the loop of `parse_string` over `pending` from `cache`:
      each `$c{..}` reference is answered by `ref` and renders as its entry
      in `res`, each `$e{..}` reference's entry is the environment variable,
      no entry holds a `$`, and the cache ends as `final`. */
  predicate Trace(rule: RefRule, self: Config, cache: map<string, Config>, root: Value, pending: seq<Token>,
                  res: map<Token, string>, final: map<string, Config>, host: Host, fuel: nat)
    decreases |pending|
  {
    if |pending| == 0 then final == cache
    else
      var t := pending[0];
      && t in res && WellFormed(t) && '$' !in res[t]
      && if IsConfigRef(t) then
           && fuel >= 1
           && var out := RefAlong(rule, self, cache, root, t.path, RefPath(rule, t.path), Null, self.parsing, host, fuel - 1);
           && out.Ok?
           && Render(rule, out.value.entry, host, fuel - 1) == Ok(res[t])
           && Trace(rule, self, out.value.cache, root, pending[1..], res, final, host, fuel)
         else
           && res[t] == Getenv(host, t.path)
           && Trace(rule, self, cache, root, pending[1..], res, final, host, fuel)
  }

  /** `parse_string` on literal text interleaved with references, repeats
      allowed: each reference becomes the text it resolves to, the literal
      text stays where it was, and the cache ends as the run leaves it. */
  lemma ParseTemplate(rule: RefRule, self: Config, cache: map<string, Config>, root: Value,
                      texts: seq<string>, toks: seq<Token>, res: map<Token, string>,
                      final: map<string, Config>, host: Host, fuel: nat)
    requires |texts| == |toks| + 1 && Literal(texts) && Accepted(ConfigPattern, toks)
    requires Trace(rule, self, cache, root, toks, res, final, host, fuel)
    ensures ParseString(rule, self, cache, root, Template(texts, toks), host, fuel)
      == Ok(Parsed(Str(Fill(texts, toks, res)), final))
  {
    FindAllTemplate(ConfigPattern, texts, toks);
    SubstituteFill(rule, self, cache, root, texts, toks, map[], toks, res, final, host, fuel);
  }

  lemma {:induction false} SubstituteFill(rule: RefRule, self: Config, cache: map<string, Config>, root: Value,
                                          texts: seq<string>, toks: seq<Token>, done: map<Token, string>,
                                          pending: seq<Token>, res: map<Token, string>,
                                          final: map<string, Config>, host: Host, fuel: nat)
    requires |texts| == |toks| + 1 && Literal(texts)
    requires forall i :: 0 <= i < |toks| ==> WellFormed(toks[i])
    requires forall i :: 0 <= i < |toks| ==> toks[i] in done || toks[i] in pending
    requires Within(done, res) && forall u :: u in done ==> '$' !in done[u]
    requires Trace(rule, self, cache, root, pending, res, final, host, fuel)
    ensures Substitute(rule, self, cache, root, Fill(texts, toks, done), pending, host, fuel)
      == Ok(Parsed(Str(Fill(texts, toks, res)), final))
    decreases |pending|
  {
    if |pending| == 0 {
      forall i | 0 <= i < |toks|
        ensures Piece(toks[i], done) == Piece(toks[i], res)
      {
        assert toks[i] in done;
      }
      FillAgree(texts, toks, done, res);
    } else {
      var t := pending[0];
      var done' := Replaced(done, t, res[t]);
      var next := SubstituteStep(rule, self, cache, root, texts, toks, done, pending, res, final, host, fuel);
      forall i | 0 <= i < |toks|
        ensures toks[i] in done' || toks[i] in pending[1..]
      {
        if toks[i] !in done && toks[i] != t {
          var j :| 0 <= j < |pending| && pending[j] == toks[i];
          assert pending[1..][j - 1] == toks[i];
        }
      }
      SubstituteFill(rule, self, next, root, texts, toks, done', pending[1..], res, final, host, fuel);
    }
  }

  /** One step of the loop: the first pending reference is replaced by its
      entry everywhere, and the cache moves on as `ref` leaves it. */
  lemma SubstituteStep(rule: RefRule, self: Config, cache: map<string, Config>, root: Value,
                       texts: seq<string>, toks: seq<Token>, done: map<Token, string>,
                       pending: seq<Token>, res: map<Token, string>,
                       final: map<string, Config>, host: Host, fuel: nat) returns (next: map<string, Config>)
    requires |texts| == |toks| + 1 && Literal(texts)
    requires forall i :: 0 <= i < |toks| ==> WellFormed(toks[i])
    requires Within(done, res) && forall u :: u in done ==> '$' !in done[u]
    requires |pending| > 0 && Trace(rule, self, cache, root, pending, res, final, host, fuel)
    ensures var done' := Replaced(done, pending[0], res[pending[0]]);
      && Within(done', res) && (forall u :: u in done' ==> '$' !in done'[u])
      && Trace(rule, self, next, root, pending[1..], res, final, host, fuel)
      && Substitute(rule, self, cache, root, Fill(texts, toks, done), pending, host, fuel)
         == Substitute(rule, self, next, root, Fill(texts, toks, done'), pending[1..], host, fuel)
  {
    var t := pending[0];
    var x := res[t];
    ReplaceFill(texts, toks, done, t, x);
    next := SubstituteHead(rule, self, cache, root, Fill(texts, toks, done), pending, res, final, host, fuel);
  }

  /** The loop replaces the first pending reference by its entry. */
  lemma SubstituteHead(rule: RefRule, self: Config, cache: map<string, Config>, root: Value, cur: string,
                       pending: seq<Token>, res: map<Token, string>, final: map<string, Config>,
                       host: Host, fuel: nat) returns (next: map<string, Config>)
    requires |pending| > 0 && Trace(rule, self, cache, root, pending, res, final, host, fuel)
    ensures pending[0] in res
    ensures Trace(rule, self, next, root, pending[1..], res, final, host, fuel)
    ensures Substitute(rule, self, cache, root, cur, pending, host, fuel)
      == Substitute(rule, self, next, root, Replace(cur, TokenText(pending[0]), res[pending[0]]), pending[1..], host, fuel)
  {
    var t := pending[0];
    var text := res[t];
    if IsConfigRef(t) {
      var out := RefAlong(rule, self, cache, root, t.path, RefPath(rule, t.path), Null, self.parsing, host, fuel - 1).value;
      SubstituteRefStep(rule, self, cache, root, cur, pending, host, fuel, out, text);
      next := out.cache;
    } else {
      assert text == Getenv(host, t.path);
      next := cache;
    }
  }

  /** A `$c{..}` step of the loop, given what `ref` and `str` answer. */
  lemma SubstituteRefStep(rule: RefRule, self: Config, cache: map<string, Config>, root: Value, cur: string,
                          pending: seq<Token>, host: Host, fuel: nat, out: Reffed, text: string)
    requires |pending| > 0 && IsConfigRef(pending[0]) && fuel >= 1
    requires RefAlong(rule, self, cache, root, pending[0].path, RefPath(rule, pending[0].path), Null, self.parsing, host, fuel - 1)
      == Ok(out)
    requires Render(rule, out.entry, host, fuel - 1) == Ok(text)
    ensures Substitute(rule, self, cache, root, cur, pending, host, fuel)
      == Substitute(rule, self, out.cache, root, Replace(cur, TokenText(pending[0]), text), pending[1..], host, fuel)
  {
  }

  /** A `$c{..}` step whose `ref` answers with an instance that fails to
      render. */
  predicate ReferenceFails(rule: RefRule, self: Config, cache: map<string, Config>, root: Value, t: Token,
                           out: Reffed, err: Exception, host: Host, fuel: nat)
  {
    && fuel >= 1
    && IsConfigRef(t)
    && RefAlong(rule, self, cache, root, t.path, RefPath(rule, t.path), Null, self.parsing, host, fuel - 1) == Ok(out)
    && Render(rule, out.entry, host, fuel - 1) == Err(err)
  }

  /** The loop of `parse_string` stops at the first reference that fails to
      render, with that error. */
  lemma SubstituteRenderFails(rule: RefRule, self: Config, cache: map<string, Config>, root: Value, cur: string, t: Token,
                              out: Reffed, err: Exception, host: Host, fuel: nat)
    requires ReferenceFails(rule, self, cache, root, t, out, err, host, fuel)
    ensures Substitute(rule, self, cache, root, cur, [t], host, fuel) == Err(err)
  {
  }

  /** `$c{a}` followed by text without references: the reference is
      replaced by the text of `a`, which is cached. */
  lemma ParseReference(rule: RefRule, self: Config, cache: map<string, Config>, root: Value, a: string, x: string,
                       suffix: string, host: Host, fuel: nat)
    requires fuel >= 1 && self.parsing
    requires PlainName(a) && a !in cache
    requires root.Map? && Lookup(root.entries, KStr(a)) == Some(Str(x))
    requires '$' !in x && '$' !in suffix
    ensures var entry := Init(root, Str(x), self.debug, true);
      ParseString(rule, self, cache, root, TokenText(Token('c', a)) + suffix, host, fuel)
        == Ok(Parsed(Str(x + suffix), cache[a := entry]))
  {
    NoDollarNoTokens(ConfigPattern, suffix);
    SingleToken(ConfigPattern, Token('c', a), suffix);
    SubstituteOne(rule, self, cache, root, a, x, suffix, host, fuel);
  }

  /** A tree with `a: x` and `b: "$c{a}" + suffix`: reading `b` gives
      `x + suffix`. */
  lemma Interpolation(rule: RefRule, root: Value, a: string, b: string, x: string, suffix: string, host: Host, fuel: nat)
    requires fuel >= 1
    requires PlainName(a) && b !in Attributes
    requires root.Map? && Lookup(root.entries, KStr(a)) == Some(Str(x))
    requires Lookup(root.entries, KStr(b)) == Some(Str(TokenText(Token('c', a)) + suffix))
    requires '$' !in x && '$' !in suffix
    ensures var r := GetAttr(rule, Init(root, Null, false, true), b, host, fuel);
      r.Ok? && r.value.item.Node? && r.value.item.entry.context == Str(x + suffix)
  {
    var self := Init(root, Null, false, true);
    ParseReference(rule, self, map[], root, a, x, suffix, host, fuel);
    var v := Str(TokenText(Token('c', a)) + suffix);
    assert Member(root, b) == Ok(v);
    var p := Parsed(Str(x + suffix), map[a := Init(root, Str(x), false, true)]);
    assert Parse(rule, self, map[], root, v, host, fuel) == Ok(p);
    AccessParsed(rule, self, b, p, host, fuel);
  }

  /** A first access, with parsing on, to a name that is not an attribute
      caches an instance over the interpolated member. */
  lemma AccessParsed(rule: RefRule, self: Config, key: string, p: Parsed, host: Host, fuel: nat)
    requires key !in Attributes && key !in self.cache && self.parsing
    requires Member(self.context, key).Ok?
    requires Parse(rule, self, self.cache, self.root, Member(self.context, key).value, host, fuel) == Ok(p)
    ensures var entry := Init(self.root, p.value, self.debug, self.parsing);
      GetAttr(rule, self, key, host, fuel) == Ok(Accessed(Node(entry), self.(cache := p.cache[key := entry])))
  {
  }

  /** The cache is never invalidated: after `ref(a)` has cached an instance
      over `x` and `a` has been set to `y`, the tree holds `y` but `ref(a)`
      still returns the instance over `x`. */
  lemma StaleAfterWrite(rule: RefRule, root: Value, a: string, x: string, y: Value, host: Host, fuel: nat)
    requires PlainName(a) && "_" + a !in InstanceFields
    requires root.Map? && Lookup(root.entries, KStr(a)) == Some(Str(x))
    requires '$' !in x
    ensures var self := Init(root, Null, false, true);
      var first := Ref(rule, self, root, a, Null, true, host, fuel);
      && first.Ok?
      && first.value.entry.context == Str(x)
      && var written := SetAttr(self.(cache := first.value.cache), a, y);
         && written.Ok?
         && written.value.root.Map?
         && Lookup(written.value.root.entries, KStr(a)) == Some(y)
         && var again := Ref(rule, written.value, written.value.root, a, Null, true, host, fuel);
            && again.Ok?
            && again.value.entry.context == Str(x)
  {
    var self := Init(root, Null, false, true);
    var entry := Init(root, Str(x), false, true);
    RefPlain(rule, self, map[], root, a, x, host, fuel);
    PlainNamePath(rule, a);
    var written := SetPlain(self.(cache := map[a := entry]), a, y);
    LookupSetKey(root.entries, KStr(a), y, KStr(a));
  }

  /** A plain name is neither an instance field nor `_`-prefixed. */
  lemma PlainNameNotField(a: string)
    requires PlainName(a)
    ensures a !in InstanceFields && TestKeys(a) == [a, "_" + a]
  {
  }

  /** Setting a plain name on an instance whose context is the root dict
      writes the key into both. */
  lemma SetPlain(self: Config, a: string, y: Value) returns (written: Config)
    requires PlainName(a) && "_" + a !in InstanceFields
    requires self.context.Map? && self.aliased
    ensures SetAttr(self, a, y) == Ok(written)
    ensures written.cache == self.cache
    ensures written.root == Map(SetKey(self.context.entries, KStr(a), y))
  {
    PlainNameNotField(a);
    written := SetAttr(self, a, y).value;
  }

  function DanglingRoot(): Value
  {
    Map([Leaf("a", Str("$c{b}"))])
  }

  /** Looking up the missing `b` hands back an instance over the whole root,
      equal to the one that started the lookup. */
  lemma DanglingRef(rule: RefRule, host: Host, fuel: nat)
    ensures var e := Init(DanglingRoot(), Null, false, true);
      RefAlong(rule, e, map[], DanglingRoot(), "b", RefPath(rule, "b"), Null, true, host, fuel)
        == Ok(Reffed(e, map["b" := e]))
  {
  }

  lemma DanglingParseStep(rule: RefRule, host: Host, fuel: nat)
    requires fuel == 0 || Render(rule, Init(DanglingRoot(), Null, false, true), host, fuel - 1) == Err(RecursionError)
    ensures Parse(rule, Init(DanglingRoot(), Null, false, true), map[], DanglingRoot(), Str("$c{b}"), host, fuel)
      == Err(RecursionError)
  {
    var root := DanglingRoot();
    var e := Init(root, Null, false, true);
    var t := Token('c', "b");
    assert ParseString(rule, e, map[], root, "$c{b}", host, fuel)
      == Substitute(rule, e, map[], root, "$c{b}", [t], host, fuel) by {
        KindLetter(ConfigPattern, 'c', "b");
        assert ['$', 'c', '{'] + "b" + ['}'] == "$c{b}";
      }
    DanglingSubstitute(rule, host, fuel);
  }

  /** The loop of `parse_string` on `$c{b}`: out of fuel, or the instance
      `ref` hands back fails to render. */
  lemma DanglingSubstitute(rule: RefRule, host: Host, fuel: nat)
    requires fuel == 0 || Render(rule, Init(DanglingRoot(), Null, false, true), host, fuel - 1) == Err(RecursionError)
    ensures Substitute(rule, Init(DanglingRoot(), Null, false, true), map[], DanglingRoot(), "$c{b}", [Token('c', "b")], host, fuel)
      == Err(RecursionError)
  {
    var e := Init(DanglingRoot(), Null, false, true);
    var t := Token('c', "b");
    if fuel > 0 {
      DanglingRef(rule, host, fuel - 1);
      SubstituteRenderFails(rule, e, map[], DanglingRoot(), "$c{b}", t, Reffed(e, map["b" := e]), RecursionError, host, fuel);
    }
  }

  lemma DanglingRenderStep(rule: RefRule, host: Host, fuel: nat)
    requires Parse(rule, Init(DanglingRoot(), Null, false, true), map[], DanglingRoot(), Str("$c{b}"), host, fuel)
      == Err(RecursionError)
    ensures Render(rule, Init(DanglingRoot(), Null, false, true), host, fuel) == Err(RecursionError)
  {
    var root := DanglingRoot();
    var e := Init(root, Null, false, true);
    assert root.entries[0].val == Str("$c{b}");
    assert ParseEntries(rule, e, map[], root, root.entries, host, fuel) == Err(RecursionError);
  }

  /** A reference to a missing key inside the tree never resolves: `$c{b}`
      misses, the miss yields an instance over the whole root, rendering it
      meets `$c{b}` again, and so on until the fuel runs out.  The source
      overflows the stack here; whatever the fuel, so does the model. */
  lemma {:induction false} DanglingReferenceDiverges(rule: RefRule, host: Host, fuel: nat)
    ensures var e := Init(DanglingRoot(), Null, false, true);
      && Parse(rule, e, map[], DanglingRoot(), Str("$c{b}"), host, fuel) == Err(RecursionError)
      && Render(rule, e, host, fuel) == Err(RecursionError)
    decreases fuel
  {
    if fuel > 0 {
      DanglingReferenceDiverges(rule, host, fuel - 1);
    }
    DanglingParseStep(rule, host, fuel);
    DanglingRenderStep(rule, host, fuel);
  }

  /** Reading `a` from `{"a": "$c{b}"}` fails whatever the fuel. */
  lemma DanglingRead(rule: RefRule, host: Host, fuel: nat)
    ensures GetAttr(rule, Init(DanglingRoot(), Null, false, true), "a", host, fuel) == Err(RecursionError)
  {
    ShortNameNotAttribute("a");
    DanglingReferenceDiverges(rule, host, fuel);
    assert Member(DanglingRoot(), "a") == Ok(Str("$c{b}"));
  }

  /** A string in which the pattern finds nothing comes back unchanged, and
      the cache with it. */
  lemma ParseStringNoTokens(rule: RefRule, self: Config, cache: map<string, Config>, context: Value, s: string,
                            host: Host, fuel: nat)
    requires FindAll(ConfigPattern, s) == []
    ensures ParseString(rule, self, cache, context, s, host, fuel) == Ok(Parsed(Str(s), cache))
  {
  }

  /** An unset environment variable is substituted by the text `None`. */
  lemma UnsetEnvironment(rule: RefRule, self: Config, cache: map<string, Config>, context: Value, name: string,
                         host: Host, fuel: nat)
    requires ValidPath(ConfigPattern, name) && name !in host.env
    ensures ParseString(rule, self, cache, context, TokenText(Token('e', name)), host, fuel)
      == Ok(Parsed(Str("None"), cache))
  {
    var t := Token('e', name);
    var s := TokenText(t);
    assert s + "" == s;
    SingleToken(ConfigPattern, t, "");
    ReplaceLeading(s, "", "None");
    assert "None" + "" == "None";
    assert [t][1..] == [];
  }
}
