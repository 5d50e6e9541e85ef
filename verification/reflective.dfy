/** The `Reflective` engine of src/app/util/object.py.

    `Reflective` instances form a forest: each holds a value (`ref`), and
    may hold a parent instance and the key it was created under.  The model
    keeps every instance in one arena, a sequence of nodes whose parents come
    before them, so that several instances can share a root the way Python
    objects share one by reference.  `create` looks a path up from an
    instance's value and adds a child; `up` writes through its root's tree;
    `parse` interpolates `$c{path}` and `$e{NAME}` tokens against the root's
    tree.
 */
module ReflectiveEngine {
  import opened Wrappers
  import opened Strings
  import opened Values
  import opened Paths
  import opened Tokens

  /** One `Reflective` instance.  `parent` is an arena index; `key` is only
      stored when truthy, and `parent` only when the parent was truthy when
      the node was made (`__init__`).  `at` is where the node's value was
      found in its root's tree: the segments that led to it.  `debug` and
      `parsing` are the node's own fields, absent until first set. */
  datatype Node = Node(
    ref: Value,
    parent: Option<nat>,
    key: Option<PathKey>,
    at: seq<PathKey>,
    debug: Option<bool>,
    parsing: Option<bool>)

  type Arena = seq<Node>

  /** Parents come before their children. */
  predicate Valid(a: Arena)
  {
    forall i :: 0 <= i < |a| ==> a[i].parent.Some? ==> a[i].parent.value < i
  }

  /** `Reflective(ref)`: a new root. */
  function NewRoot(a: Arena, v: Value): (r: Arena)
    requires Valid(a)
    ensures Valid(r) && |r| == |a| + 1 && r[..|a|] == a
    ensures Root(r, |a|) == |a|
  {
    Appended(a, Node(v, None, None, [], None, None));
    a + [Node(v, None, None, [], None, None)]
  }

  /** `root`: follow parents up to the instance that has none. */
  function Root(a: Arena, i: nat): (r: nat)
    requires Valid(a) && i < |a|
    ensures r <= i && a[r].parent.None?
    decreases i
  {
    match a[i].parent
    case None => i
    case Some(p) => Root(a, p)
  }

  /** `simple`: the value is neither a dict nor a list. */
  predicate Simple(a: Arena, i: nat)
    requires i < |a|
  {
    !IsContainer(a[i].ref)
  }

  /** `root != self`, which Python evaluates as `root.ref != self.ref`
      through the overloaded comparison: an instance delegates to its root
      only when their values differ. */
  predicate Delegates(a: Arena, i: nat)
    requires Valid(a) && i < |a|
    ensures Delegates(a, i) ==> a[i].parent.Some?
  {
    a[Root(a, i)].ref != a[i].ref
  }

  /** The `debug` getter: the root's field (default `False`) for a delegating
      instance, its own otherwise. */
  function Debug(a: Arena, i: nat): (d: bool)
    requires Valid(a) && i < |a|
    ensures a[i].parent.None? ==> d == a[i].debug.GetOr(false)
    ensures Delegates(a, i) ==> d == a[Root(a, i)].debug.GetOr(false)
  {
    if Delegates(a, i) then a[Root(a, i)].debug.GetOr(false) else a[i].debug.GetOr(false)
  }

  /** The `parsing` getter, defaulting to `True`. */
  function Parsing(a: Arena, i: nat): (p: bool)
    requires Valid(a) && i < |a|
    ensures a[i].parent.None? ==> p == a[i].parsing.GetOr(true)
    ensures Delegates(a, i) ==> p == a[Root(a, i)].parsing.GetOr(true)
  {
    if Delegates(a, i) then a[Root(a, i)].parsing.GetOr(true) else a[i].parsing.GetOr(true)
  }

  /** The `debug` setter: sets the root's field for a delegating instance,
      its own otherwise. */
  function SetDebug(a: Arena, i: nat, b: bool): (r: Arena)
    requires Valid(a) && i < |a|
    ensures Valid(r) && |r| == |a|
    ensures forall j :: 0 <= j < |a| ==> r[j].ref == a[j].ref && r[j].parent == a[j].parent
  {
    var t := if Delegates(a, i) then Root(a, i) else i;
    a[t := a[t].(debug := Some(b))]
  }

  /** The `parsing` setter. */
  function SetParsing(a: Arena, i: nat, b: bool): (r: Arena)
    requires Valid(a) && i < |a|
    ensures Valid(r) && |r| == |a|
    ensures forall j :: 0 <= j < |a| ==> r[j].ref == a[j].ref && r[j].parent == a[j].parent
  {
    var t := if Delegates(a, i) then Root(a, i) else i;
    a[t := a[t].(parsing := Some(b))]
  }

  /** Only values and parents decide roots, so the setters keep them. */
  lemma {:induction false} RootKept(a: Arena, b: Arena, i: nat)
    requires Valid(a) && Valid(b) && |a| == |b| && i < |a|
    requires forall j :: 0 <= j < |a| ==> b[j].parent == a[j].parent
    ensures Root(b, i) == Root(a, i)
    decreases i
  {
    if a[i].parent.Some? {
      RootKept(a, b, a[i].parent.value);
    }
  }

  /** The flag lives at the root: setting it on any delegating instance (or
      on the root) is seen by every delegating instance of the same root, and
      by the root itself. */
  lemma FlagsAgree(a: Arena, i: nat, j: nat, b: bool)
    requires Valid(a) && i < |a| && j < |a|
    requires Root(a, i) == Root(a, j)
    requires Delegates(a, i) || a[i].parent.None?
    requires Delegates(a, j) || a[j].parent.None?
    ensures Debug(SetDebug(a, i, b), j) == b
    ensures Parsing(SetParsing(a, i, b), j) == b
  {
    RootKept(a, SetDebug(a, i, b), i);
    RootKept(a, SetDebug(a, i, b), j);
    RootKept(a, SetParsing(a, i, b), i);
    RootKept(a, SetParsing(a, i, b), j);
  }

  /** The comparison is by value: a child whose value equals its root's keeps
      a flag of its own, and setting it leaves the root's flag alone. */
  lemma EqualValueKeepsOwnFlag()
    ensures var a := [Node(Map([]), None, None, [], None, None),
                      Node(Map([]), Some(0), None, [], None, None)];
      && Valid(a)
      && Root(a, 1) == 0
      && Debug(SetDebug(a, 1, true), 1)
      && !Debug(SetDebug(a, 1, true), 0)
  {
  }

  /** The keys `ref_path` collects, as written: the instance's own key, then
      the keys of its ancestors for as long as each parent is truthy. */
  function RefPath(a: Arena, i: nat): (path: seq<PathKey>)
    requires Valid(a) && i < |a|
    ensures |path| <= i + 1
    ensures a[i].key.Some? ==> |path| >= 1 && path[|path| - 1] == a[i].key.value
    decreases i
  {
    var up := match a[i].parent
      case Some(p) => if Truthy(a[p].ref) then RefPath(a, p) else []
      case None => [];
    up + OptionKey(a[i].key)
  }

  function OptionKey(k: Option<PathKey>): seq<PathKey>
  {
    match k
    case Some(x) => [x]
    case None => []
  }

  /** `Reflective.parse(value)` on an instance whose root holds `ctx` and
      whose `parsing` flag is `parsing`: strings are interpolated, dicts and
      lists rebuilt, everything else returned unchanged.  The result has the
      input's shape. */
  function Interp(ctx: Value, parsing: bool, v: Value, host: Host, fuel: nat): (r: Result<Value>)
    ensures r.Ok? ==> Shaped(v, r.value)
    decreases fuel, 2, Size(v), 1
  {
    match v
    case Str(s) =>
      var out :- Substitute(ctx, parsing, s, FindAll(ReflectivePattern, s), host, fuel);
      Ok(Str(out))
    case List(xs) => InterpItems(ctx, parsing, xs, host, fuel)
    case Map(es) => InterpEntries(ctx, parsing, es, host, fuel)
    case _ => Ok(v)
  }

  /** `parse_list` */
  function InterpItems(ctx: Value, parsing: bool, xs: seq<Value>, host: Host, fuel: nat): (r: Result<Value>)
    ensures r.Ok? ==> Shaped(List(xs), r.value)
    decreases fuel, 2, ItemsSize(xs), 2
  {
    if |xs| == 0 then Ok(List([]))
    else
      var head :- Interp(ctx, parsing, xs[0], host, fuel);
      var tail :- InterpItems(ctx, parsing, xs[1..], host, fuel);
      assert xs == [xs[0]] + xs[1..];
      ShapedConsItem(xs[0], xs[1..], head, tail.items);
      Ok(List([head] + tail.items))
  }

  /** `parse_dict` */
  function InterpEntries(ctx: Value, parsing: bool, es: seq<Entry>, host: Host, fuel: nat): (r: Result<Value>)
    ensures r.Ok? ==> Shaped(Map(es), r.value)
    decreases fuel, 2, EntriesSize(es), 2
  {
    if |es| == 0 then Ok(Map([]))
    else
      assert es[0] in es;
      assert es[0].val < es[0];
      var head :- Interp(ctx, parsing, es[0].val, host, fuel);
      var tail :- InterpEntries(ctx, parsing, es[1..], host, fuel);
      assert es == [es[0]] + es[1..];
      ShapedConsEntry(es[0], es[1..], head, tail.entries);
      Ok(Map([Entry(es[0].key, head)] + tail.entries))
  }

  /** The loop of `parse_string`: each token's text is replaced everywhere in
      the current string, a `$c{..}` token by the text of what it resolves
      to, a `$e{..}` token by the environment variable. */
  function Substitute(ctx: Value, parsing: bool, cur: string, tokens: seq<Token>,
                      host: Host, fuel: nat): (r: Result<string>)
    ensures |tokens| == 0 ==> r == Ok(cur)
    ensures r.Err? ==> exists t :: t in tokens && IsConfigRef(t)
    decreases fuel, 0, |tokens|, 0
  {
    if |tokens| == 0 then Ok(cur)
    else
      var t := tokens[0];
      if IsConfigRef(t) then
        if fuel == 0 then Err(RecursionError)
        else
          var text :- Resolve(ctx, parsing, t.path, host, fuel - 1);
          Substitute(ctx, parsing, Replace(cur, TokenText(t), text), tokens[1..], host, fuel)
      else
        Substitute(ctx, parsing, Replace(cur, TokenText(t), Getenv(host, t.path)), tokens[1..], host, fuel)
  }

  /** `str(create(path, None, parse=parsing, context=root.ref))`: the value at
      the path (None on a miss), interpolated when truthy and parsing is on,
      rendered as `str` renders an instance: a container as JSON of its
      interpolated value, anything else as `str` of it. */
  function Resolve(ctx: Value, parsing: bool, path: string, host: Host, fuel: nat): (r: Result<string>)
    ensures Walk(ctx, KeySegments(Name(path))).OutOfRange? ==> r == Err(IndexError)
    ensures Walk(ctx, KeySegments(Name(path))).Missing? ==> r == Ok("None")
    ensures forall x :: Walk(ctx, KeySegments(Name(path))) == Found(Str(x)) ==>
      if parsing then (r.Ok? <==> Interp(ctx, parsing, Str(x), host, fuel).Ok?)
                      && (r.Ok? ==> Interp(ctx, parsing, Str(x), host, fuel) == Ok(Str(r.value)))
      else r == Ok(x)
    ensures forall v :: Walk(ctx, KeySegments(Name(path))) == Found(v) && !IsContainer(v) && !v.Str? ==>
      r == Ok(PyStr(host, v))
    ensures forall v :: Walk(ctx, KeySegments(Name(path))) == Found(v) && IsContainer(v) && !parsing ==>
      r == Ok(host.json(v))
    decreases fuel, 3, 0, 0
  {
    NoDollarNoTokens(ReflectivePattern, "");
    var found :- Fetch(ctx, KeySegments(Name(path)), Null);
    var v :- if Truthy(found) && parsing then Interp(ctx, parsing, found, host, fuel) else Ok(found);
    if IsContainer(v) then
      var w :- if parsing then Interp(ctx, parsing, v, host, fuel) else Ok(v);
      Ok(host.json(w))
    else Ok(PyStr(host, v))
  }

  /** `parse` as an instance runs it: against its root's value, with its
      own `parsing` flag. */
  function Parse(a: Arena, i: nat, v: Value, host: Host, fuel: nat): (r: Result<Value>)
    requires Valid(a) && i < |a|
    ensures r.Ok? ==> Shaped(v, r.value)
  {
    Interp(a[Root(a, i)].ref, Parsing(a, i), v, host, fuel)
  }

  /** A string in which the pattern finds nothing comes back unchanged. */
  lemma InterpNoTokens(ctx: Value, parsing: bool, s: string, host: Host, fuel: nat)
    requires FindAll(ReflectivePattern, s) == []
    ensures Interp(ctx, parsing, Str(s), host, fuel) == Ok(Str(s))
  {
  }

  /** A `$c{p}` token resolves `p` in the root's tree: when `p` leads to a
      string without references, every occurrence of the token is replaced by
      that string. */
  lemma ResolvesAgainstRoot(ctx: Value, parsing: bool, s: string, t: Token, x: string, host: Host, fuel: nat)
    requires FindAll(ReflectivePattern, s) == [t] && IsConfigRef(t)
    requires Walk(ctx, KeySegments(Name(t.path))) == Found(Str(x))
    requires FindAll(ReflectivePattern, x) == []
    requires fuel >= 1
    ensures Interp(ctx, parsing, Str(s), host, fuel) == Ok(Str(Replace(s, TokenText(t), x)))
  {
  }

  /** A `$e{NAME}` token whose variable is unset becomes the text `None`. */
  lemma UnsetVariable(ctx: Value, parsing: bool, s: string, t: Token, host: Host, fuel: nat)
    requires FindAll(ReflectivePattern, s) == [t] && !IsConfigRef(t)
    requires t.path !in host.env
    ensures Interp(ctx, parsing, Str(s), host, fuel) == Ok(Str(Replace(s, TokenText(t), "None")))
  {
  }

  /** What the loop of `parse_string` puts in place of the reference `u`:
      for `$c{..}`, the text its path resolves to in the root's tree (one
      level of fuel down); for `$e{..}`, the environment variable. */
  predicate Resolves(ctx: Value, parsing: bool, u: Token, x: string, host: Host, fuel: nat)
  {
    && (IsConfigRef(u) ==> fuel >= 1 && Resolve(ctx, parsing, u.path, host, fuel - 1) == Ok(x))
    && (!IsConfigRef(u) ==> x == Getenv(host, u.path))
  }

  /** A table of replacements the loop would use, none of which holds a
      `$`. */
  predicate Resolution(ctx: Value, parsing: bool, res: map<Token, string>, host: Host, fuel: nat)
  {
    forall u :: u in res ==> WellFormed(u) && '$' !in res[u] && Resolves(ctx, parsing, u, res[u], host, fuel)
  }

  /** `parse_string` on literal text interleaved with references, repeats
      allowed: each reference becomes its replacement, and the literal text
      stays where it was. */
  lemma InterpTemplate(ctx: Value, parsing: bool, texts: seq<string>, toks: seq<Token>,
                       res: map<Token, string>, host: Host, fuel: nat)
    requires |texts| == |toks| + 1 && Literal(texts) && Accepted(ReflectivePattern, toks)
    requires forall i :: 0 <= i < |toks| ==> toks[i] in res
    requires Resolution(ctx, parsing, res, host, fuel)
    ensures Interp(ctx, parsing, Str(Template(texts, toks)), host, fuel) == Ok(Str(Fill(texts, toks, res)))
  {
    FindAllTemplate(ReflectivePattern, texts, toks);
    SubstituteFill(ctx, parsing, texts, toks, map[], toks, res, host, fuel);
  }

  /** The loop of `parse_string` from a string in which the references of
      `done` have been replaced already and those of `pending` are still to
      come. */
  lemma {:induction false} SubstituteFill(ctx: Value, parsing: bool, texts: seq<string>, toks: seq<Token>,
                                          done: map<Token, string>, pending: seq<Token>,
                                          res: map<Token, string>, host: Host, fuel: nat)
    requires |texts| == |toks| + 1 && Literal(texts)
    requires forall i :: 0 <= i < |toks| ==> WellFormed(toks[i])
    requires forall i :: 0 <= i < |toks| ==> toks[i] in done || toks[i] in pending
    requires forall i :: 0 <= i < |pending| ==> pending[i] in res
    requires Resolution(ctx, parsing, res, host, fuel) && Within(done, res)
    ensures Substitute(ctx, parsing, Fill(texts, toks, done), pending, host, fuel) == Ok(Fill(texts, toks, res))
    decreases |pending|
  {
    if |pending| == 0 {
      forall i | 0 <= i < |toks|
        ensures Piece(toks[i], done) == Piece(toks[i], res)
      {
        assert toks[i] in done;
      }
      FillAgree(texts, toks, done, res);
    } else {
      var t := pending[0];
      var done' := Replaced(done, t, res[t]);
      SubstituteStep(ctx, parsing, texts, toks, done, pending, res, host, fuel);
      forall i | 0 <= i < |toks|
        ensures toks[i] in done' || toks[i] in pending[1..]
      {
        if toks[i] !in done && toks[i] != t {
          var j :| 0 <= j < |pending| && pending[j] == toks[i];
          assert pending[1..][j - 1] == toks[i];
        }
      }
      SubstituteFill(ctx, parsing, texts, toks, done', pending[1..], res, host, fuel);
    }
  }

  /** One step of the loop: the first pending reference is replaced by its
      replacement, everywhere. */
  lemma SubstituteStep(ctx: Value, parsing: bool, texts: seq<string>, toks: seq<Token>,
                       done: map<Token, string>, pending: seq<Token>,
                       res: map<Token, string>, host: Host, fuel: nat)
    requires |texts| == |toks| + 1 && Literal(texts)
    requires forall i :: 0 <= i < |toks| ==> WellFormed(toks[i])
    requires |pending| > 0 && pending[0] in res
    requires Resolution(ctx, parsing, res, host, fuel) && Within(done, res)
    ensures Within(Replaced(done, pending[0], res[pending[0]]), res)
    ensures Substitute(ctx, parsing, Fill(texts, toks, done), pending, host, fuel)
      == Substitute(ctx, parsing, Fill(texts, toks, Replaced(done, pending[0], res[pending[0]])), pending[1..], host, fuel)
  {
    var t := pending[0];
    var x := res[t];
    assert Resolves(ctx, parsing, t, x, host, fuel);
    forall u | u in done
      ensures '$' !in done[u]
    {
      assert u in res;
    }
    ReplaceFill(texts, toks, done, t, x);
    SubstituteHead(ctx, parsing, Fill(texts, toks, done), pending, x, host, fuel);
  }

  /** The loop replaces the first pending reference by what it resolves
      to. */
  lemma SubstituteHead(ctx: Value, parsing: bool, cur: string, pending: seq<Token>, x: string,
                       host: Host, fuel: nat)
    requires |pending| > 0 && Resolves(ctx, parsing, pending[0], x, host, fuel)
    ensures Substitute(ctx, parsing, cur, pending, host, fuel)
      == Substitute(ctx, parsing, Replace(cur, TokenText(pending[0]), x), pending[1..], host, fuel)
  {
  }

  /** `create(key, default, parse)`: look the key's segments up from the
      instance's value (a miss gives `default`; an out-of-range index
      escapes), interpolate a truthy result when `parse` is set, and add a
      child whose parent is the instance (if truthy) and whose key is the
      last segment (if truthy).  Returns the arena and the child's index. */
  function Create(a: Arena, i: nat, key: PathKey, default: Value, parse: bool,
                  host: Host, fuel: nat): (r: Result<(Arena, nat)>)
    requires Valid(a) && i < |a|
    ensures Walk(a[i].ref, KeySegments(key)).OutOfRange? ==> r == Err(IndexError)
    ensures r.Ok? ==>
      var b := r.value.0;
      var n := r.value.1;
      var segs := KeySegments(key);
      && Valid(b) && n == |a| && |b| == |a| + 1 && b[..|a|] == a
      && (b[n].parent.Some? <==> Truthy(a[i].ref))
      && (b[n].parent.Some? ==> b[n].parent.value == i)
      && b[n].key == (if TruthyKey(segs[|segs| - 1]) then Some(segs[|segs| - 1]) else None)
      && b[n].at == a[i].at + segs
  {
    var segs := KeySegments(key);
    var v :- CreatedValue(a, i, key, default, parse, host, fuel);
    ChildAppended(a, i, segs, v);
    Ok((a + [Child(a, i, segs, v)], |a|))
  }

  /** The value `create` wraps: what the path leads to, or the default on a
      miss, interpolated when truthy and `parse` is set. */
  function CreatedValue(a: Arena, i: nat, key: PathKey, default: Value, parse: bool,
                        host: Host, fuel: nat): (r: Result<Value>)
    requires Valid(a) && i < |a|
    ensures Walk(a[i].ref, KeySegments(key)).OutOfRange? ==> r == Err(IndexError)
  {
    var found :- Fetch(a[i].ref, KeySegments(key), default);
    if Truthy(found) && parse then Parse(a, i, found, host, fuel) else Ok(found)
  }

  /** The arena `create` leaves: the old one with the new child after it. */
  lemma ChildAppended(a: Arena, i: nat, segs: seq<PathKey>, v: Value)
    requires Valid(a) && i < |a| && |segs| >= 1
    ensures var b := a + [Child(a, i, segs, v)];
      && Valid(b) && |b| == |a| + 1 && b[..|a|] == a
      && (b[|a|].parent.Some? <==> Truthy(a[i].ref))
      && (b[|a|].parent.Some? ==> b[|a|].parent.value == i)
      && b[|a|].key == (if TruthyKey(segs[|segs| - 1]) then Some(segs[|segs| - 1]) else None)
      && b[|a|].at == a[i].at + segs
      && b[|a|].ref == v
  {
  }

  /** The instance `__init__` builds for a value found under `segs`. */
  function Child(a: Arena, i: nat, segs: seq<PathKey>, v: Value): (n: Node)
    requires i < |a| && |segs| >= 1
    ensures n.ref == v && n.at == a[i].at + segs
    ensures n.parent.Some? <==> Truthy(a[i].ref)
    ensures n.parent.Some? ==> n.parent.value == i
    ensures n.key.Some? <==> TruthyKey(segs[|segs| - 1])
    ensures n.key.Some? ==> n.key.value == segs[|segs| - 1]
  {
    var last := segs[|segs| - 1];
    Node(v, if Truthy(a[i].ref) then Some(i) else None,
         if TruthyKey(last) then Some(last) else None, a[i].at + segs, None, None)
  }

  /** Adding an instance whose parent is already there keeps the arena
      valid and the old instances where they were. */
  lemma Appended(a: Arena, node: Node)
    requires Valid(a)
    requires node.parent.Some? ==> node.parent.value < |a|
    ensures Valid(a + [node]) && (a + [node])[..|a|] == a && (a + [node])[|a|] == node
  {
  }

  /** What `create` finds: the value at the path, or the default on a miss;
      interpolated only when it is truthy and `parse` is set, and then of the
      same shape. */
  lemma CreateFinds(a: Arena, i: nat, key: PathKey, default: Value, parse: bool, host: Host, fuel: nat)
    requires Valid(a) && i < |a|
    requires Create(a, i, key, default, parse, host, fuel).Ok?
    ensures var made := Create(a, i, key, default, parse, host, fuel).value;
      var nav := Walk(a[i].ref, KeySegments(key));
      var found := if nav.Found? then nav.value else default;
      && !nav.OutOfRange?
      && (Truthy(found) && parse ==> Shaped(found, made.0[made.1].ref))
      && (!(Truthy(found) && parse) ==> made.0[made.1].ref == found)
  {
  }

  /** A created instance's `ref_path` is its creator's, extended by its key
      when the key is truthy, provided the creator is truthy; a falsy creator
      is not recorded, and the path is the key alone. */
  lemma CreatedRefPath(a: Arena, i: nat, key: PathKey, default: Value, parse: bool, host: Host, fuel: nat,
                        b: Arena, n: nat)
    requires Valid(a) && i < |a|
    requires Create(a, i, key, default, parse, host, fuel) == Ok((b, n))
    ensures Valid(b) && n < |b|
    ensures var last := KeySegments(key)[|KeySegments(key)| - 1];
      RefPath(b, n) == (if Truthy(a[i].ref) then RefPath(a, i) else []) + (if TruthyKey(last) then [last] else [])
  {
    if Truthy(a[i].ref) {
      RefPathPrefix(a, b, i);
    }
  }

  /** Appending to the arena leaves every old instance's `ref_path` alone. */
  lemma {:induction false} RefPathPrefix(a: Arena, b: Arena, i: nat)
    requires Valid(a) && Valid(b) && |a| <= |b| && b[..|a|] == a && i < |a|
    ensures RefPath(b, i) == RefPath(a, i)
    decreases i
  {
    assert b[i] == a[i];
    if a[i].parent.Some? {
      assert b[a[i].parent.value] == a[a[i].parent.value];
      RefPathPrefix(a, b, a[i].parent.value);
    }
  }

  /** A truthy-or-not container keeps its kind through interpolation, so
      `simple` answers the same before and after. */
  lemma SimpleKeptByParse(v: Value, w: Value)
    requires Shaped(v, w)
    ensures IsContainer(v) <==> IsContainer(w)
  {
  }

  /** `ref[k] = value` as the root branch of `up` writes it: with a single
      segment the key is used as it is; with several, a numeric last segment
      is converted to an int only when the parent is a list. */
  function AssignAsWritten(c: Value, k: PathKey, v: Value, convertForList: bool): (r: Result<Value>)
    ensures !c.Map? && !c.List? ==> r == Err(TypeError)
    ensures c.Map? ==>
      && r.Ok? && r.value.Map?
      && Lookup(r.value.entries, match k case Name(s) => KStr(s) case Index(n) => KInt(n)) == Some(v)
    ensures c.List? && r.Ok? ==> r.value.List? && |r.value.items| == |c.items|
  {
    match c
    case Map(es) =>
      var dk := match k case Name(s) => KStr(s) case Index(n) => KInt(n);
      LookupSetKey(es, dk, v, dk);
      Ok(Map(SetKey(es, dk, v)))
    case List(xs) =>
      var n := match k
        case Index(n) => Some(n)
        case Name(s) => if convertForList && IsNumeric(s) then Some(DigitsValue(s) as int) else None;
      if n.None? then Err(TypeError)
      else
        (match Position(|xs|, n.value)
         case Some(j) => Ok(List(xs[j := v]))
         case None => Err(IndexError))
    case _ => Err(TypeError)
  }

  /** A write whose parent cannot be found leaves the tree as it was. */
  function Settle(c: Value, w: WriteOutcome): Result<Value>
  {
    match w
    case Written(t) => Ok(t)
    case ParentMissing => Ok(c)
    case Raised(e) => Err(e)
  }

  /** The root branch of `up`, as written. */
  function RootUpAsWritten(c: Value, key: PathKey, v: Value): (r: Result<Value>)
    ensures var segs := KeySegments(key);
      |segs| > 1 && Walk(c, segs[..|segs| - 1]).Missing? ==> r == Ok(c)
    ensures var segs := KeySegments(key);
      |segs| > 1 && Walk(c, segs[..|segs| - 1]).OutOfRange? ==> r == Err(IndexError)
    ensures |KeySegments(key)| == 1 && c.Map? ==> r.Ok?
  {
    var segs := KeySegments(key);
    if |segs| == 1 then AssignAsWritten(c, segs[0], v, false)
    else
      var leaf := x => AssignAsWritten(x, segs[|segs| - 1], v, true);
      WriteThroughWalk(c, segs[..|segs| - 1], leaf);
      Settle(c, WriteThrough(c, segs[..|segs| - 1], leaf))
  }

  /** The root branch of `up`, with every segment (the last one included)
      read the way lookups read it, so that what is written is what is then
      found. */
  function RootUp(c: Value, key: PathKey, v: Value): (r: Result<Value>)
    ensures WriteAt(c, KeySegments(key), v).Written? ==>
      r.Ok? && Walk(r.value, KeySegments(key)) == Found(v)
    ensures Walk(c, KeySegments(key)[..|KeySegments(key)| - 1]).Missing? ==> r == Ok(c)
  {
    var segs := KeySegments(key);
    WriteThroughWalk(c, segs[..|segs| - 1], x => Put(x, segs[|segs| - 1], v));
    assert WriteAt(c, segs, v).Written? ==> Walk(WriteAt(c, segs, v).tree, segs) == Found(v) by {
      if WriteAt(c, segs, v).Written? {
        ReadAfterWrite(c, segs, v, segs[0]);
      }
    }
    Settle(c, WriteAt(c, segs, v))
  }

  /** The root branch as written and the corrected one differ only in how
      they read a numeric last segment: when the last segment is an int or a
      non-numeric name, they write the same tree, raise the same error, and
      leave the tree alone on the same missing parents. */
  lemma AsWrittenAgrees(c: Value, key: PathKey, v: Value)
    requires var segs := KeySegments(key);
      segs[|segs| - 1].Index? || Select(segs[|segs| - 1]).ByName?
    ensures RootUpAsWritten(c, key, v) == RootUp(c, key, v)
  {
    var segs := KeySegments(key);
    if |segs| == 1 {
      LeafAgrees(c, segs[0], v, false);
    } else {
      ParentWriteAgrees(c, segs[..|segs| - 1], segs[|segs| - 1], v);
    }
  }

  lemma ParentWriteAgrees(c: Value, prefix: seq<PathKey>, last: PathKey, v: Value)
    requires last.Index? || Select(last).ByName?
    ensures WriteThrough(c, prefix, x => AssignAsWritten(x, last, v, true)) == WriteThrough(c, prefix, x => Put(x, last, v))
  {
    var f := x => AssignAsWritten(x, last, v, true);
    var g := x => Put(x, last, v);
    forall x
      ensures f(x) == g(x)
    {
      LeafAgrees(x, last, v, true);
    }
    WriteThroughSameLeaf(c, prefix, f, g);
  }

  /** On an int or a non-numeric name, the assignment as written is the
      corrected one. */
  lemma LeafAgrees(x: Value, k: PathKey, v: Value, convertForList: bool)
    requires k.Index? || Select(k).ByName?
    ensures AssignAsWritten(x, k, v, convertForList) == Put(x, k, v)
  {
  }

  /** A write through a path depends only on what its leaf does. */
  lemma {:induction false} WriteThroughSameLeaf(c: Value, prefix: seq<PathKey>, f: Value -> Result<Value>,
                                                g: Value -> Result<Value>)
    requires forall x :: f(x) == g(x)
    ensures WriteThrough(c, prefix, f) == WriteThrough(c, prefix, g)
    decreases |prefix|
  {
    if |prefix| > 0 && Step(c, prefix[0]).Found? {
      WriteThroughSameLeaf(Step(c, prefix[0]).value, prefix[1..], f, g);
    }
  }

  /** A multi-segment write on a dict with a numeric last segment: the
      source stores the string key `"0"`, and reading the same path looks up
      the int key `0`, so the value written is not found. */
  lemma NumericKeyWriteIsLost()
    ensures var c := Map([Entry(KStr("a"), Map([]))]);
      var written := RootUpAsWritten(c, Name("a/0"), Str("v"));
      && written == Ok(Map([Entry(KStr("a"), Map([Entry(KStr("0"), Str("v"))]))]))
      && Walk(written.value, KeySegments(Name("a/0"))) == Missing
  {
    var c := Map([Entry(KStr("a"), Map([]))]);
    var t := Map([Entry(KStr("a"), Map([Entry(KStr("0"), Str("v"))]))]);
    SlashSegments();
    NumericSegment();
    StepSingle("a", Map([]));
    assert [Name("a"), Name("0")][..1] == [Name("a")];
    var inner := Map([Entry(KStr("0"), Str("v"))]);
    assert AssignAsWritten(Map([]), Name("0"), Str("v"), true) == Ok(inner);
    PutSingle("a", Map([]), inner);
    WriteOneLevel(c, Name("a"), x => AssignAsWritten(x, Name("0"), Str("v"), true), Map([]), inner, t);
    assert RootUpAsWritten(c, Name("a/0"), Str("v")) == Ok(t);
    StepSingle("a", inner);
    NumericNameMissesText("0", Str("v"));
  }

  /** A numeric segment reads a dict under the int key, so a value stored
      under the same text as a string key is not found. */
  lemma NumericNameMissesText(s: string, v: Value)
    requires IsNumeric(s)
    ensures Step(Map([Entry(KStr(s), v)]), Name(s)) == Missing
  {
  }

  /** The corrected write of the same path is found. */
  lemma NumericKeyWriteIsFound()
    ensures var c := Map([Entry(KStr("a"), Map([]))]);
      && RootUp(c, Name("a/0"), Str("v")).Ok?
      && Walk(RootUp(c, Name("a/0"), Str("v")).value, KeySegments(Name("a/0"))) == Found(Str("v"))
  {
    var c := Map([Entry(KStr("a"), Map([]))]);
    SlashSegments();
    NumericSegment();
    StepSingle("a", Map([]));
    assert [Name("a"), Name("0")][..1] == [Name("a")];
    var inner := Map([Entry(KInt(0), Str("v"))]);
    assert Put(Map([]), Name("0"), Str("v")) == Ok(inner);
    PutSingle("a", Map([]), inner);
    WriteOneLevel(c, Name("a"), x => Put(x, Name("0"), Str("v")), Map([]), inner, Map([Entry(KStr("a"), inner)]));
    assert WriteAt(c, [Name("a"), Name("0")], Str("v")).Written?;
  }

  /** A write one level down: the leaf's result is put back into the
      parent. */
  lemma WriteOneLevel(c: Value, k: PathKey, leaf: Value -> Result<Value>, child: Value, t: Value, u: Value)
    requires Step(c, k) == Found(child) && leaf(child) == Ok(t) && Put(c, k, t) == Ok(u)
    ensures WriteThrough(c, [k], leaf) == Written(u)
  {
  }

  lemma NumericSegment()
    ensures !IsNumeric("a") && !IsNumeric("x") && IsNumeric("0") && DigitsValue("0") == 0
    ensures Select(Name("a")) == ByName("a") && Select(Name("x")) == ByName("x")
    ensures Select(Name("0")) == ByNumber(0)
  {
    assert !IsDigit("a"[0]) && !IsDigit("x"[0]) && IsDigit("0"[0]);
    assert "0"[..0] == [];
  }

  /** Reading a one-entry dict under its own key. */
  lemma StepSingle(k: string, v: Value)
    requires Select(Name(k)) == ByName(k)
    ensures Step(Map([Entry(KStr(k), v)]), Name(k)) == Found(v)
  {
  }

  /** Putting into a one-entry dict under its own key replaces the value. */
  lemma PutSingle(k: string, before: Value, after: Value)
    requires Select(Name(k)) == ByName(k)
    ensures Put(Map([Entry(KStr(k), before)]), Name(k), after) == Ok(Map([Entry(KStr(k), after)]))
  {
    var es := [Entry(KStr(k), before)];
    assert es[1..] == [];
    assert SetKey(es, KStr(k), after) == [Entry(KStr(k), after)] + es[1..];
    assert MapKey(Select(Name(k))) == KStr(k);
    assert [Entry(KStr(k), after)] + es[1..] == [Entry(KStr(k), after)];
  }

  lemma SlashSegments()
    ensures KeySegments(Name("a/0")) == [Name("a"), Name("0")]
    ensures KeySegments(Name("a/x")) == [Name("a"), Name("x")]
  {
    assert Plain("a") && Plain("0") && Plain("x");
    TwoSegments("a", "0");
    assert "a" + "/" + "0" == "a/0";
    TwoSegments("a", "x");
    assert "a" + "/" + "x" == "a/x";
  }

  /** The corrected `up`: a root writes into its own value; any other
      instance writes into its root's value at its own location followed by
      the key's segments. */
  function Up(a: Arena, i: nat, key: PathKey, v: Value): (r: Result<Arena>)
    requires Valid(a) && i < |a|
    ensures r.Ok? ==> Valid(r.value) && |r.value| == |a|
    ensures r.Ok? && a[i].parent.Some? && WriteAt(a[Root(a, i)].ref, a[i].at + KeySegments(key), v).Written? ==>
      Walk(r.value[Root(a, i)].ref, a[i].at + KeySegments(key)) == Found(v)
  {
    if a[i].parent.None? then
      var t :- RootUp(a[i].ref, key, v);
      Ok(a[i := a[i].(ref := t)])
    else
      var r := Root(a, i);
      var path := a[i].at + KeySegments(key);
      assert WriteAt(a[r].ref, path, v).Written? ==> Walk(WriteAt(a[r].ref, path, v).tree, path) == Found(v) by {
        if WriteAt(a[r].ref, path, v).Written? {
          ReadAfterWrite(a[r].ref, path, v, path[0]);
        }
      }
      Commit(a, r, Settle(a[r].ref, WriteAt(a[r].ref, path, v)))
  }

  /** The root's value replaced by what a write gave, or the write's
      error. */
  function Commit(a: Arena, r: nat, t: Result<Value>): (b: Result<Arena>)
    requires r < |a|
    ensures b.Ok? <==> t.Ok?
    ensures b.Ok? ==> |b.value| == |a| && b.value[r].ref == t.value
    ensures b.Ok? ==> forall j :: 0 <= j < |a| ==> b.value[j].parent == a[j].parent
    ensures b.Ok? ==> forall j :: 0 <= j < |a| && j != r ==> b.value[j] == a[j]
  {
    match t
    case Ok(x) => Ok(a[r := a[r].(ref := x)])
    case Err(e) => Err(e)
  }

  /** One temporary instance of the chain the non-root branch of `up`
      builds: its value and its stored key. */
  datatype Link = Link(ref: Value, key: Option<PathKey>)

  /** `reduce(_reducer, segments, self)` over instances: each step is
      `c[k]`, with a numeric `k` first converted by `int(k)`, that is
      `c.create(k, None, parse=parsing)`, which splits `k` again and keeps
      only its last segment as the key (so an index `0` is not kept). */
  function Chain(start: Value, ctx: Value, parsing: bool, segs: seq<PathKey>,
                 host: Host, fuel: nat): (r: Result<seq<Link>>)
    ensures r.Ok? ==> |r.value| == |segs|
    decreases |segs|
  {
    if |segs| == 0 then Ok([])
    else
      var link :- Hop(start, ctx, parsing, segs[0], host, fuel);
      var rest :- Chain(link.ref, ctx, parsing, segs[1..], host, fuel);
      Ok([link] + rest)
  }

  /** One `_reducer` step of the chain: the instance `Reflective.__getitem__`
      creates for one segment. */
  function Hop(start: Value, ctx: Value, parsing: bool, seg: PathKey, host: Host, fuel: nat): (r: Result<Link>)
    ensures r.Ok? ==> r.value.key == LinkKey(seg)
  {
    var k := match Select(seg) case ByNumber(n) => Index(n) case ByName(_) => seg;
    var ks := KeySegments(k);
    var found :- Fetch(start, ks, Null);
    var v :- if Truthy(found) && parsing then Interp(ctx, parsing, found, host, fuel) else Ok(found);
    var last := ks[|ks| - 1];
    Ok(Link(v, if TruthyKey(last) then Some(last) else None))
  }

  /** The key a chain link keeps for a segment: a number as an int when
      it is not 0; a plain name as it is. */
  function LinkKey(seg: PathKey): Option<PathKey>
  {
    match Select(seg)
    case ByNumber(n) => if n != 0 then Some(Index(n)) else None
    case ByName(_) =>
      var ks := KeySegments(seg);
      if TruthyKey(ks[|ks| - 1]) then Some(ks[|ks| - 1]) else None
  }

  /** A plain name that is not a number is kept whole, and a number is kept
      as an int unless it is 0. */
  lemma LinkKeyKept(seg: PathKey)
    ensures seg.Name? && Plain(seg.s) && Select(seg).ByName? ==> LinkKey(seg) == Some(seg)
    ensures Select(seg).ByNumber? ==> LinkKey(seg) == if Select(seg).n != 0 then Some(Index(Select(seg).n)) else None
  {
    if seg.Name? && Plain(seg.s) {
      PlainHasNoSeparator(seg.s);
    }
  }

  /** Each link of the chain keeps the key `LinkKey` gives its segment. */
  lemma {:induction false} ChainKeys(start: Value, ctx: Value, parsing: bool, segs: seq<PathKey>,
                                     host: Host, fuel: nat)
    requires Chain(start, ctx, parsing, segs, host, fuel).Ok?
    ensures var links := Chain(start, ctx, parsing, segs, host, fuel).value;
      forall j :: 0 <= j < |segs| ==> links[j].key == LinkKey(segs[j])
    decreases |segs|
  {
    if |segs| > 0 {
      var links := Chain(start, ctx, parsing, segs, host, fuel).value;
      ChainHead(start, ctx, parsing, segs, host, fuel);
      ChainKeys(links[0].ref, ctx, parsing, segs[1..], host, fuel);
      forall j | 0 < j < |segs|
        ensures links[j].key == LinkKey(segs[j])
      {
        assert links[j] == links[1..][j - 1];
      }
    }
  }

  /** The first link keeps the first segment's key, and the rest of the
      chain hangs off its value. */
  lemma ChainHead(start: Value, ctx: Value, parsing: bool, segs: seq<PathKey>, host: Host, fuel: nat)
    requires |segs| > 0 && Chain(start, ctx, parsing, segs, host, fuel).Ok?
    ensures var links := Chain(start, ctx, parsing, segs, host, fuel).value;
      && links[0].key == LinkKey(segs[0])
      && Chain(links[0].ref, ctx, parsing, segs[1..], host, fuel) == Ok(links[1..])
  {
  }

  /** `ref_path` of the last instance of the chain hanging off instance `i`:
      each link reaches its predecessor only if the predecessor is truthy. */
  function ChainRefPath(a: Arena, i: nat, links: seq<Link>): seq<PathKey>
    requires Valid(a) && i < |a|
    decreases |links|
  {
    if |links| == 0 then RefPath(a, i)
    else
      var n := |links|;
      var before := if n == 1 then a[i].ref else links[n - 2].ref;
      (if Truthy(before) then ChainRefPath(a, i, links[..n - 1]) else []) + OptionKey(links[n - 1].key)
  }

  /** `'/'.join(str(x) for x in path)` */
  function SlashJoin(path: seq<PathKey>): string
  {
    Join(seq(|path|, j requires 0 <= j < |path| => KeyText(path[j])), "/")
  }

  /** `up` as written: a non-root instance walks the key through a chain of
      temporary instances and hands the root the `ref_path` of the last one,
      joined with `/`. */
  function UpAsWritten(a: Arena, i: nat, key: PathKey, v: Value, host: Host, fuel: nat): (r: Result<Arena>)
    requires Valid(a) && i < |a|
    ensures r.Ok? ==> Valid(r.value) && |r.value| == |a|
  {
    if a[i].parent.None? then
      var t :- RootUpAsWritten(a[i].ref, key, v);
      Ok(a[i := a[i].(ref := t)])
    else
      var r := Root(a, i);
      var links :- Chain(a[i].ref, a[r].ref, Parsing(a, i), KeySegments(key), host, fuel);
      Commit(a, r, RootUpAsWritten(a[r].ref, Name(SlashJoin(ChainRefPath(a, i, links))), v))
  }

  /** At a root, `up` as written is the corrected `up` whenever the last
      segment is an int or a name that is not a number. */
  lemma {:induction false} UpAsWrittenAtRoot(a: Arena, i: nat, key: PathKey, v: Value, host: Host, fuel: nat)
    requires Valid(a) && i < |a| && a[i].parent.None?
    requires var segs := KeySegments(key);
      segs[|segs| - 1].Index? || Select(segs[|segs| - 1]).ByName?
    ensures UpAsWritten(a, i, key, v, host, fuel) == Up(a, i, key, v)
  {
    AsWrittenAgrees(a[i].ref, key, v);
  }

  /** Below a root, `up` as written is the corrected `up` whenever the path
      the chain hands the root reads back as the instance's own location
      followed by the key's segments, and the last segment is an int or a
      name that is not a number. */
  lemma {:induction false} UpAsWrittenBelowRoot(a: Arena, i: nat, key: PathKey, v: Value, host: Host, fuel: nat, links: seq<Link>)
    requires Valid(a) && i < |a| && a[i].parent.Some?
    requires Chain(a[i].ref, a[Root(a, i)].ref, Parsing(a, i), KeySegments(key), host, fuel) == Ok(links)
    requires KeySegments(Name(SlashJoin(ChainRefPath(a, i, links)))) == a[i].at + KeySegments(key)
    requires var segs := KeySegments(key);
      segs[|segs| - 1].Index? || Select(segs[|segs| - 1]).ByName?
    ensures UpAsWritten(a, i, key, v, host, fuel) == Up(a, i, key, v)
  {
    var r := Root(a, i);
    var joined := Name(SlashJoin(ChainRefPath(a, i, links)));
    var asWritten := RootUpAsWritten(a[r].ref, joined, v);
    var corrected := Settle(a[r].ref, WriteAt(a[r].ref, a[i].at + KeySegments(key), v));
    assert asWritten == corrected by {
      RootWriteAgrees(a[r].ref, joined, a[i].at, KeySegments(key), v);
    }
    assert UpAsWritten(a, i, key, v, host, fuel) == Commit(a, r, asWritten) by {
      AsWrittenBranch(a, i, key, v, host, fuel, links);
    }
    assert Up(a, i, key, v) == Commit(a, r, corrected) by {
      UpBranch(a, i, key, v);
    }
  }

  /** Below a root, `up` as written commits the root write of the path the
      chain hands it. */
  lemma AsWrittenBranch(a: Arena, i: nat, key: PathKey, v: Value, host: Host, fuel: nat, links: seq<Link>)
    requires Valid(a) && i < |a| && a[i].parent.Some?
    requires Chain(a[i].ref, a[Root(a, i)].ref, Parsing(a, i), KeySegments(key), host, fuel) == Ok(links)
    ensures UpAsWritten(a, i, key, v, host, fuel)
      == Commit(a, Root(a, i), RootUpAsWritten(a[Root(a, i)].ref, Name(SlashJoin(ChainRefPath(a, i, links))), v))
  {
  }

  /** Below a root, the corrected `up` commits the write at the instance's
      location followed by the key. */
  lemma UpBranch(a: Arena, i: nat, key: PathKey, v: Value)
    requires Valid(a) && i < |a| && a[i].parent.Some?
    ensures Up(a, i, key, v) == Commit(a, Root(a, i), Settle(a[Root(a, i)].ref, WriteAt(a[Root(a, i)].ref, a[i].at + KeySegments(key), v)))
  {
  }

  /** The root branch as written, handed a key that reads back as `path`,
      writes what the corrected write of `path` writes. */
  lemma RootWriteAgrees(c: Value, joined: PathKey, at: seq<PathKey>, segs: seq<PathKey>, v: Value)
    requires |segs| >= 1 && KeySegments(joined) == at + segs
    requires segs[|segs| - 1].Index? || Select(segs[|segs| - 1]).ByName?
    ensures RootUpAsWritten(c, joined, v) == Settle(c, WriteAt(c, at + segs, v))
  {
    var path := at + segs;
    assert path[|path| - 1] == segs[|segs| - 1];
    AsWrittenAgrees(c, joined, v);
  }

  /** Under `{"a": {"b": 1}}` the instance `create("a")` is truthy, so the
      chain for `x` reaches it, the root is handed `a/x`, and `up` as
      written agrees with the corrected `up`. */
  lemma TruthyParentAgrees(host: Host, fuel: nat)
    ensures Valid(UnderAB)
    ensures UpAsWritten(UnderAB, 1, Name("x"), Int(1), host, fuel) == Up(UnderAB, 1, Name("x"), Int(1))
  {
    var links := UnderABPremises(host, fuel);
    UpAsWrittenBelowRoot(UnderAB, 1, Name("x"), Int(1), host, fuel, links);
  }

  /** Under `{"a": {"b": 1}}`, the chain for `x` hands the root `a/x`, which
      reads back as the location of `a` followed by `x`. */
  lemma UnderABPremises(host: Host, fuel: nat) returns (links: seq<Link>)
    ensures Valid(UnderAB) && UnderAB[1].parent.Some?
    ensures Chain(UnderAB[1].ref, UnderAB[Root(UnderAB, 1)].ref, Parsing(UnderAB, 1), KeySegments(Name("x")), host, fuel)
      == Ok(links)
    ensures KeySegments(Name(SlashJoin(ChainRefPath(UnderAB, 1, links)))) == UnderAB[1].at + KeySegments(Name("x"))
    ensures var segs := KeySegments(Name("x"));
      segs[|segs| - 1].Index? || Select(segs[|segs| - 1]).ByName?
  {
    links := [Link(Null, Some(Name("x")))];
    UnderABChain(host, fuel);
    UnderABPath();
    PlainHasNoSeparator("x");
    NumericSegment();
  }

  lemma UnderABChain(host: Host, fuel: nat)
    ensures Valid(UnderAB)
    ensures Chain(UnderAB[1].ref, UnderAB[Root(UnderAB, 1)].ref, Parsing(UnderAB, 1), KeySegments(Name("x")), host, fuel)
      == Ok([Link(Null, Some(Name("x")))])
  {
    assert Root(UnderAB, 1) == 0;
    ChainForXUnderB(UnderAB[0].ref, Parsing(UnderAB, 1), host, fuel);
  }

  lemma UnderABPath()
    ensures Valid(UnderAB)
    ensures KeySegments(Name(SlashJoin(ChainRefPath(UnderAB, 1, [Link(Null, Some(Name("x")))]))))
      == UnderAB[1].at + KeySegments(Name("x"))
  {
    ChainRefPathAX();
    SlashJoinAX();
    SlashSegments();
    PlainHasNoSeparator("x");
  }

  /** The chain for the key `x` under `{"b": 1}`: one link, a miss. */
  lemma ChainForXUnderB(ctx: Value, parsing: bool, host: Host, fuel: nat)
    ensures Chain(Map([Entry(KStr("b"), Int(1))]), ctx, parsing, KeySegments(Name("x")), host, fuel)
      == Ok([Link(Null, Some(Name("x")))])
  {
    PlainHasNoSeparator("x");
    NumericSegment();
    assert Walk(Map([Entry(KStr("b"), Int(1))]), [Name("x")]) == Missing;
    assert [Link(Null, Some(Name("x")))] + [] == [Link(Null, Some(Name("x")))];
  }

  /** The link made for `x` hangs off the truthy instance `a`, so its
      `ref_path` is `a` then `x`. */
  lemma ChainRefPathAX()
    ensures Valid(UnderAB)
    ensures ChainRefPath(UnderAB, 1, [Link(Null, Some(Name("x")))]) == [Name("a"), Name("x")]
  {
  }

  /** The tree `{"a": {"b": 1}}` and the instance `create("a")` made on it. */
  const UnderAB: Arena :=
    [Node(Map([Entry(KStr("a"), Map([Entry(KStr("b"), Int(1))]))]), None, None, [], None, None),
     Node(Map([Entry(KStr("b"), Int(1))]), Some(0), Some(Name("a")), [Name("a")], None, None)]

  lemma SlashJoinAX()
    ensures SlashJoin([Name("a"), Name("x")]) == "a/x"
  {
    var texts := seq(2, j requires 0 <= j < 2 => KeyText([Name("a"), Name("x")][j]));
    assert texts == ["a", "x"];
    assert Join(["a", "x"], "/") == "a" + "/" + Join(["x"], "/");
  }

  /** The chain loses its way at a falsy instance: under `{"a": {}}`, the
      child `a` is an empty dict, so the temporary instance made for `x` is
      not linked to it, its `ref_path` is just `x`, and the source writes `x`
      at the top of the tree.  The corrected `up` writes it inside `a`. */
  lemma FalsyParentMisplacesWrite(host: Host, fuel: nat)
    ensures var root := Map([Entry(KStr("a"), Map([]))]);
      var a := NewRoot([], root);
      var created := Create(a, 0, Name("a"), Null, true, host, fuel);
      && created.Ok?
      && var (b, n) := created.value;
         && n == 1
         && UpAsWritten(b, n, Name("x"), Int(1), host, fuel).Ok?
         && UpAsWritten(b, n, Name("x"), Int(1), host, fuel).value[0].ref
              == Map([Entry(KStr("a"), Map([])), Entry(KStr("x"), Int(1))])
         && Up(b, n, Name("x"), Int(1)).Ok?
         && Up(b, n, Name("x"), Int(1)).value[0].ref
              == Map([Entry(KStr("a"), Map([Entry(KStr("x"), Int(1))]))])
  {
    ChildOfA(host, fuel);
    AsWrittenUnderA(host, fuel);
    CorrectedUnderA();
  }

  /** The tree `{"a": {}}` and the instance `create("a")` made on it. */
  const UnderA: Arena :=
    [Node(Map([Entry(KStr("a"), Map([]))]), None, None, [], None, None),
     Node(Map([]), Some(0), Some(Name("a")), [Name("a")], None, None)]

  lemma AsWrittenUnderA(host: Host, fuel: nat)
    ensures Valid(UnderA)
    ensures UpAsWritten(UnderA, 1, Name("x"), Int(1), host, fuel)
      == Ok(UnderA[0 := UnderA[0].(ref := Map([Entry(KStr("a"), Map([])), Entry(KStr("x"), Int(1))]))])
  {
    var b := UnderA;
    assert Root(b, 1) == 0;
    ChainForX(b[0].ref, Parsing(b, 1), host, fuel);
    var links := [Link(Null, Some(Name("x")))];
    assert ChainRefPath(b, 1, links) == [Name("x")];
    SlashJoinX();
    TopLevelX();
  }

  lemma CorrectedUnderA()
    ensures Valid(UnderA)
    ensures Up(UnderA, 1, Name("x"), Int(1))
      == Ok(UnderA[0 := UnderA[0].(ref := Map([Entry(KStr("a"), Map([Entry(KStr("x"), Int(1))]))]))])
  {
    var b := UnderA;
    assert Root(b, 1) == 0;
    PlainHasNoSeparator("x");
    assert b[1].at + KeySegments(Name("x")) == [Name("a"), Name("x")];
    NestedX();
  }

  /** The corrected write of `a/x` under `{"a": {}}`. */
  lemma NestedX()
    ensures WriteAt(Map([Entry(KStr("a"), Map([]))]), [Name("a"), Name("x")], Int(1))
      == Written(Map([Entry(KStr("a"), Map([Entry(KStr("x"), Int(1))]))]))
  {
    var root := Map([Entry(KStr("a"), Map([]))]);
    NumericSegment();
    assert [Name("a"), Name("x")][..1] == [Name("a")];
    StepSingle("a", Map([]));
    var inner := Map([Entry(KStr("x"), Int(1))]);
    assert Put(Map([]), Name("x"), Int(1)) == Ok(inner);
    PutSingle("a", Map([]), inner);
    WriteOneLevel(root, Name("a"), x => Put(x, Name("x"), Int(1)), Map([]), inner, Map([Entry(KStr("a"), inner)]));
  }

  lemma SlashJoinX()
    ensures SlashJoin([Name("x")]) == "x"
  {
  }

  /** The as-written root write of `x` under `{"a": {}}`. */
  lemma TopLevelX()
    ensures RootUpAsWritten(Map([Entry(KStr("a"), Map([]))]), Name("x"), Int(1))
      == Ok(Map([Entry(KStr("a"), Map([])), Entry(KStr("x"), Int(1))]))
  {
    PlainHasNoSeparator("x");
    var es := [Entry(KStr("a"), Map([]))];
    assert SetKey(es[1..], KStr("x"), Int(1)) == [Entry(KStr("x"), Int(1))];
    assert SetKey(es, KStr("x"), Int(1)) == [es[0]] + [Entry(KStr("x"), Int(1))];
    assert [es[0]] + [Entry(KStr("x"), Int(1))] == [Entry(KStr("a"), Map([])), Entry(KStr("x"), Int(1))];
    assert AssignAsWritten(Map(es), Name("x"), Int(1), false) == Ok(Map(SetKey(es, KStr("x"), Int(1))));
  }

  /** `create("a")` under `{"a": {}}`. */
  lemma ChildOfA(host: Host, fuel: nat)
    ensures Create(NewRoot([], Map([Entry(KStr("a"), Map([]))])), 0, Name("a"), Null, true, host, fuel)
      == Ok((UnderA, 1))
  {
    var root := Map([Entry(KStr("a"), Map([]))]);
    var a := NewRoot([], root);
    assert a == [Node(root, None, None, [], None, None)];
    NumericSegment();
    StepSingle("a", Map([]));
    assert Plain("a");
    CreatePlain(a, 0, "a", Map([]), Null, true, host, fuel);
    assert Truthy(root) && TruthyKey(Name("a"));
    assert a[0].at + [Name("a")] == [Name("a")];
    assert Child(a, 0, [Name("a")], Map([])) == UnderA[1];
    assert a + [Child(a, 0, [Name("a")], Map([]))] == UnderA;
  }

  /** `create` of a plain key that leads to a value interpolation leaves
      alone: a child over that value, named by the key. */
  lemma CreatePlain(a: Arena, i: nat, k: string, v: Value, default: Value, parse: bool, host: Host, fuel: nat)
    requires Valid(a) && i < |a| && Plain(k)
    requires Step(a[i].ref, Name(k)) == Found(v) && !(Truthy(v) && parse)
    ensures Create(a, i, Name(k), default, parse, host, fuel) == Ok((a + [Child(a, i, [Name(k)], v)], |a|))
  {
    PlainHasNoSeparator(k);
    assert Walk(a[i].ref, [Name(k)]) == Found(v);
    assert CreatedValue(a, i, Name(k), default, parse, host, fuel) == Ok(v);
  }

  /** The chain for the key `x` under an empty dict: one link, a miss. */
  lemma ChainForX(ctx: Value, parsing: bool, host: Host, fuel: nat)
    ensures Chain(Map([]), ctx, parsing, KeySegments(Name("x")), host, fuel) == Ok([Link(Null, Some(Name("x")))])
  {
    PlainHasNoSeparator("x");
    assert Walk(Map([]), [Name("x")]) == Missing;
    assert [Link(Null, Some(Name("x")))] + [] == [Link(Null, Some(Name("x")))];
  }
}
