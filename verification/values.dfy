/** The configuration tree: what a YAML document parses into.

    A `Value` is Python's `None`, a bool, an int, a float, a str, a list, or a
    dict.  Dicts keep their insertion order, as Python's do, so a dict is a
    sequence of entries with distinct keys; YAML gives string keys and, for
    keys such as `0:`, integer keys.
 */
module Values {
  import opened Wrappers
  import opened Strings

  datatype Key = KStr(s: string) | KInt(n: int)

  datatype Entry = Entry(key: Key, val: Value)

  datatype Value =
    | Null
    | Bool(b: bool)
    | Int(i: int)
    | Float(f: real)
    | Str(s: string)
    | List(items: seq<Value>)
    | Map(entries: seq<Entry>)

  /** `isinstance(v, dict) or isinstance(v, list)` */
  predicate IsContainer(v: Value)
  {
    v.List? || v.Map?
  }

  /** Python's truth value of `v`. */
  predicate Truthy(v: Value)
  {
    match v
    case Null => false
    case Bool(b) => b
    case Int(i) => i != 0
    case Float(f) => f != 0.0
    case Str(s) => |s| > 0
    case List(items) => |items| > 0
    case Map(entries) => |entries| > 0
  }

  /** Number of nodes in the tree; it bounds the recursion of every traversal. */
  function Size(v: Value): (n: nat)
    ensures n >= 1
  {
    match v
    case List(items) => 1 + ItemsSize(items)
    case Map(entries) => 1 + EntriesSize(entries)
    case _ => 1
  }

  function ItemsSize(items: seq<Value>): nat
  {
    if |items| == 0 then 0 else Size(items[0]) + ItemsSize(items[1..])
  }

  function EntriesSize(entries: seq<Entry>): nat
  {
    if |entries| == 0 then 0
    else
      assert entries[0] in entries;
      assert entries[0].val < entries[0];
      Size(entries[0].val) + EntriesSize(entries[1..])
  }

  function Keys(entries: seq<Entry>): (ks: seq<Key>)
    ensures |ks| == |entries|
    ensures forall i :: 0 <= i < |entries| ==> ks[i] == entries[i].key
  {
    seq(|entries|, i requires 0 <= i < |entries| => entries[i].key)
  }

  /** Python's `d[k]` on a dict: the value stored under `k`, if any. */
  function Lookup(entries: seq<Entry>, k: Key): (r: Option<Value>)
    ensures r.None? <==> k !in Keys(entries)
  {
    if |entries| == 0 then None
    else if entries[0].key == k then Some(entries[0].val)
    else
      assert Keys(entries) == [entries[0].key] + Keys(entries[1..]);
      Lookup(entries[1..], k)
  }

  /** Python's `d[k] = v` on a dict: an existing key keeps its position and
      takes the new value; a new key is appended. */
  function SetKey(entries: seq<Entry>, k: Key, v: Value): (r: seq<Entry>)
    ensures k in Keys(entries) ==> Keys(r) == Keys(entries)
    ensures k !in Keys(entries) ==> Keys(r) == Keys(entries) + [k]
  {
    if |entries| == 0 then [Entry(k, v)]
    else
      KeysCons(entries[0], entries[1..]);
      assert entries == [entries[0]] + entries[1..];
      if entries[0].key == k then
        KeysCons(Entry(k, v), entries[1..]);
        [Entry(k, v)] + entries[1..]
      else
        var rest := SetKey(entries[1..], k, v);
        KeysCons(entries[0], rest);
        [entries[0]] + rest
  }

  lemma KeysCons(e: Entry, es: seq<Entry>)
    ensures Keys([e] + es) == [e.key] + Keys(es)
  {
  }

  /** Reading a key back after `d[k] = v` gives `v`; every other key reads as
      before. */
  lemma {:induction false} LookupSetKey(entries: seq<Entry>, k: Key, v: Value, k': Key)
    ensures Lookup(SetKey(entries, k, v), k') == if k' == k then Some(v) else Lookup(entries, k')
    decreases |entries|
  {
    if |entries| > 0 && entries[0].key != k {
      LookupSetKey(entries[1..], k, v, k');
    }
  }

  /** `w` has the shape of `v`: strings stay strings, lists keep their length,
      dicts keep their keys in order, every other scalar is unchanged, and the
      same holds all the way down.  This is what interpolation promises. */
  predicate Shaped(v: Value, w: Value)
  {
    match v
    case Str(_) => w.Str?
    case List(xs) =>
      && w.List?
      && |w.items| == |xs|
      && forall i :: 0 <= i < |xs| ==> Shaped(xs[i], w.items[i])
    case Map(es) =>
      && w.Map?
      && Keys(w.entries) == Keys(es)
      && forall i :: 0 <= i < |es| ==> Shaped(es[i].val, w.entries[i].val)
    case _ => w == v
  }

  /** Shape preservation keeps truthiness: interpolation never turns a
      non-empty container into an empty one. */
  lemma ShapedContainerTruthy(v: Value, w: Value)
    requires Shaped(v, w)
    requires IsContainer(v)
    ensures IsContainer(w) && Truthy(w) == Truthy(v)
  {
  }

  /** Shape is kept entry by entry: a dict whose first value and remaining
      entries keep their shape keeps its shape. */
  lemma ShapedConsEntry(e: Entry, es: seq<Entry>, w: Value, rest: seq<Entry>)
    requires Shaped(e.val, w) && Shaped(Map(es), Map(rest))
    ensures Shaped(Map([e] + es), Map([Entry(e.key, w)] + rest))
  {
  }

  /** The same for lists. */
  lemma ShapedConsItem(x: Value, xs: seq<Value>, y: Value, ys: seq<Value>)
    requires Shaped(x, y) && Shaped(List(xs), List(ys))
    ensures Shaped(List([x] + xs), List([y] + ys))
  {
  }

  /** The collaborators the engine calls but the model does not look into:
      the process environment, and the serialisers behind `json.dumps`,
      `yaml.dump`, Python's `repr` of containers and `str` of floats. */
  datatype Host = Host(
    env: map<string, string>,
    json: Value -> string,
    yaml: Value -> string,
    repr: Value -> string,
    floatText: real -> string)

  /** Python's `str(v)`. */
  function PyStr(host: Host, v: Value): string
  {
    match v
    case Null => "None"
    case Bool(b) => if b then "True" else "False"
    case Int(i) => IntToString(i)
    case Float(f) => host.floatText(f)
    case Str(s) => s
    case _ => host.repr(v)
  }

  /** `str(os.getenv(name))`: an unset variable renders as the text "None". */
  function Getenv(host: Host, name: string): (r: string)
    ensures name !in host.env ==> r == "None"
    ensures name in host.env ==> r == host.env[name]
  {
    if name in host.env then host.env[name] else "None"
  }
}
