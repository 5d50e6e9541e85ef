/** Path strings and how they address the configuration tree.

    A path such as `image/repository/url` or `list1.2.name` is cut into
    segments; each segment then steps one level down the tree.  Both engines
    (`Reflective` in src/app/util/object.py and `Config` in
    src/app/model/config.py) read a segment the same way: an int, or a string
    of decimal digits, indexes by integer; anything else indexes by key.  A
    `KeyError` or `TypeError` on the way means "not found"; an `IndexError`
    from a list escapes to the caller.
 */
module Paths {
  import opened Wrappers
  import opened Strings
  import opened Values

  /** A segment as the engine passes it around: a Python str or int. */
  datatype PathKey = Name(s: string) | Index(n: int)

  /** Python's truth value of a segment. */
  predicate TruthyKey(k: PathKey)
  {
    match k
    case Name(s) => |s| > 0
    case Index(n) => n != 0
  }

  /** `str(k)` */
  function KeyText(k: PathKey): string
  {
    match k
    case Name(s) => s
    case Index(n) => IntToString(n)
  }

  function Names(parts: seq<string>): (ks: seq<PathKey>)
    ensures |ks| == |parts|
    ensures forall i :: 0 <= i < |parts| ==> ks[i] == Name(parts[i])
  {
    seq(|parts|, i requires 0 <= i < |parts| => Name(parts[i]))
  }

  /** The separators `Reflective._get_key_segments` tries, in order. */
  const SegmentSeparators: seq<string> := ["//", "/", "__", "."]

  /** The separators `Config._convert_key` tries, in order. */
  const ConvertSeparators: seq<string> := [".", "//", "/", "__"]

  /** The separator `Config` uses for its cache keys. */
  const Internal: string := "___"

  /** The first separator of `seps` that occurs in `s`. */
  function FirstSeparator(s: string, seps: seq<string>): (r: Option<string>)
    ensures r.Some? ==> r.value in seps && Contains(s, r.value)
    ensures r.None? ==> forall i :: 0 <= i < |seps| ==> !Contains(s, seps[i])
  {
    if |seps| == 0 then None
    else if Contains(s, seps[0]) then Some(seps[0])
    else FirstSeparator(s, seps[1..])
  }

  /** The separator chosen is the one at the first position whose separator
      occurs: no earlier one occurs. */
  lemma {:induction false} FirstSeparatorAt(s: string, seps: seq<string>, i: nat)
    requires i < |seps|
    requires Contains(s, seps[i])
    requires forall j :: 0 <= j < i ==> !Contains(s, seps[j])
    ensures FirstSeparator(s, seps) == Some(seps[i])
    decreases i
  {
    if i > 0 {
      assert !Contains(s, seps[0]);
      FirstSeparatorAt(s, seps[1..], i - 1);
    }
  }

  /** `Reflective._get_key_segments`: an int key is one segment; otherwise the
      first of `//`, `/`, `__`, `.` that occurs splits the whole key; a key
      with none of them is one segment. */
  function KeySegments(key: PathKey): (segs: seq<PathKey>)
    ensures |segs| >= 1
  {
    match key
    case Index(_) => [key]
    case Name(s) =>
      match FirstSeparator(s, SegmentSeparators)
      case None => [key]
      case Some(sep) => Names(Split(s, sep))
  }

  /** Joining the segments with the separator that was chosen gives the key
      back, and no segment contains that separator. */
  lemma KeySegmentsRoundTrip(s: string)
    ensures match FirstSeparator(s, SegmentSeparators)
            case None => KeySegments(Name(s)) == [Name(s)]
            case Some(sep) =>
              && Join(Split(s, sep), sep) == s
              && KeySegments(Name(s)) == Names(Split(s, sep))
              && forall i :: 0 <= i < |Split(s, sep)| ==> !Contains(Split(s, sep)[i], sep)
  {
    match FirstSeparator(s, SegmentSeparators)
    case None =>
    case Some(sep) =>
      JoinSplit(s, sep);
      SplitPiecesAvoidSeparator(s, sep);
  }

  /** `//` is tried before `/`, so a double slash is one separator. */
  lemma DoubleSlashIsOneSeparator()
    ensures KeySegments(Name("a//b")) == [Name("a"), Name("b")]
  {
    assert Join(["a", "b"], "//") == "a//b";
    assert Plain("a") && Plain("b");
    SegmentsOfJoin(["a", "b"], "//");
  }

  /** A segment that cannot take part in any separator: non-empty and free of
      `.`, `/` and `_`. */
  predicate Plain(p: string)
  {
    |p| > 0 && Avoids(p, "./_")
  }

  lemma {:induction false} JoinAvoids(parts: seq<string>, sep: string, chars: string)
    requires forall i :: 0 <= i < |parts| ==> Avoids(parts[i], chars)
    requires Avoids(sep, chars)
    ensures Avoids(Join(parts, sep), chars)
    decreases |parts|
  {
    if |parts| > 1 {
      JoinAvoids(parts[1..], sep, chars);
    }
  }

  predicate NoDoubleSlash(s: string)
  {
    forall i :: 0 <= i < |s| - 1 ==> !(s[i] == '/' && s[i + 1] == '/')
  }

  lemma {:induction false} NoDoubleSlashAbsent(s: string)
    requires NoDoubleSlash(s)
    ensures !Contains(s, "//")
    decreases |s|
  {
    if |s| > 0 {
      assert !StartsWith(s, "//") by {
        if |s| >= 2 {
          assert !(s[0] == '/' && s[1] == '/');
          assert s[..2][0] == s[0] && s[..2][1] == s[1];
        }
      }
      NoDoubleSlashAbsent(s[1..]);
    }
  }

  lemma {:induction false} SlashJoinNoDouble(parts: seq<string>)
    requires forall i :: 0 <= i < |parts| ==> Plain(parts[i])
    ensures NoDoubleSlash(Join(parts, "/"))
    decreases |parts|
  {
    if |parts| > 1 {
      SlashJoinNoDouble(parts[1..]);
      var j := Join(parts[1..], "/");
      assert parts[1..][0] == parts[1];
      assert j[0] == parts[1][0];
      assert parts[1][0] != '/';
      var s := parts[0] + "/" + j;
      forall i | 0 <= i < |s| - 1
        ensures !(s[i] == '/' && s[i + 1] == '/')
      {
        if i < |parts[0]| {
          assert s[i] == parts[0][i];
        } else if i == |parts[0]| {
          assert s[i + 1] == j[0];
        } else {
          assert s[i] == j[i - |parts[0]| - 1] && s[i + 1] == j[i - |parts[0]|];
        }
      }
    }
  }

  lemma {:induction false} ContainsInside(a: string, t: string, needle: string)
    requires StartsWith(t, needle)
    ensures Contains(a + t, needle)
    decreases |a|
  {
    if |a| == 0 {
      assert a + t == t;
    } else {
      ContainsInside(a[1..], t, needle);
      assert (a + t)[1..] == a[1..] + t;
    }
  }

  /** A string lacking the first character of `needle` does not contain it. */
  lemma {:induction false} AbsentByChar(s: string, needle: string)
    requires |needle| > 0
    requires Avoids(s, [needle[0]])
    ensures !Contains(s, needle)
    decreases |s|
  {
    if |s| > 0 {
      assert !StartsWith(s, needle) by {
        if |needle| <= |s| {
          assert s[..|needle|][0] == s[0];
        }
      }
      AbsentByChar(s[1..], needle);
    }
  }

  lemma PlainAvoids(p: string, sep: string)
    requires Plain(p)
    requires forall i :: 0 <= i < |sep| ==> sep[i] in "./_"
    ensures Avoids(p, sep)
  {
  }

  /** A join of plain segments holds the characters `.`, `/`, `_` only where
      the separator put them. */
  lemma JoinLacks(parts: seq<string>, sep: string, c: char)
    requires forall i :: 0 <= i < |parts| ==> Plain(parts[i])
    requires c in "./_" && c !in sep
    ensures Avoids(Join(parts, sep), [c])
  {
  }

  /** A join of two or more plain segments contains its separator and splits
      back into the segments. */
  lemma JoinedKey(parts: seq<string>, sep: string)
    requires |parts| >= 2
    requires forall i :: 0 <= i < |parts| ==> Plain(parts[i])
    requires |sep| > 0 && forall i :: 0 <= i < |sep| ==> sep[i] in "./_"
    ensures Contains(Join(parts, sep), sep)
    ensures Split(Join(parts, sep), sep) == parts
  {
    var j := Join(parts[1..], sep);
    assert Join(parts, sep) == parts[0] + (sep + j);
    ContainsInside(parts[0], sep + j, sep);
    forall i | 0 <= i < |parts|
      ensures Avoids(parts[i], sep)
    {
      PlainAvoids(parts[i], sep);
    }
    SplitJoin(parts, sep);
  }

  /** A plain segment is a key on its own for both engines. */
  lemma PlainHasNoSeparator(p: string)
    requires Plain(p)
    ensures KeySegments(Name(p)) == [Name(p)]
    ensures ConvertKey(p) == p
  {
    PlainAvoids(p, "/");
    PlainAvoids(p, "_");
    PlainAvoids(p, ".");
    AbsentByChar(p, "//");
    AbsentByChar(p, "/");
    AbsentByChar(p, "__");
    AbsentByChar(p, ".");
    assert FirstSeparator(p, SegmentSeparators) == None;
    assert FirstSeparator(p, ConvertSeparators) == None;
  }

  /** A join of plain segments holds no `.`, `/` or `_` outside its
      separator, so no needle starting with one of them occurs elsewhere. */
  lemma JoinLacksNeedle(parts: seq<string>, sep: string, needle: string)
    requires forall i :: 0 <= i < |parts| ==> Plain(parts[i])
    requires |needle| > 0 && needle[0] in "./_" && needle[0] !in sep
    ensures !Contains(Join(parts, sep), needle)
  {
    JoinLacks(parts, sep, needle[0]);
    AbsentByChar(Join(parts, sep), needle);
  }

  lemma SlashJoinLacksDouble(parts: seq<string>)
    requires forall i :: 0 <= i < |parts| ==> Plain(parts[i])
    ensures !Contains(Join(parts, "/"), "//")
  {
    SlashJoinNoDouble(parts);
    NoDoubleSlashAbsent(Join(parts, "/"));
  }

  predicate NoTripleUnderscore(s: string)
  {
    forall i :: 0 <= i < |s| - 2 ==> !(s[i] == '_' && s[i + 1] == '_' && s[i + 2] == '_')
  }

  lemma {:induction false} NoTripleUnderscoreAbsent(s: string)
    requires NoTripleUnderscore(s)
    ensures !Contains(s, Internal)
    decreases |s|
  {
    if |s| > 0 {
      assert !StartsWith(s, Internal) by {
        if |s| >= 3 {
          assert !(s[0] == '_' && s[1] == '_' && s[2] == '_');
          assert s[..3][0] == s[0] && s[..3][1] == s[1] && s[..3][2] == s[2];
        }
      }
      NoTripleUnderscoreAbsent(s[1..]);
    }
  }

  lemma {:induction false} UnderscoreJoinNoTriple(parts: seq<string>)
    requires forall i :: 0 <= i < |parts| ==> Plain(parts[i])
    ensures NoTripleUnderscore(Join(parts, "__"))
    decreases |parts|
  {
    if |parts| == 1 {
      assert Avoids(parts[0], "./_");
    } else if |parts| > 1 {
      UnderscoreJoinNoTriple(parts[1..]);
      var j := Join(parts[1..], "__");
      assert parts[1..][0] == parts[1];
      assert j[0] == parts[1][0];
      assert parts[1][0] != '_';
      var p := parts[0];
      var s := p + "__" + j;
      forall i | 0 <= i < |s| - 2
        ensures !(s[i] == '_' && s[i + 1] == '_' && s[i + 2] == '_')
      {
        if i < |p| {
          assert s[i] == p[i];
        } else if i == |p| {
          assert s[i + 2] == j[0];
        } else if i == |p| + 1 {
          assert s[i + 1] == j[0];
        } else {
          var m := i - |p| - 2;
          assert s[i] == j[m] && s[i + 1] == j[m + 1] && s[i + 2] == j[m + 2];
        }
      }
    }
  }

  /** A join of plain segments with any of the four separators holds no
      `___`. */
  lemma JoinLacksInternal(parts: seq<string>, sep: string)
    requires forall i :: 0 <= i < |parts| ==> Plain(parts[i])
    requires sep in SegmentSeparators
    ensures !Contains(Join(parts, sep), Internal)
  {
    if sep == "__" {
      UnderscoreJoinNoTriple(parts);
      NoTripleUnderscoreAbsent(Join(parts, sep));
    } else {
      JoinLacksNeedle(parts, sep, Internal);
    }
  }

  /** In a join of two or more plain segments, the separator used is the
      first of `//`, `/`, `__`, `.` that occurs. */
  lemma ChosenSeparator(parts: seq<string>, sep: string)
    requires |parts| >= 2
    requires forall i :: 0 <= i < |parts| ==> Plain(parts[i])
    requires sep in SegmentSeparators
    ensures FirstSeparator(Join(parts, sep), SegmentSeparators) == Some(sep)
  {
    var s := Join(parts, sep);
    var seps := SegmentSeparators;
    JoinedKey(parts, sep);
    if sep == "//" {
      FirstSeparatorAt(s, seps, 0);
    } else if sep == "/" {
      SlashJoinLacksDouble(parts);
      FirstSeparatorAt(s, seps, 1);
    } else if sep == "__" {
      JoinLacksNeedle(parts, sep, "//");
      JoinLacksNeedle(parts, sep, "/");
      FirstSeparatorAt(s, seps, 2);
    } else {
      JoinLacksNeedle(parts, sep, "//");
      JoinLacksNeedle(parts, sep, "/");
      JoinLacksNeedle(parts, sep, "__");
      FirstSeparatorAt(s, seps, 3);
    }
  }

  /** Two plain segments joined with `/` read back as the two segments. */
  lemma TwoSegments(p: string, q: string)
    requires Plain(p) && Plain(q)
    ensures KeySegments(Name(p + "/" + q)) == [Name(p), Name(q)]
  {
    assert [p, q][1..] == [q];
    assert Join([p, q], "/") == p + "/" + q;
    SegmentsOfJoin([p, q], "/");
  }

  /** Segment parsing inverts joining: a key built from plain segments with
      any of the four separators gives those segments back. */
  lemma SegmentsOfJoin(parts: seq<string>, sep: string)
    requires |parts| >= 1
    requires forall i :: 0 <= i < |parts| ==> Plain(parts[i])
    requires sep in SegmentSeparators
    ensures KeySegments(Name(Join(parts, sep))) == Names(parts)
  {
    var s := Join(parts, sep);
    if |parts| == 1 {
      PlainHasNoSeparator(parts[0]);
      assert Names(parts) == [Name(s)];
    } else {
      ChosenSeparator(parts, sep);
      JoinedKey(parts, sep);
    }
  }

  /** `Config._convert_key`: every occurrence of the first of `.`, `//`, `/`,
      `__` found in the key becomes `___`.  That is the identity on a key
      without separators, and otherwise rejoins the key's pieces around the
      first separator with `___`. */
  function ConvertKey(key: string): (ck: string)
    ensures FirstSeparator(key, ConvertSeparators).None? ==> ck == key
    ensures FirstSeparator(key, ConvertSeparators).Some? ==>
      ck == Join(Split(key, FirstSeparator(key, ConvertSeparators).value), Internal)
  {
    match FirstSeparator(key, ConvertSeparators)
    case None => key
    case Some(sep) =>
      ReplaceIsSplitJoin(key, sep, Internal);
      Replace(key, sep, Internal)
  }

  /** Converting a key built from plain segments with any of the four
      separators rejoins the segments with `___`. */
  lemma ConvertJoin(parts: seq<string>, sep: string)
    requires |parts| >= 1
    requires forall i :: 0 <= i < |parts| ==> Plain(parts[i])
    requires sep in SegmentSeparators
    ensures ConvertKey(Join(parts, sep)) == Join(parts, Internal)
  {
    if |parts| == 1 {
      PlainHasNoSeparator(parts[0]);
    } else {
      JoinedKey(parts, sep);
      ConvertChoice(parts, sep);
      ReplaceIsSplitJoin(Join(parts, sep), sep, Internal);
    }
  }

  /** `_convert_key` tries `.` first, then `//`, `/`, `__`; in a join of
      plain segments only the separator used (and `/` inside `//`) occurs. */
  lemma ConvertChoice(parts: seq<string>, sep: string)
    requires |parts| >= 2
    requires forall i :: 0 <= i < |parts| ==> Plain(parts[i])
    requires sep in SegmentSeparators
    ensures FirstSeparator(Join(parts, sep), ConvertSeparators) == Some(sep)
  {
    var s := Join(parts, sep);
    var seps := ConvertSeparators;
    JoinedKey(parts, sep);
    if sep == "." {
      FirstSeparatorAt(s, seps, 0);
    } else if sep == "//" {
      JoinLacksNeedle(parts, sep, ".");
      FirstSeparatorAt(s, seps, 1);
    } else if sep == "/" {
      JoinLacksNeedle(parts, sep, ".");
      SlashJoinLacksDouble(parts);
      FirstSeparatorAt(s, seps, 2);
    } else {
      JoinLacksNeedle(parts, sep, ".");
      JoinLacksNeedle(parts, sep, "//");
      JoinLacksNeedle(parts, sep, "/");
      FirstSeparatorAt(s, seps, 3);
    }
  }

  /** Both engines cut a key built from plain segments into the same
      segments: `Reflective` by splitting at the separator, `Config` by
      converting it to `___` and splitting there. */
  lemma EnginesAgreeOnPlainKeys(parts: seq<string>, sep: string)
    requires |parts| >= 1
    requires forall i :: 0 <= i < |parts| ==> Plain(parts[i])
    requires sep in SegmentSeparators
    ensures Names(Split(ConvertKey(Join(parts, sep)), Internal)) == KeySegments(Name(Join(parts, sep)))
  {
    SegmentsOfJoin(parts, sep);
    ConvertJoin(parts, sep);
    forall i | 0 <= i < |parts|
      ensures Avoids(parts[i], Internal)
    {
      PlainAvoids(parts[i], Internal);
    }
    SplitJoin(parts, Internal);
  }

  /** How `_reducer` (and `Config.ref`'s reducer) reads a segment: an int, or
      a str of decimal digits converted with `int(...)`, is a number; anything
      else is used as it is. */
  datatype Selector = ByName(name: string) | ByNumber(n: int)

  function Select(k: PathKey): Selector
  {
    match k
    case Index(n) => ByNumber(n)
    case Name(s) => if IsNumeric(s) then ByNumber(DigitsValue(s)) else ByName(s)
  }

  /** The segment `str(i)` reads position `i`. */
  lemma SelectDecimal(i: nat)
    ensures Select(Name(NatToString(i))) == ByNumber(i)
  {
    DigitsValueOfNatToString(i);
  }

  function MapKey(sel: Selector): Key
  {
    match sel
    case ByName(s) => KStr(s)
    case ByNumber(n) => KInt(n)
  }

  /** Python's list index normalisation: `-len <= n < len` addresses a
      position, counting from the end when `n` is negative. */
  predicate InBounds(len: nat, n: int)
  {
    -(len as int) <= n < len
  }

  function Position(len: nat, n: int): (r: Option<nat>)
    ensures r.Some? <==> InBounds(len, n)
    ensures r.Some? ==> r.value < len && (if n >= 0 then r.value == n else r.value == len + n)
  {
    if 0 <= n < len then Some(n)
    else if InBounds(len, n) then Some(len + n)
    else None
  }

  /** The three ways `c[k]` ends: a value, a `KeyError`/`TypeError` (caught as
      a miss), or an `IndexError` (escapes). */
  datatype Nav = Found(value: Value) | Missing | OutOfRange

  /** One reduction step `c[k]`.  It finds something exactly when the
      segment names a present key of a dict, or a number within the bounds
      of a list or str; it raises `IndexError` exactly when a number is out
      of those bounds. */
  function Step(c: Value, k: PathKey): (n: Nav)
    ensures n.Found? <==>
      || (c.Map? && MapKey(Select(k)) in Keys(c.entries))
      || (c.List? && Select(k).ByNumber? && InBounds(|c.items|, Select(k).n))
      || (c.Str? && Select(k).ByNumber? && InBounds(|c.s|, Select(k).n))
    ensures n.OutOfRange? <==>
      || (c.List? && Select(k).ByNumber? && !(InBounds(|c.items|, Select(k).n)))
      || (c.Str? && Select(k).ByNumber? && !(InBounds(|c.s|, Select(k).n)))
  {
    match c
    case Map(es) =>
      (match Lookup(es, MapKey(Select(k)))
       case Some(v) => Found(v)
       case None => Missing)
    case List(xs) =>
      (match Select(k)
       case ByName(_) => Missing
       case ByNumber(n) =>
         match Position(|xs|, n)
         case Some(j) => Found(xs[j])
         case None => OutOfRange)
    case Str(s) =>
      (match Select(k)
       case ByName(_) => Missing
       case ByNumber(n) =>
         match Position(|s|, n)
         case Some(j) => Found(Str([s[j]]))
         case None => OutOfRange)
    case _ => Missing
  }

  /** `reduce(_reducer, path, c)`: stops at the first step that does not find
      anything. */
  function Walk(c: Value, path: seq<PathKey>): (n: Nav)
    ensures |path| == 1 ==> n == Step(c, path[0])
    decreases |path|
  {
    if |path| == 0 then Found(c)
    else
      match Step(c, path[0])
      case Found(v) => Walk(v, path[1..])
      case other => other
  }

  /** Walking a concatenated path is walking its two halves in turn. */
  lemma {:induction false} WalkAppend(c: Value, a: seq<PathKey>, b: seq<PathKey>)
    ensures Walk(c, a + b) == match Walk(c, a) case Found(v) => Walk(v, b) case other => other
    decreases |a|
  {
    if |a| == 0 {
      assert a + b == b;
    } else {
      assert (a + b)[0] == a[0];
      assert (a + b)[1..] == a[1..] + b;
      if Step(c, a[0]).Found? {
        WalkAppend(Step(c, a[0]).value, a[1..], b);
      }
    }
  }

  /** The lookup both engines do inside `try ... except (KeyError, TypeError)`:
      a miss anywhere on the path gives the default; an out-of-range index
      escapes as `IndexError`. */
  function Fetch(c: Value, path: seq<PathKey>, default: Value): (r: Result<Value>)
    ensures r.Err? <==> Walk(c, path).OutOfRange?
    ensures r.Err? ==> r.error == IndexError
    ensures r.Ok? && Walk(c, path).Found? ==> r.value == Walk(c, path).value
    ensures Walk(c, path).Missing? ==> r == Ok(default)
  {
    match Walk(c, path)
    case Found(v) => Ok(v)
    case Missing => Ok(default)
    case OutOfRange => Err(IndexError)
  }

  /** `c[k] = v` on the slot that `Step(c, k)` reads. */
  function Put(c: Value, k: PathKey, v: Value): Result<Value>
  {
    match c
    case Map(es) => Ok(Map(SetKey(es, MapKey(Select(k)), v)))
    case List(xs) =>
      (match Select(k)
       case ByName(_) => Err(TypeError)
       case ByNumber(n) =>
         match Position(|xs|, n)
         case Some(j) => Ok(List(xs[j := v]))
         case None => Err(IndexError))
    case _ => Err(TypeError)
  }

  /** Two segments address the same slot of `c`. */
  predicate SameSlot(c: Value, k1: PathKey, k2: PathKey)
  {
    match c
    case Map(_) => MapKey(Select(k1)) == MapKey(Select(k2))
    case List(xs) =>
      && Select(k1).ByNumber? && Select(k2).ByNumber?
      && Position(|xs|, Select(k1).n) == Position(|xs|, Select(k2).n)
    case _ => false
  }

  /** Reading a slot right after writing it gives the value written; every
      other slot reads as before. */
  lemma StepPut(c: Value, k: PathKey, v: Value, k2: PathKey)
    requires Put(c, k, v).Ok?
    ensures SameSlot(c, k, k2) ==> Step(Put(c, k, v).value, k2) == Found(v)
    ensures !SameSlot(c, k, k2) ==> Step(Put(c, k, v).value, k2) == Step(c, k2)
    ensures Step(Put(c, k, v).value, k) == Found(v)
  {
    if c.Map? {
      LookupSetKey(c.entries, MapKey(Select(k)), v, MapKey(Select(k2)));
      LookupSetKey(c.entries, MapKey(Select(k)), v, MapKey(Select(k)));
    }
  }

  /** The outcome of a write through a path. */
  datatype WriteOutcome = Written(tree: Value) | ParentMissing | Raised(error: Exception)

  /** Walk `prefix` down from `c`, apply `leaf` to the value found there, and
      put every changed value back on the way up.  This is the effect of
      mutating, in place, the object a reduction reached. */
  function WriteThrough(c: Value, prefix: seq<PathKey>, leaf: Value -> Result<Value>): WriteOutcome
    decreases |prefix|
  {
    if |prefix| == 0 then
      (match leaf(c)
       case Ok(t) => Written(t)
       case Err(e) => Raised(e))
    else
      match Step(c, prefix[0])
      case Missing => ParentMissing
      case OutOfRange => Raised(IndexError)
      case Found(child) =>
        match WriteThrough(child, prefix[1..], leaf)
        case Written(t) =>
          (match Put(c, prefix[0], t)
           case Ok(c') => Written(c')
           case Err(e) => Raised(e))
        case other => other
  }

  /** A write through a path fails to find the parent exactly when walking
      the path misses; a successful write leaves the changed parent at the
      end of the same path. */
  lemma {:induction false} WriteThroughWalk(c: Value, prefix: seq<PathKey>, leaf: Value -> Result<Value>)
    ensures WriteThrough(c, prefix, leaf).ParentMissing? <==> Walk(c, prefix).Missing?
    ensures Walk(c, prefix).OutOfRange? ==> WriteThrough(c, prefix, leaf) == Raised(IndexError)
    ensures WriteThrough(c, prefix, leaf).Written? ==>
      && Walk(c, prefix).Found?
      && leaf(Walk(c, prefix).value).Ok?
      && Walk(WriteThrough(c, prefix, leaf).tree, prefix) == Found(leaf(Walk(c, prefix).value).value)
    decreases |prefix|
  {
    if |prefix| > 0 && Step(c, prefix[0]).Found? {
      var child := Step(c, prefix[0]).value;
      WriteThroughWalk(child, prefix[1..], leaf);
      var w := WriteThrough(child, prefix[1..], leaf);
      if w.Written? && Put(c, prefix[0], w.tree).Ok? {
        StepPut(c, prefix[0], w.tree, prefix[0]);
      }
    }
  }

  /** `path` written with `v`, every slot read the way `Step` reads it. */
  function WriteAt(c: Value, path: seq<PathKey>, v: Value): WriteOutcome
    requires |path| >= 1
  {
    WriteThrough(c, path[..|path| - 1], x => Put(x, path[|path| - 1], v))
  }

  /** After a successful write, the path reads back the value written, and
      every other slot of the same parent reads as before. */
  lemma ReadAfterWrite(c: Value, path: seq<PathKey>, v: Value, sibling: PathKey)
    requires |path| >= 1
    requires WriteAt(c, path, v).Written?
    ensures Walk(WriteAt(c, path, v).tree, path) == Found(v)
    ensures Walk(c, path[..|path| - 1]).Found?
    ensures !SameSlot(Walk(c, path[..|path| - 1]).value, path[|path| - 1], sibling) ==>
      Walk(WriteAt(c, path, v).tree, path[..|path| - 1] + [sibling]) == Walk(c, path[..|path| - 1] + [sibling])
  {
    var prefix, last := path[..|path| - 1], path[|path| - 1];
    assert path == prefix + [last];
    var p := WrittenParent(c, path, v);
    var t := WriteAt(c, path, v).tree;
    ReadBack(t, prefix, last, v, p);
    if !SameSlot(p, last, sibling) {
      SiblingKept(t, c, prefix, last, v, p, sibling);
    }
  }

  /** A tree whose parent slot holds the written parent reads the value at
      the path. */
  lemma ReadBack(t: Value, prefix: seq<PathKey>, last: PathKey, v: Value, p: Value)
    requires Put(p, last, v).Ok?
    requires Walk(t, prefix) == Found(Put(p, last, v).value)
    ensures Walk(t, prefix + [last]) == Found(v)
  {
    StepPut(p, last, v, last);
    WalkLast(t, prefix, last);
  }

  /** Every other slot of the written parent reads as before. */
  lemma SiblingKept(t: Value, c: Value, prefix: seq<PathKey>, last: PathKey, v: Value, p: Value, sibling: PathKey)
    requires Walk(c, prefix) == Found(p)
    requires Put(p, last, v).Ok?
    requires Walk(t, prefix) == Found(Put(p, last, v).value)
    requires !SameSlot(p, last, sibling)
    ensures Walk(t, prefix + [sibling]) == Walk(c, prefix + [sibling])
  {
    StepPut(p, last, v, sibling);
    WalkLast(t, prefix, sibling);
    WalkLast(c, prefix, sibling);
  }

  /** The parent a successful write changed, and what it became. */
  lemma WrittenParent(c: Value, path: seq<PathKey>, v: Value) returns (p: Value)
    requires |path| >= 1
    requires WriteAt(c, path, v).Written?
    ensures Walk(c, path[..|path| - 1]) == Found(p)
    ensures Put(p, path[|path| - 1], v).Ok?
    ensures Walk(WriteAt(c, path, v).tree, path[..|path| - 1]) == Found(Put(p, path[|path| - 1], v).value)
  {
    var leaf := x => Put(x, path[|path| - 1], v);
    WriteThroughWalk(c, path[..|path| - 1], leaf);
    p := Walk(c, path[..|path| - 1]).value;
  }

  /** Walking one more segment is one more step from where the walk ended. */
  lemma WalkLast(c: Value, prefix: seq<PathKey>, k: PathKey)
    ensures Walk(c, prefix + [k]) == match Walk(c, prefix) case Found(p) => Step(p, k) case other => other
  {
    WalkAppend(c, prefix, [k]);
    assert [k][1..] == [];
  }
}
