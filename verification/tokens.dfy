/** The reference scanner: `re.findall` with the engines' reference patterns.

    `Reflective` (src/app/util/object.py:25) uses `\$(c|e){([a-z0-9_/]+)}` and
    `Config` (src/app/model/config.py:22) uses `\$(c|e){([a-z_]+[a-z0-9_/]*)}`,
    both case-insensitive.  A match is `$`, a kind letter, `{`, a non-empty
    path, and `}`; the path is a maximal run of path characters, since `}` is
    not one of them.  `findall` scans left to right and resumes after each
    match, so matches never overlap.
 */
module Tokens {
  import opened Wrappers
  import opened Strings

  /** Which of the two patterns is in use. */
  datatype Flavour = ReflectivePattern | ConfigPattern

  /** One match: the kind letter as written (`c`, `C`, `e` or `E`) and the
      path between the braces. */
  datatype Token = Token(kind: char, path: string)

  predicate IsLetter(c: char)
  {
    'a' <= c <= 'z' || 'A' <= c <= 'Z'
  }

  /** `[a-z0-9_/]` under `re.IGNORECASE`. */
  predicate PathChar(c: char)
  {
    IsLetter(c) || IsDigit(c) || c == '_' || c == '/'
  }

  /** The characters a path may start with. */
  predicate LeadChar(f: Flavour, c: char)
  {
    match f
    case ReflectivePattern => PathChar(c)
    case ConfigPattern => IsLetter(c) || c == '_'
  }

  predicate IsKind(c: char)
  {
    c == 'c' || c == 'C' || c == 'e' || c == 'E'
  }

  /** `str(kind).lower() == 'c'`: a configuration reference, as opposed to an
      environment reference. */
  predicate IsConfigRef(t: Token)
  {
    t.kind == 'c' || t.kind == 'C'
  }

  /** The text the engine replaces: `f'${kind}{{{path}}}'`. */
  function TokenText(t: Token): (r: string)
    ensures |r| == |t.path| + 4
  {
    ['$', t.kind, '{'] + t.path + ['}']
  }

  /** A path the pattern accepts. */
  predicate ValidPath(f: Flavour, p: string)
  {
    |p| > 0 && LeadChar(f, p[0]) && forall i :: 0 <= i < |p| ==> PathChar(p[i])
  }

  /** Length of the run of path characters starting at `j`. */
  function PathRun(s: string, j: nat): (n: nat)
    requires j <= |s|
    ensures j + n <= |s|
    ensures forall i :: j <= i < j + n ==> PathChar(s[i])
    ensures j + n < |s| ==> !PathChar(s[j + n])
    decreases |s| - j
  {
    if j < |s| && PathChar(s[j]) then 1 + PathRun(s, j + 1) else 0
  }

  /** The match at the very start of `u`, if there is one. */
  function MatchPrefix(f: Flavour, u: string): (r: Option<Token>)
    ensures r.Some? ==> IsKind(r.value.kind) && ValidPath(f, r.value.path)
  {
    if 3 < |u| && u[0] == '$' && IsKind(u[1]) && u[2] == '{' && LeadChar(f, u[3]) then
      var n := PathRun(u, 3);
      if 3 + n < |u| && u[3 + n] == '}' then Some(Token(u[1], u[3..3 + n])) else None
    else None
  }

  /** The match starting at position `i`, if there is one. */
  function MatchAt(f: Flavour, s: string, i: nat): (r: Option<Token>)
    requires i <= |s|
    ensures r.Some? ==> IsKind(r.value.kind) && ValidPath(f, r.value.path)
  {
    MatchPrefix(f, s[i..])
  }

  /** A match at the start of `u` is the text `u` starts with. */
  lemma PrefixText(f: Flavour, u: string)
    requires MatchPrefix(f, u).Some?
    ensures var t := MatchPrefix(f, u).value;
      |TokenText(t)| <= |u| && u[..|TokenText(t)|] == TokenText(t)
  {
  }

  /** A match at position `i` is the text found there. */
  lemma MatchText(f: Flavour, s: string, i: nat)
    requires i <= |s| && MatchAt(f, s, i).Some?
    ensures var t := MatchAt(f, s, i).value;
      i + |TokenText(t)| <= |s| && s[i..i + |TokenText(t)|] == TokenText(t)
  {
  }

  /** The matches of `s` from position `i` on, in order. */
  function FindAllFrom(f: Flavour, s: string, i: nat): (ts: seq<Token>)
    requires i <= |s|
    ensures forall k :: 0 <= k < |ts| ==> IsKind(ts[k].kind) && ValidPath(f, ts[k].path)
    decreases |s| - i
  {
    if i == |s| then []
    else
      match MatchAt(f, s, i)
      case Some(t) => [t] + FindAllFrom(f, s, i + |TokenText(t)|)
      case None => FindAllFrom(f, s, i + 1)
  }

  /** `pattern.findall(s)` */
  function FindAll(f: Flavour, s: string): seq<Token>
  {
    FindAllFrom(f, s, 0)
  }

  /** A match at `i` is the first token of the scan from `i`. */
  lemma ScanFirst(f: Flavour, s: string, i: nat)
    requires i < |s| && MatchAt(f, s, i).Some?
    ensures |FindAllFrom(f, s, i)| > 0 && FindAllFrom(f, s, i)[0] == MatchAt(f, s, i).value
  {
  }

  /** After a match at `i`, the scan resumes past its text. */
  lemma ScanPast(f: Flavour, s: string, i: nat, k: nat)
    requires i < |s| && MatchAt(f, s, i).Some? && 0 < k < |FindAllFrom(f, s, i)|
    ensures var j := i + |TokenText(MatchAt(f, s, i).value)|;
      k - 1 < |FindAllFrom(f, s, j)| && FindAllFrom(f, s, i)[k] == FindAllFrom(f, s, j)[k - 1]
  {
  }

  /** Without a match at `i`, the scan resumes at the next position. */
  lemma ScanSkip(f: Flavour, s: string, i: nat, k: nat)
    requires i < |s| && MatchAt(f, s, i).None? && k < |FindAllFrom(f, s, i)|
    ensures i + 1 < |s| && k < |FindAllFrom(f, s, i + 1)| && FindAllFrom(f, s, i)[k] == FindAllFrom(f, s, i + 1)[k]
  {
  }

  /** Every token found is the match at some position of the string. */
  lemma {:induction false} FoundAt(f: Flavour, s: string, i: nat, k: nat) returns (p: nat)
    requires i < |s| && k < |FindAllFrom(f, s, i)|
    ensures i <= p < |s| && MatchAt(f, s, p) == Some(FindAllFrom(f, s, i)[k])
    decreases |s| - i
  {
    if MatchAt(f, s, i).None? {
      ScanSkip(f, s, i, k);
      p := FoundAt(f, s, i + 1, k);
    } else if k == 0 {
      ScanFirst(f, s, i);
      p := i;
    } else {
      ScanPast(f, s, i, k);
      p := FoundAt(f, s, i + |TokenText(MatchAt(f, s, i).value)|, k - 1);
    }
  }

  /** The scan finds nothing exactly when no position starts a match. */
  lemma {:induction false} FindAllFromEmpty(f: Flavour, s: string, i: nat)
    requires i <= |s|
    ensures FindAllFrom(f, s, i) == [] <==> forall j :: i <= j < |s| ==> MatchAt(f, s, j).None?
    decreases |s| - i
  {
    if i < |s| && MatchAt(f, s, i).None? {
      FindAllFromEmpty(f, s, i + 1);
    }
  }

  lemma FindAllFromSound(f: Flavour, s: string, i: nat)
    requires i <= |s|
    ensures forall k :: 0 <= k < |FindAllFrom(f, s, i)| ==> Contains(s, TokenText(FindAllFrom(f, s, i)[k]))
    ensures FindAllFrom(f, s, i) == [] <==> forall j :: i <= j < |s| ==> MatchAt(f, s, j).None?
  {
    forall k | 0 <= k < |FindAllFrom(f, s, i)|
      ensures Contains(s, TokenText(FindAllFrom(f, s, i)[k]))
    {
      var p := FoundAt(f, s, i, k);
      MatchText(f, s, p);
      MatchContained(s, p, TokenText(FindAllFrom(f, s, i)[k]));
    }
    FindAllFromEmpty(f, s, i);
  }

  lemma {:induction false} MatchContained(s: string, i: nat, t: string)
    requires i + |t| <= |s|
    requires s[i..i + |t|] == t
    ensures Contains(s, t)
    decreases i
  {
    if i == 0 {
      assert s[..|t|] == t;
    } else {
      MatchContained(s[1..], i - 1, t);
      assert s[1..][i - 1..i - 1 + |t|] == s[i..i + |t|];
    }
  }

  lemma FindAllSound(f: Flavour, s: string)
    ensures forall k :: 0 <= k < |FindAll(f, s)| ==> Contains(s, TokenText(FindAll(f, s)[k]))
    ensures FindAll(f, s) == [] <==> forall j :: 0 <= j < |s| ==> MatchAt(f, s, j).None?
  {
    FindAllFromSound(f, s, 0);
  }

  /** A string without `$` holds no reference. */
  lemma NoDollarNoTokens(f: Flavour, s: string)
    requires '$' !in s
    ensures FindAll(f, s) == []
  {
    FindAllSound(f, s);
  }

  /** `Config`'s pattern wants the path to start with a letter or `_`, so
      `$c{1x}` is not a reference for it, while `Reflective`'s pattern accepts
      it. */
  lemma LeadingDigitPath()
    ensures FindAll(ConfigPattern, "$c{1x}") == []
    ensures FindAll(ReflectivePattern, "$c{1x}") == [Token('c', "1x")]
  {
    var s := "$c{1x}";
    DigitLeadNoMatch(s);
    assert s[1..] == "c{1x}";
    NoDollarNoTokens(ConfigPattern, s[1..]);
    FindAllTail(ConfigPattern, s, 1);
    assert s == TokenText(Token('c', "1x")) + "";
    SingleToken(ReflectivePattern, Token('c', "1x"), "");
  }

  /** A `$X{path}` text over a valid path is a reference exactly when `X` is
      one of `c`, `C`, `e`, `E`, and the letter is kept as written. */
  lemma KindLetter(f: Flavour, k: char, path: string)
    requires ValidPath(f, path)
    ensures FindAll(f, ['$', k, '{'] + path + ['}']) == if IsKind(k) then [Token(k, path)] else []
  {
    var u := ['$', k, '{'] + path + ['}'];
    assert u == TokenText(Token(k, path)) + "";
    if IsKind(k) {
      SingleToken(f, Token(k, path), "");
    } else {
      var from := if k == '$' then 2 else 1;
      assert forall i :: from <= i < |u| ==> u[i] != '$';
      assert '$' !in u[from..];
      NoDollarNoTokens(f, u[from..]);
      FindAllTail(f, u, from);
      assert MatchAt(f, u, 0).None?;
      assert FindAllFrom(f, u, 0) == FindAllFrom(f, u, 1);
      if k == '$' {
        assert u[1..][1] == '{';
        assert MatchAt(f, u, 1).None?;
        assert FindAllFrom(f, u, 1) == FindAllFrom(f, u, 2);
      }
    }
  }

  /** `Config`'s pattern matches nothing whose path starts with a digit. */
  lemma DigitLeadNoMatch(u: string)
    requires 3 < |u| && IsDigit(u[3])
    ensures MatchAt(ConfigPattern, u, 0) == None
  {
  }

  lemma {:induction false} PathRunOf(s: string, j: nat, n: nat)
    requires j + n < |s|
    requires forall i :: j <= i < j + n ==> PathChar(s[i])
    requires !PathChar(s[j + n])
    ensures PathRun(s, j) == n
    decreases n
  {
  }

  /** The text of a token the pattern accepts matches back to the token,
      whatever follows it. */
  lemma MatchOfToken(f: Flavour, t: Token, rest: string)
    requires IsKind(t.kind) && ValidPath(f, t.path)
    ensures MatchAt(f, TokenText(t) + rest, 0) == Some(t)
  {
    var u := TokenText(t) + rest;
    var n := |t.path|;
    assert u[0..] == u;
    assert forall i :: 3 <= i < 3 + n ==> u[i] == t.path[i - 3];
    assert u[3 + n] == '}';
    PathRunOf(u, 3, n);
    assert u[3..3 + n] == t.path;
  }

  /** A token's text followed by text without matches yields that token
      alone. */
  lemma SingleToken(f: Flavour, t: Token, rest: string)
    requires IsKind(t.kind) && ValidPath(f, t.path)
    requires FindAll(f, rest) == []
    ensures FindAll(f, TokenText(t) + rest) == [t]
  {
    var u := TokenText(t) + rest;
    MatchOfToken(f, t, rest);
    assert u[|TokenText(t)|..] == rest;
    FindAllTail(f, u, |TokenText(t)|);
  }

  /** Scanning from a position past which nothing matches finds nothing more. */
  lemma FindAllTail(f: Flavour, s: string, i: nat)
    requires i <= |s|
    requires FindAll(f, s[i..]) == []
    ensures FindAllFrom(f, s, i) == []
  {
    FindAllSound(f, s[i..]);
    FindAllFromSound(f, s, i);
    forall j | i <= j < |s|
      ensures MatchAt(f, s, j).None?
    {
      MatchShift(f, s, i, j);
    }
  }

  /** A match depends only on the text from its position on. */
  lemma MatchShift(f: Flavour, s: string, i: nat, j: nat)
    requires i <= j < |s|
    ensures MatchAt(f, s, j) == MatchAt(f, s[i..], j - i)
  {
  }

  /** A match needs a `$` at its position. */
  lemma NoMatchWithoutDollar(f: Flavour, s: string, i: nat)
    requires i < |s| && s[i] != '$'
    ensures MatchAt(f, s, i) == None
  {
  }

  /** The scan passes over text without `$`. */
  lemma {:induction false} ScanFree(f: Flavour, s: string, i: nat, j: nat)
    requires i <= j <= |s|
    requires forall k :: i <= k < j ==> s[k] != '$'
    ensures FindAllFrom(f, s, i) == FindAllFrom(f, s, j)
    decreases j - i
  {
    if i < j {
      NoMatchWithoutDollar(f, s, i);
      ScanFree(f, s, i + 1, j);
    }
  }

  /** One step of the scan over a match. */
  lemma ScanStep(f: Flavour, s: string, i: nat, t: Token)
    requires i < |s| && MatchAt(f, s, i) == Some(t)
    ensures FindAllFrom(f, s, i) == [t] + FindAllFrom(f, s, i + |TokenText(t)|)
  {
  }

  /** A token the pattern accepts, whichever pattern: a kind letter and a
      path of path characters. */
  predicate WellFormed(t: Token)
  {
    IsKind(t.kind) && forall i :: 0 <= i < |t.path| ==> PathChar(t.path[i])
  }

  /** Every token of `toks` is one the pattern `f` accepts. */
  predicate Accepted(f: Flavour, toks: seq<Token>)
  {
    forall i :: 0 <= i < |toks| ==> IsKind(toks[i].kind) && ValidPath(f, toks[i].path)
  }

  /** Literal text: none of it can start a reference. */
  predicate Literal(texts: seq<string>)
  {
    forall i :: 0 <= i < |texts| ==> '$' !in texts[i]
  }

  /** What a reference stands as: its replacement once `done` has one, its
      own text before. */
  function Piece(t: Token, done: map<Token, string>): string
  {
    if t in done then done[t] else TokenText(t)
  }

  /** A string of literal text and references: `texts[0]`, the first
      reference, `texts[1]`, and so on up to the last text, with each
      reference standing as `Piece` says. */
  function Fill(texts: seq<string>, toks: seq<Token>, done: map<Token, string>): string
    requires |texts| == |toks| + 1
    decreases |toks|
  {
    if |toks| == 0 then texts[0]
    else texts[0] + Piece(toks[0], done) + Fill(texts[1..], toks[1..], done)
  }

  /** The same string with every reference still in place. */
  function Template(texts: seq<string>, toks: seq<Token>): string
    requires |texts| == |toks| + 1
  {
    Fill(texts, toks, map[])
  }

  /** Literal text holds no `$`. */
  lemma LiteralFree(s: string, k: nat, p: string)
    requires k + |p| <= |s| && s[k..k + |p|] == p && '$' !in p
    ensures DollarFree(s, k, k + |p|)
  {
  }

  /** A reference's text matches where it stands. */
  lemma TokenStarts(f: Flavour, s: string, j: nat, t: Token)
    requires TextAt(s, j, TokenText(t))
    requires IsKind(t.kind) && ValidPath(f, t.path)
    ensures MatchAt(f, s, j) == Some(t)
  {
    var rest := s[j + |TokenText(t)|..];
    assert s[j..] == TokenText(t) + rest;
    MatchShift(f, s, j, j);
    MatchOfToken(f, t, rest);
  }

  /** Literal text and then a reference's text: the text holds no `$`, the
      reference matches where it starts, and the rest follows it. */
  lemma LiteralThenToken(s: string, k: nat, p: string, t: Token, rest: string)
    requires k <= |s| && s[k..] == p + TokenText(t) + rest && '$' !in p
    ensures k + |p| + |TokenText(t)| <= |s| && s[k + |p| + |TokenText(t)|..] == rest
    ensures DollarFree(s, k, k + |p|)
    ensures TextAt(s, k + |p|, TokenText(t))
  {
  }

  /** The scan over `$`-free text and then a match yields that match and
      then whatever the scan finds past it. */
  lemma ScanPiece(f: Flavour, s: string, k: nat, j: nat, t: Token, toks: seq<Token>)
    requires k <= j < |s| && DollarFree(s, k, j)
    requires MatchAt(f, s, j) == Some(t)
    requires |toks| > 0 && toks[0] == t && ScansTo(f, s, j + |TokenText(t)|, toks[1..])
    ensures ScansTo(f, s, k, toks)
  {
    ScanFree(f, s, k, j);
    ScanStep(f, s, j, t);
    Cons(FindAllFrom(f, s, k), FindAllFrom(f, s, j + |TokenText(t)|), toks);
  }

  /** No `$` in `s` from `i` up to `j`. */
  predicate DollarFree(s: string, i: nat, j: nat)
    requires i <= j <= |s|
  {
    forall k :: i <= k < j ==> s[k] != '$'
  }

  /** The scan of `s` from `i` finds `toks`. */
  predicate ScansTo(f: Flavour, s: string, i: nat, toks: seq<Token>)
  {
    i <= |s| && FindAllFrom(f, s, i) == toks
  }

  /** A sequence is its first element and the rest. */
  lemma Cons<T>(a: seq<T>, b: seq<T>, c: seq<T>)
    requires |c| > 0 && a == [c[0]] + b && b == c[1..]
    ensures a == c
  {
  }

  /** `s` holds `t` at position `j`. */
  predicate TextAt(s: string, j: nat, t: string)
  {
    j + |t| <= |s| && s[j..j + |t|] == t
  }

  /** How a template lies in `s` from position `k` on, as the scan sees it:
      each literal text holds no `$` and each reference matches right after
      its text. */
  predicate Laid(s: string, k: nat, texts: seq<string>, toks: seq<Token>)
    requires |texts| == |toks| + 1
    decreases |toks|
  {
    k <= |s| &&
    if |toks| == 0 then DollarFree(s, k, |s|)
    else
      var j := k + |texts[0]|;
      j + |TokenText(toks[0])| <= |s| && DollarFree(s, k, j) && TextAt(s, j, TokenText(toks[0]))
      && Laid(s, j + |TokenText(toks[0])|, texts[1..], toks[1..])
  }

  /** A template written out from position `k` lies there as `Laid` says. */
  lemma {:induction false} TemplateLaid(s: string, k: nat, texts: seq<string>, toks: seq<Token>)
    requires |texts| == |toks| + 1 && Literal(texts)
    requires k <= |s| && s[k..] == Template(texts, toks)
    ensures Laid(s, k, texts, toks)
    decreases |toks|
  {
    if |toks| == 0 {
      assert s[k..k + |texts[0]|] == texts[0];
      LiteralFree(s, k, texts[0]);
    } else {
      var p, t, rest := texts[0], toks[0], Template(texts[1..], toks[1..]);
      TemplateFirst(texts, toks);
      LiteralThenToken(s, k, p, t, rest);
      TemplateLaid(s, k + |p| + |TokenText(t)|, texts[1..], toks[1..]);
    }
  }

  /** The scan of a laid-out template finds its references, in order. */
  lemma {:induction false} ScanLaid(f: Flavour, s: string, k: nat, texts: seq<string>, toks: seq<Token>)
    requires |texts| == |toks| + 1 && Laid(s, k, texts, toks) && Accepted(f, toks)
    ensures ScansTo(f, s, k, toks)
    decreases |toks|
  {
    if |toks| == 0 {
      ScanFree(f, s, k, |s|);
    } else {
      ScanLaid(f, s, k + |texts[0]| + |TokenText(toks[0])|, texts[1..], toks[1..]);
      ScanLaidStep(f, s, k, texts, toks);
    }
  }

  /** One step of `ScanLaid`: the first reference and then what lies past it. */
  lemma ScanLaidStep(f: Flavour, s: string, k: nat, texts: seq<string>, toks: seq<Token>)
    requires |texts| == |toks| + 1 && |toks| > 0 && Laid(s, k, texts, toks)
    requires IsKind(toks[0].kind) && ValidPath(f, toks[0].path)
    requires ScansTo(f, s, k + |texts[0]| + |TokenText(toks[0])|, toks[1..])
    ensures ScansTo(f, s, k, toks)
  {
    var j := k + |texts[0]|;
    TokenStarts(f, s, j, toks[0]);
    ScanPiece(f, s, k, j, toks[0], toks);
  }

  /** A template is its first text, its first reference's text and the rest. */
  lemma TemplateFirst(texts: seq<string>, toks: seq<Token>)
    requires |texts| == |toks| + 1 && |toks| > 0
    ensures Template(texts, toks) == texts[0] + TokenText(toks[0]) + Template(texts[1..], toks[1..])
  {
  }

  /** `findall` on literal text and references finds exactly those
      references, in order, repeats included. */
  lemma FindAllTemplate(f: Flavour, texts: seq<string>, toks: seq<Token>)
    requires |texts| == |toks| + 1 && Literal(texts) && Accepted(f, toks)
    ensures FindAll(f, Template(texts, toks)) == toks
  {
    var s := Template(texts, toks);
    assert s[0..] == s;
    TemplateLaid(s, 0, texts, toks);
    ScanLaid(f, s, 0, texts, toks);
  }

  /** No other token's text starts where a token's text does. */
  lemma TokenNotPrefix(u: Token, t: Token, rest: string)
    requires WellFormed(u) && WellFormed(t) && u != t
    ensures !StartsWith(TokenText(u) + rest, TokenText(t))
  {
    var s := TokenText(u) + rest;
    var T := TokenText(t);
    var a, b := |u.path|, |t.path|;
    if |T| <= |s| {
      var k: nat;
      if u.kind != t.kind {
        k := 1;
      } else if a < b {
        k := 3 + a;
        assert s[k] == '}' && T[k] == t.path[a];
      } else if b < a {
        k := 3 + b;
        assert T[k] == '}' && s[k] == u.path[b];
      } else {
        assert u.path != t.path;
        assert exists j :: 0 <= j < a && u.path[j] != t.path[j];
        var j :| 0 <= j < a && u.path[j] != t.path[j];
        k := 3 + j;
        assert s[k] == u.path[j] && T[k] == t.path[j];
      }
      assert s[k] != T[k];
      assert s[..|T|][k] == s[k];
    }
  }

  /** Past its `$`, a token's text holds no `$`. */
  lemma TokenTailFree(u: Token)
    requires WellFormed(u)
    ensures '$' !in TokenText(u)[1..]
  {
  }

  /** Replacing one reference's text in a reference as it stands: it turns
      into the replacement if it is that reference still in place, and stays
      as it is otherwise. */
  lemma ReplacePiece(u: Token, done: map<Token, string>, t: Token, x: string, rest: string)
    requires WellFormed(u) && WellFormed(t)
    requires forall v :: v in done ==> '$' !in done[v]
    ensures Replace(Piece(u, done) + rest, TokenText(t), x) == Piece(u, Replaced(done, t, x)) + Replace(rest, TokenText(t), x)
  {
    var T := TokenText(t);
    var piece := Piece(u, done);
    if u in done {
      ReplaceSkips(piece, rest, T, x);
    } else if u == t {
      assert (piece + rest)[..|T|] == T;
      assert (piece + rest)[|T|..] == rest;
    } else {
      TokenNotPrefix(u, t, rest);
      TokenTailFree(u);
      assert (piece + rest)[0] == '$';
      assert (piece + rest)[1..] == piece[1..] + rest;
      ReplaceSkips(piece[1..], rest, T, x);
      assert [piece[0]] + piece[1..] == piece;
    }
  }

  /** Replacing one reference's text in a filled string: its occurrences,
      and nothing else, turn into the replacement, unless it was replaced
      already. */
  lemma {:induction false} ReplaceFill(texts: seq<string>, toks: seq<Token>, done: map<Token, string>,
                                       t: Token, x: string)
    requires |texts| == |toks| + 1 && Literal(texts)
    requires forall i :: 0 <= i < |toks| ==> WellFormed(toks[i])
    requires forall u :: u in done ==> '$' !in done[u]
    requires WellFormed(t)
    ensures Replace(Fill(texts, toks, done), TokenText(t), x) == Fill(texts, toks, Replaced(done, t, x))
    decreases |toks|
  {
    if |toks| == 0 {
      ReplaceSkips(texts[0], "", TokenText(t), x);
      assert texts[0] + "" == texts[0];
    } else {
      ReplaceFill(texts[1..], toks[1..], done, t, x);
      ReplaceFillStep(texts, toks, done, t, x);
    }
  }

  /** `done` once the reference `t` has its replacement `x`: a reference
      replaced earlier keeps its first replacement. */
  function Replaced(done: map<Token, string>, t: Token, x: string): map<Token, string>
  {
    if t in done then done else done[t := x]
  }

  /** One step of `ReplaceFill`: the first text passes through, the first
      reference turns into what it stands as afterwards, and the rest is
      replaced as before. */
  lemma ReplaceFillStep(texts: seq<string>, toks: seq<Token>, done: map<Token, string>, t: Token, x: string)
    requires |texts| == |toks| + 1 && |toks| > 0 && '$' !in texts[0] && WellFormed(toks[0])
    requires forall u :: u in done ==> '$' !in done[u]
    requires WellFormed(t)
    requires Replace(Fill(texts[1..], toks[1..], done), TokenText(t), x)
      == Fill(texts[1..], toks[1..], Replaced(done, t, x))
    ensures Replace(Fill(texts, toks, done), TokenText(t), x) == Fill(texts, toks, Replaced(done, t, x))
  {
    var T, done' := TokenText(t), Replaced(done, t, x);
    var rest := Fill(texts[1..], toks[1..], done);
    var piece := Piece(toks[0], done);
    FillFirst(texts, toks, done);
    ReplaceSkips(texts[0], piece + rest, T, x);
    ReplacePiece(toks[0], done, t, x, rest);
    FillFirst(texts, toks, done');
  }

  /** A filled string is its first text, its first reference as it stands,
      and the rest. */
  lemma FillFirst(texts: seq<string>, toks: seq<Token>, done: map<Token, string>)
    requires |texts| == |toks| + 1 && |toks| > 0
    ensures Fill(texts, toks, done) == texts[0] + (Piece(toks[0], done) + Fill(texts[1..], toks[1..], done))
  {
  }

  /** `done` replaces references as `res` does. */
  predicate Within(done: map<Token, string>, res: map<Token, string>)
  {
    forall u :: u in done ==> u in res && done[u] == res[u]
  }

  /** A filled string depends only on how each of its references stands. */
  lemma {:induction false} FillAgree(texts: seq<string>, toks: seq<Token>, m1: map<Token, string>,
                                     m2: map<Token, string>)
    requires |texts| == |toks| + 1
    requires forall i :: 0 <= i < |toks| ==> Piece(toks[i], m1) == Piece(toks[i], m2)
    ensures Fill(texts, toks, m1) == Fill(texts, toks, m2)
    decreases |toks|
  {
    if |toks| > 0 {
      FillAgree(texts[1..], toks[1..], m1, m2);
    }
  }
}
