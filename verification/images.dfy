/** Docker image references, `[url/]name[:tag]`, as `ImageRepo` in
    src/app/model/images.py parses and renders them.
 */
module Images {
  import opened Wrappers
  import opened Strings

  /** The three parts of a reference; each may be `None` when the instance is
      built directly, while `from_tag` always fills all three. */
  datatype ImageRepo = ImageRepo(url: Option<string>, name: Option<string>, tag: Option<string>)

  /** `s.split(c, 1)` when `c` occurs in `s`: the text before the first `c`
      and the text after it. */
  function SplitOnce(s: string, c: char): (r: (string, string))
    requires c in s
    ensures s == r.0 + [c] + r.1
    ensures c !in r.0
  {
    var i := IndexOf(s, c);
    assert s == s[..i] + [c] + s[i + 1..];
    (s[..i], s[i + 1..])
  }

  /** `repo_path`: the url, a `/` only if something precedes the name, the
      name, and `:` with the tag whenever the tag is not `None`, even an
      empty one. */
  function RepoPath(r: ImageRepo): (p: string)
    ensures r.url.Some? ==> StartsWith(p, r.url.value)
    ensures r.tag.Some? ==> EndsWith(p, ":" + r.tag.value)
    ensures r.url.None? && r.name.Some? && r.tag.None? ==> p == r.name.value
  {
    var u := if r.url.Some? then r.url.value else "";
    var n := if r.name.Some? then (if |u| > 0 then u + "/" else u) + r.name.value else u;
    assert StartsWith(n, u) by {
      assert n[..|u|] == u;
    }
    if r.tag.Some? then
      var p := n + ":" + r.tag.value;
      assert p[..|u|] == u;
      assert p[|p| - |":" + r.tag.value|..] == ":" + r.tag.value;
      p
    else n
  }

  /** `from_tag`: an empty or absent reference gives three empty parts;
      otherwise the url is the text before the first `/` when there are at
      least two, a single trailing `:` is dropped, and the tag is what follows
      the first `:` of the name. */
  function FromTag(tag: Option<string>): (r: ImageRepo)
    ensures r.url.Some? && r.name.Some? && r.tag.Some?
    ensures '/' !in r.url.value
    ensures ':' !in r.name.value
    ensures tag.None? || tag.value == "" ==> r == ImageRepo(Some(""), Some(""), Some(""))
    ensures tag.Some? && tag.value != "" ==>
      exists rest ::
        && (Count(tag.value, '/') >= 2 ==> tag.value == r.url.value + "/" + rest)
        && (Count(tag.value, '/') < 2 ==> r.url.value == "" && rest == tag.value)
        && NamePart(rest, r.name.value, r.tag.value)
  {
    if tag.None? || |tag.value| == 0 then ImageRepo(Some(""), Some(""), Some(""))
    else
      var (url, rest) := UrlSplit(tag.value);
      NameAndTag(url, rest)
  }

  /** The url and the rest of a non-empty reference. */
  function UrlSplit(t: string): (r: (string, string))
    ensures '/' !in r.0
    ensures Count(t, '/') >= 2 ==> t == r.0 + "/" + r.1
    ensures Count(t, '/') < 2 ==> r == ("", t)
  {
    if '/' in t && Count(t, '/') != 1 then SplitOnce(t, '/') else ("", t)
  }

  /** `name` and `tag` are what `from_tag` makes of the text `rest` after
      the url: with one trailing `:` dropped, the text is `name:tag` when it
      holds a `:`, and otherwise the name alone with an empty tag. */
  predicate NamePart(rest: string, name: string, tag: string)
  {
    var n := if EndsWith(rest, ":") then rest[..|rest| - 1] else rest;
    && (':' in n ==> n == name + ":" + tag)
    && (':' !in n ==> name == n && tag == "")
  }

  /** The name and tag of what follows the url. */
  function NameAndTag(url: string, rest: string): (r: ImageRepo)
    ensures r.url == Some(url) && r.name.Some? && r.tag.Some?
    ensures ':' !in r.name.value
    ensures NamePart(rest, r.name.value, r.tag.value)
  {
    var name := if EndsWith(rest, ":") then rest[..|rest| - 1] else rest;
    if ':' in name then
      var (n, g) := SplitOnce(name, ':');
      ImageRepo(Some(url), Some(n), Some(g))
    else ImageRepo(Some(url), Some(name), Some(""))
  }

  /** The tag is everything after the first `:` of the name part, further
      colons included, and a name part ending in a single `:` has it
      dropped first.  A single `/` stays in the name. */
  lemma TagPart(name: string, tag: string)
    requires |name| > 0 && Count(name, '/') <= 1 && ':' !in name
    requires '/' !in tag && !EndsWith(tag, ":")
    ensures FromTag(Some(name + ":" + tag)) == ImageRepo(Some(""), Some(name), Some(tag))
  {
    var t := name + ":" + tag;
    SlashesOfTagged(name, tag);
    assert UrlSplit(t) == ("", t);
    NameThenTag(name, tag);
  }

  /** A tag without `:` does not end with one. */
  lemma ColonFreeTag(tag: string)
    requires ':' !in tag
    ensures !EndsWith(tag, ":")
  {
    if |tag| > 0 {
      assert tag[|tag| - 1..][0] == tag[|tag| - 1];
    }
  }

  /** Colons after the first belong to the tag. */
  lemma ColonsInTag()
    ensures FromTag(Some("a:b:c")) == ImageRepo(Some(""), Some("a"), Some("b:c"))
  {
    assert !EndsWith("b:c", ":");
    assert "a" + ":" + "b:c" == "a:b:c";
    TagPart("a", "b:c");
  }

  /** A trailing `:` is dropped before the split. */
  lemma TrailingColonDropped()
    ensures FromTag(Some("a:b:")) == ImageRepo(Some(""), Some("a"), Some("b"))
  {
    var t := "a:b:";
    assert '/' !in t;
    assert UrlSplit(t) == ("", t);
    assert EndsWith(t, ":") && t[..|t| - 1] == "a:b";
    assert !EndsWith("a:b", ":");
    assert "a" + ":" + "b" == "a:b";
    NameThenTag("a", "b");
    assert NameAndTag("", t) == NameAndTag("", "a:b");
  }

  lemma SlashesOfTagged(name: string, tag: string)
    requires '/' !in tag
    ensures Count(name + ":" + tag, '/') == Count(name, '/')
  {
    assert name + ":" + tag == name + (":" + tag);
    CountConcat(name, ":" + tag, '/');
    CountConcat(":", tag, '/');
  }

  lemma NameThenTag(name: string, tag: string)
    requires ':' !in name && !EndsWith(tag, ":")
    ensures NameAndTag("", name + ":" + tag) == ImageRepo(Some(""), Some(name), Some(tag))
  {
    var t := name + ":" + tag;
    if EndsWith(t, ":") {
      assert tag == "";
      assert t[..|t| - 1] == name;
    } else {
      assert IndexOf(t, ':') == |name| by {
        assert t[|name|] == ':';
        forall j | 0 <= j < |name|
          ensures t[j] != ':'
        {
          assert t[j] == name[j] && name[j] in name;
        }
        IndexOfFirst(t, ':', |name|);
      }
      assert t[..|name|] == name && t[|name| + 1..] == tag;
    }
  }

  /** Rendering a reference without a url and parsing it back gives the same
      parts, for a non-empty name and a tag that hold neither `/` nor `:`. */
  lemma RoundTrip(name: string, tag: string)
    requires |name| > 0 && '/' !in name && ':' !in name
    requires '/' !in tag && ':' !in tag
    ensures FromTag(Some(RepoPath(ImageRepo(Some(""), Some(name), Some(tag)))))
      == ImageRepo(Some(""), Some(name), Some(tag))
  {
    assert RepoPath(ImageRepo(Some(""), Some(name), Some(tag))) == name + ":" + tag;
    ColonFreeTag(tag);
    TagPart(name, tag);
  }

  /** A reference without a tag comes back with an empty tag, which renders
      as a trailing `:`. */
  lemma UntaggedGainsColon(name: string)
    requires |name| > 0 && '/' !in name && ':' !in name
    ensures FromTag(Some(name)) == ImageRepo(Some(""), Some(name), Some(""))
    ensures RepoPath(FromTag(Some(name))) == name + ":"
  {
    assert !EndsWith(name, ":") by {
      assert name[|name| - 1] in name;
    }
  }

  /** A url with a slash-free name renders with a single `/`, which parsing
      reads as part of the name: the url is lost. */
  lemma UrlWithPlainName(url: string, name: string, tag: string)
    requires |url| > 0 && '/' !in url && ':' !in url
    requires '/' !in name && ':' !in name
    requires '/' !in tag && ':' !in tag
    ensures RepoPath(ImageRepo(Some(url), Some(name), Some(tag))) == url + "/" + name + ":" + tag
    ensures FromTag(Some(RepoPath(ImageRepo(Some(url), Some(name), Some(tag)))))
      == ImageRepo(Some(""), Some(url + "/" + name), Some(tag))
  {
    var joined := url + "/" + name;
    OneSlash(url, name);
    NoColon(url, name);
    ColonFreeTag(tag);
    TagPart(joined, tag);
  }

  lemma OneSlash(url: string, name: string)
    requires '/' !in url && '/' !in name
    ensures Count(url + "/" + name, '/') == 1
  {
    assert url + "/" + name == url + ("/" + name);
    CountConcat(url, "/" + name, '/');
    CountConcat("/", name, '/');
  }

  lemma NoColon(url: string, name: string)
    requires ':' !in url && ':' !in name
    ensures ':' !in url + "/" + name
  {
  }
}
