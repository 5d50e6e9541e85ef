/** The `key=value` settings file read by `ConfigLoader.load_file`
    (src/app/util/config.py).  The file's lines are the input; an absent
    file is an absent input.
 */
module Loader {
  import opened Wrappers
  import opened Strings

  /** `key, value = line.split('=')`: unpacking succeeds only when the line
      holds exactly one `=`; the key is stripped and lower-cased, the value
      only stripped. */
  function ParseLine(line: string): (r: Result<(string, string)>)
    ensures r.Ok? <==> Count(line, '=') == 1
    ensures r.Err? ==> r.error == ValueError
  {
    if Count(line, '=') != 1 then Err(ValueError)
    else
      var i := IndexOf(line, '=');
      Ok((Lower(Strip(line[..i])), Strip(line[i + 1..])))
  }

  predicate WellFormed(lines: seq<string>)
  {
    forall i :: 0 <= i < |lines| ==> ParseLine(lines[i]).Ok?
  }

  /** The entries of a well-formed file, in line order. */
  function Entries(lines: seq<string>): (es: seq<(string, string)>)
    requires WellFormed(lines)
    ensures |es| == |lines|
    ensures forall i :: 0 <= i < |lines| ==> ParseLine(lines[i]) == Ok(es[i])
  {
    seq(|lines|, i requires 0 <= i < |lines| && ParseLine(lines[i]).Ok? => ParseLine(lines[i]).value)
  }

  /** The dictionary a sequence of entries builds: each entry is stored in
      turn, later ones overwriting earlier ones. */
  function Settings(es: seq<(string, string)>): map<string, string>
  {
    if |es| == 0 then map[]
    else Settings(es[..|es| - 1])[es[|es| - 1].0 := es[|es| - 1].1]
  }

  /** A line written as `key=value`, with `=` in neither part, reads back as
      the stripped, lower-cased key and the stripped value. */
  lemma ParseLineOfPair(key: string, value: string)
    requires '=' !in key && '=' !in value
    ensures ParseLine(key + "=" + value) == Ok((Lower(Strip(key)), Strip(value)))
  {
    var line := key + "=" + value;
    assert Count(line, '=') == 1 by {
      assert line == key + ("=" + value);
      CountConcat(key, "=" + value, '=');
      CountConcat("=", value, '=');
    }
    assert IndexOf(line, '=') == |key| by {
      forall j | 0 <= j < |key|
        ensures line[j] != '='
      {
        assert line[j] == key[j] && key[j] in key;
      }
      IndexOfFirst(line, '=', |key|);
    }
    assert line[..|key|] == key && line[|key| + 1..] == value;
  }

  /** A key is present exactly when some entry names it. */
  lemma {:induction false} KeysOfSettings(es: seq<(string, string)>, k: string)
    ensures k in Settings(es) <==> exists i :: 0 <= i < |es| && es[i].0 == k
    decreases |es|
  {
    if |es| > 0 {
      var n := |es| - 1;
      KeysOfSettings(es[..n], k);
      if k in Settings(es) && es[n].0 != k {
        var i :| 0 <= i < n && es[..n][i].0 == k;
        assert es[i] == es[..n][i];
      }
      if es[n].0 != k && exists i :: 0 <= i < |es| && es[i].0 == k {
        var i :| 0 <= i < |es| && es[i].0 == k;
        assert i < n && es[..n][i] == es[i];
      }
    }
  }

  /** A key holds the value of the last entry that names it: a later line
      with the same normalised key overwrites an earlier one. */
  lemma {:induction false} LastLineWins(es: seq<(string, string)>, i: nat)
    requires i < |es|
    requires forall j :: i < j < |es| ==> es[j].0 != es[i].0
    ensures es[i].0 in Settings(es) && Settings(es)[es[i].0] == es[i].1
    decreases |es|
  {
    var n := |es| - 1;
    if i < n {
      assert es[..n][i] == es[i];
      assert forall j :: i < j < n ==> es[..n][j] == es[j];
      LastLineWins(es[..n], i);
    }
  }

  /** One more well-formed line adds its entry. */
  lemma Extended(ls: seq<string>, i: nat)
    requires i < |ls| && WellFormed(ls[..i]) && ParseLine(ls[i]).Ok?
    ensures WellFormed(ls[..i + 1])
    ensures Entries(ls[..i + 1]) == Entries(ls[..i]) + [ParseLine(ls[i]).value]
  {
    assert forall j :: 0 <= j < i ==> ls[..i + 1][j] == ls[..i][j];
    assert ls[..i + 1][i] == ls[i];
    var longer := Entries(ls[..i + 1]);
    var shorter := Entries(ls[..i]) + [ParseLine(ls[i]).value];
    forall j | 0 <= j < i + 1
      ensures longer[j] == shorter[j]
    {
      if j < i {
        assert ParseLine(ls[..i][j]) == Ok(Entries(ls[..i])[j]);
      }
    }
  }

  /** `load_file`: an absent file gives an empty dictionary; otherwise each
      line is parsed in turn, the first malformed one raising `ValueError`. */
  method LoadFile(lines: Option<seq<string>>) returns (r: Result<map<string, string>>)
    ensures lines.None? ==> r == Ok(map[])
    ensures lines.Some? && WellFormed(lines.value) ==> r == Ok(Settings(Entries(lines.value)))
    ensures lines.Some? && !WellFormed(lines.value) ==> r == Err(ValueError)
  {
    if lines.None? {
      return Ok(map[]);
    }
    var ls := lines.value;
    var config: map<string, string> := map[];
    var i := 0;
    while i < |ls|
      invariant 0 <= i <= |ls|
      invariant WellFormed(ls[..i])
      invariant config == Settings(Entries(ls[..i]))
    {
      var parsed := ParseLine(ls[i]);
      if parsed.Err? {
        return Err(parsed.error);
      }
      Extended(ls, i);
      assert Settings(Entries(ls[..i + 1])) == config[parsed.value.0 := parsed.value.1] by {
        var es := Entries(ls[..i + 1]);
        assert es[..|es| - 1] == Entries(ls[..i]);
      }
      config := config[parsed.value.0 := parsed.value.1];
      i := i + 1;
    }
    assert ls[..i] == ls;
    return Ok(config);
  }

  /** An empty line has no `=` and stops the load. */
  lemma EmptyLineRaises()
    ensures ParseLine("") == Err(ValueError)
  {
  }
}
