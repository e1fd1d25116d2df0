/**
 * The network configuration `generate_map` reads: one `key=value` line per network, each line
 * stripped of surrounding whitespace and split on `=`; the first two pieces become a map entry.
 */
module Config {
  import opened Wrappers

  /** The characters `str.strip()` removes (the ASCII whitespace a text file can hold). */
  predicate IsSpace(ch: char)
  {
    ch == ' ' || ch == '\t' || ch == '\n' || ch == '\r' || ch == '\U{B}' || ch == '\U{C}'
  }

  /** The number of whitespace characters `s` starts with. */
  function Leading(s: string): (n: nat)
    ensures n <= |s| && (n == |s| || !IsSpace(s[n]))
    ensures forall i :: 0 <= i < n ==> IsSpace(s[i])
  {
    if s == [] || !IsSpace(s[0]) then 0 else 1 + Leading(s[1..])
  }

  /** The index where the whitespace `s` ends with starts. */
  function TrailStart(s: string): (n: nat)
    ensures n <= |s| && (n == 0 || !IsSpace(s[n - 1]))
    ensures forall i :: n <= i < |s| ==> IsSpace(s[i])
  {
    if s == [] || !IsSpace(s[|s| - 1]) then |s| else TrailStart(s[..|s| - 1])
  }

  /** `s.lstrip()`. */
  function StripLeft(s: string): string
  {
    s[Leading(s)..]
  }

  /** `s.rstrip()`. */
  function StripRight(s: string): string
  {
    s[..TrailStart(s)]
  }

  /** `s.strip()`. */
  function Strip(s: string): string
  {
    StripRight(StripLeft(s))
  }

  predicate AllSpace(t: string)
  {
    forall k :: 0 <= k < |t| ==> IsSpace(t[k])
  }

  /** `strip` keeps a contiguous piece of the line, which neither starts nor ends with whitespace, and drops only whitespace around it. */
  lemma StripKeepsMiddle(s: string)
    ensures var i := Leading(s); var j := i + |Strip(s)|;
      && j <= |s| && Strip(s) == s[i..j] && AllSpace(s[..i]) && AllSpace(s[j..])
    ensures Strip(s) == [] || (!IsSpace(Strip(s)[0]) && !IsSpace(Strip(s)[|Strip(s)| - 1]))
  {
    var i := Leading(s);
    var l := s[i..];
    var t := TrailStart(l);
    var j := i + t;
    assert Strip(s) == l[..t] == s[i..j];
    SpacePrefix(s, i);
    SpaceSuffix(s, i, t);
    if t > 0 {
      assert l[0] == s[i] && l[t - 1] == s[j - 1];
    }
  }

  lemma SpacePrefix(s: string, i: nat)
    requires i <= |s| && forall k :: 0 <= k < i ==> IsSpace(s[k])
    ensures AllSpace(s[..i])
  {
    forall k | 0 <= k < i ensures IsSpace(s[..i][k]) {
      assert s[..i][k] == s[k];
    }
  }

  /** The whitespace `s[i..]` ends with from index `t` on is the tail `s[i + t..]`. */
  lemma SpaceSuffix(s: string, i: nat, t: nat)
    requires i + t <= |s| && forall k :: t <= k < |s[i..]| ==> IsSpace(s[i..][k])
    ensures AllSpace(s[i + t..])
  {
    var rest := s[i + t..];
    forall k | 0 <= k < |rest| ensures IsSpace(rest[k]) {
      assert rest[k] == s[i..][t + k];
    }
  }

  /** `s.split(sep)`: the pieces between separators, the last one read after the last separator. */
  function Split(s: string, sep: char): (pieces: seq<string>)
    ensures |pieces| >= 1
    ensures forall k, i :: 0 <= k < |pieces| && 0 <= i < |pieces[k]| ==> pieces[k][i] != sep
    decreases |s|
  {
    if s == [] then [[]]
    else
      var rest := Split(s[1..], sep);
      if s[0] == sep then [[]] + rest
      else
        assert forall k, i :: 0 <= k < |rest| && 0 <= i < |rest[k]| ==> rest[k][i] != sep;
        [[s[0]] + rest[0]] + rest[1..]
  }

  /** `sep.join(pieces)`. */
  function Join(pieces: seq<string>, sep: char): string
    requires |pieces| >= 1
    decreases |pieces|
  {
    if |pieces| == 1 then pieces[0] else pieces[0] + [sep] + Join(pieces[1..], sep)
  }

  /** Splitting loses nothing: joining the pieces back gives the line. */
  lemma {:induction false} SplitJoin(s: string, sep: char)
    ensures Join(Split(s, sep), sep) == s
    decreases |s|
  {
    if s != [] {
      SplitJoin(s[1..], sep);
      var rest := Split(s[1..], sep);
      if s[0] == sep {
        assert Split(s, sep)[1..] == rest;
      } else {
        var p := Split(s, sep);
        assert p[1..] == rest[1..];
        if |rest| == 1 {
          assert p == [[s[0]] + rest[0]];
        } else {
          assert Join(p, sep) == [s[0]] + rest[0] + [sep] + Join(rest[1..], sep);
        }
      }
    }
  }

  /** Joining one more piece appends a separator and the piece. */
  lemma {:induction false} JoinSnoc(pieces: seq<string>, p: string, sep: char)
    requires |pieces| >= 1
    ensures Join(pieces + [p], sep) == Join(pieces, sep) + [sep] + p
    decreases |pieces|
  {
    if |pieces| == 1 {
      assert pieces + [p] == [pieces[0], p];
    } else {
      assert (pieces + [p])[1..] == pieces[1..] + [p];
      JoinSnoc(pieces[1..], p, sep);
    }
  }

  /** Joining separator-free pieces and splitting the result gives the pieces back. */
  lemma {:induction false} JoinSplit(pieces: seq<string>, sep: char)
    requires |pieces| >= 1
    requires forall k, i :: 0 <= k < |pieces| && 0 <= i < |pieces[k]| ==> pieces[k][i] != sep
    ensures Split(Join(pieces, sep), sep) == pieces
    decreases |pieces|
  {
    if |pieces| == 1 {
      SplitNoSep(pieces[0], sep);
    } else {
      JoinSplit(pieces[1..], sep);
      SplitAtFirst(pieces[0], Join(pieces[1..], sep), sep);
      assert [pieces[0]] + pieces[1..] == pieces;
    }
  }

  /** A piece-free line splits into itself; a line `k=v` with `=`-free `k` splits at that `=`. */
  lemma {:induction false} SplitAtFirst(k: string, v: string, sep: char)
    requires forall i :: 0 <= i < |k| ==> k[i] != sep
    ensures Split(k + [sep] + v, sep) == [k] + Split(v, sep)
    decreases |k|
  {
    if k != [] {
      assert (k + [sep] + v)[1..] == k[1..] + [sep] + v;
      SplitAtFirst(k[1..], v, sep);
      assert k == [k[0]] + k[1..];
    } else {
      assert ([] + [sep] + v)[1..] == v;
    }
  }

  /** One line of the file: `None` where `tokens[1]` raises IndexError (no `=` on the line). */
  function ConfigLine(line: string): (entry: Option<(string, string)>)
    ensures entry.Some? ==>
      && (forall i :: 0 <= i < |entry.value.0| ==> entry.value.0[i] != '=')
      && (forall i :: 0 <= i < |entry.value.1| ==> entry.value.1[i] != '=')
  {
    var tokens := Split(Strip(line), '=');
    if |tokens| < 2 then None else Some((tokens[0], tokens[1]))
  }

  /** The entry of a line is the text before its first `=` and the text up to the next `=`. */
  lemma ConfigLineMeaning(k: string, v: string, rest: string)
    requires forall i :: 0 <= i < |k| ==> k[i] != '='
    requires forall i :: 0 <= i < |v| ==> v[i] != '='
    requires Strip(k + "=" + v + rest) == k + "=" + v + rest
    requires rest == [] || rest[0] == '='
    ensures ConfigLine(k + "=" + v + rest) == Some((k, v))
  {
    SplitAtFirst(k, v + rest, '=');
    assert k + "=" + v + rest == k + ['='] + (v + rest);
    if rest == [] {
      assert v + rest == v;
      SplitNoSep(v, '=');
    } else {
      SplitAtFirst(v, rest[1..], '=');
      assert v + rest == v + ['='] + rest[1..];
    }
  }

  /** A line without the separator is a single piece. */
  lemma {:induction false} SplitNoSep(s: string, sep: char)
    requires forall i :: 0 <= i < |s| ==> s[i] != sep
    ensures Split(s, sep) == [s]
    decreases |s|
  {
    if s != [] {
      SplitNoSep(s[1..], sep);
      assert [s[0]] + s[1..] == s;
    }
  }

  /** A single piece is the whole line. */
  lemma SplitSingle(s: string, sep: char)
    ensures |Split(s, sep)| == 1 ==> Split(s, sep)[0] == s
  {
    SplitJoin(s, sep);
  }

  /** A line raises exactly when its stripped text has no `=`; a blank line always raises. */
  lemma ConfigLineFails(line: string)
    ensures ConfigLine(line).None? <==> forall i :: 0 <= i < |Strip(line)| ==> Strip(line)[i] != '='
  {
    var s := Strip(line);
    if forall i :: 0 <= i < |s| ==> s[i] != '=' {
      SplitNoSep(s, '=');
    } else {
      var i :| 0 <= i < |s| && s[i] == '=';
      SplitJoin(s, '=');
      SplitSingle(s, '=');
    }
  }

  /** The dictionary after the given lines: each line's entry overwrites earlier ones. */
  function ConfigOf(lines: seq<string>): Option<map<string, string>>
    decreases |lines|
  {
    if lines == [] then Some(map[])
    else
      match ConfigOf(lines[..|lines| - 1])
      case None => None
      case Some(m) =>
        match ConfigLine(lines[|lines| - 1])
        case None => None
        case Some(e) => Some(m[e.0 := e.1])
  }

  /** The entries of lines that all have one. */
  function EntriesOf(lines: seq<string>): (es: seq<(string, string)>)
    requires forall i :: 0 <= i < |lines| ==> ConfigLine(lines[i]).Some?
    ensures |es| == |lines|
  {
    seq(|lines|, i requires 0 <= i < |lines| => ConfigLine(lines[i]).value)
  }

  /** The keys a list of entries names. */
  function KeysOf(es: seq<(string, string)>): set<string>
  {
    set i | 0 <= i < |es| :: es[i].0
  }

  /** The file fails to load iff some line has no `=`. */
  lemma {:induction false} ConfigOfDefined(lines: seq<string>)
    ensures ConfigOf(lines).Some? <==> forall i :: 0 <= i < |lines| ==> ConfigLine(lines[i]).Some?
    decreases |lines|
  {
    if lines != [] {
      var init := lines[..|lines| - 1];
      ConfigOfDefined(init);
      assert forall i :: 0 <= i < |init| ==> init[i] == lines[i];
    }
  }

  /** A loaded file has exactly one entry per key some line names. */
  lemma {:induction false} ConfigOfKeys(lines: seq<string>)
    requires ConfigOf(lines).Some?
    ensures forall i :: 0 <= i < |lines| ==> ConfigLine(lines[i]).Some?
    ensures ConfigOf(lines).value.Keys == KeysOf(EntriesOf(lines))
    decreases |lines|
  {
    ConfigOfDefined(lines);
    if lines != [] {
      var n := |lines| - 1;
      var init := lines[..n];
      var e := ConfigLine(lines[n]).value;
      ConfigOfKeys(init);
      assert ConfigOf(lines).value == ConfigOf(init).value[e.0 := e.1];
      EntriesOfSnoc(lines);
      KeysOfSnoc(EntriesOf(init), e);
    }
  }

  lemma EntriesOfSnoc(lines: seq<string>)
    requires |lines| > 0 && forall i :: 0 <= i < |lines| ==> ConfigLine(lines[i]).Some?
    ensures EntriesOf(lines) == EntriesOf(lines[..|lines| - 1]) + [ConfigLine(lines[|lines| - 1]).value]
  {
    var n := |lines| - 1;
    assert forall i :: 0 <= i < n ==> lines[..n][i] == lines[i];
  }

  lemma KeysOfSnoc(es: seq<(string, string)>, e: (string, string))
    ensures KeysOf(es + [e]) == KeysOf(es) + {e.0}
  {
    var all := es + [e];
    forall key | key in KeysOf(all) ensures key in KeysOf(es) + {e.0} {
      var i :| 0 <= i < |all| && all[i].0 == key;
      if i < |es| {
        assert es[i].0 == key;
      }
    }
    forall key | key in KeysOf(es) ensures key in KeysOf(all) {
      var i :| 0 <= i < |es| && es[i].0 == key;
      assert all[i].0 == key;
    }
    assert all[|es|].0 == e.0;
  }

  /** A later line naming the same key replaces the earlier value. */
  lemma LaterLineWins(lines: seq<string>, line: string)
    requires ConfigOf(lines).Some? && ConfigLine(line).Some?
    ensures ConfigOf(lines + [line]).Some?
    ensures ConfigOf(lines + [line]).value[ConfigLine(line).value.0] == ConfigLine(line).value.1
    ensures forall key :: key in ConfigOf(lines).value && key != ConfigLine(line).value.0 ==>
      key in ConfigOf(lines + [line]).value && ConfigOf(lines + [line]).value[key] == ConfigOf(lines).value[key]
  {
    assert (lines + [line])[..|lines|] == lines;
  }

  /** The loop of `generate_map` that fills `models`, line by line. */
  method ReadConfig(lines: seq<string>) returns (models: Option<map<string, string>>)
    ensures models == ConfigOf(lines)
  {
    var m: map<string, string> := map[];
    var i := 0;
    while i < |lines|
      invariant 0 <= i <= |lines|
      invariant ConfigOf(lines[..i]) == Some(m)
    {
      var tokens := Split(Strip(lines[i]), '=');
      if |tokens| < 2 {
        assert lines[..i + 1][..i] == lines[..i];
        PrefixFailure(lines, i + 1);
        return None;
      }
      m := m[tokens[0] := tokens[1]];
      assert lines[..i + 1][..i] == lines[..i];
      i := i + 1;
    }
    assert lines[..i] == lines;
    return Some(m);
  }

  /** Once a prefix of the file fails, the whole file fails. */
  lemma {:induction false} PrefixFailure(lines: seq<string>, k: nat)
    requires k <= |lines| && ConfigOf(lines[..k]).None?
    ensures ConfigOf(lines).None?
    decreases |lines| - k
  {
    if k < |lines| {
      assert lines[..k + 1][..k] == lines[..k];
      PrefixFailure(lines, k + 1);
    } else {
      assert lines[..k] == lines;
    }
  }
}
