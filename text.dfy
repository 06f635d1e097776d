/** Strings as the Go code sees them: splitting on a separator
    (strings.Split), joining (strings.Join), the line splitting of
    bufio.Scanner, strings.TrimRight with "\n" and filepath.Join. */
module Text {

  /** strings.Split(s, string([sep])): the pieces between separators.
      There is always at least one piece, and "" splits into [""]. */
  function Split(s: string, sep: char): (r: seq<string>)
    ensures |r| >= 1
    ensures forall i :: 0 <= i < |r| ==> sep !in r[i]
    decreases |s|
  {
    if s == [] then [""]
    else if s[0] == sep then [""] + Split(s[1..], sep)
    else
      var rest := Split(s[1..], sep);
      [[s[0]] + rest[0]] + rest[1..]
  }

  /** strings.Join(parts, sep). */
  function Join(parts: seq<string>, sep: string): string
    decreases |parts|
  {
    if |parts| == 0 then ""
    else if |parts| == 1 then parts[0]
    else parts[0] + sep + Join(parts[1..], sep)
  }

  /** Joining the pieces of a split gives back the original string. */
  lemma {:induction false} JoinSplit(s: string, sep: char)
    ensures Join(Split(s, sep), [sep]) == s
    decreases |s|
  {
    if s == [] {
    } else if s[0] == sep {
      JoinSplit(s[1..], sep);
      var rest := Split(s[1..], sep);
      assert Split(s, sep) == [""] + rest;
      assert ([""] + rest)[1..] == rest;
      assert s == [sep] + s[1..];
    } else {
      JoinSplit(s[1..], sep);
      var rest := Split(s[1..], sep);
      var r := Split(s, sep);
      assert r == [[s[0]] + rest[0]] + rest[1..];
      if |rest| == 1 {
        assert r == [[s[0]] + rest[0]];
      } else {
        assert r[1..] == rest[1..];
        assert Join(rest, [sep]) == rest[0] + [sep] + Join(rest[1..], [sep]);
      }
      assert s == [s[0]] + s[1..];
    }
  }

  /** Splitting a join of separator-free pieces gives back the pieces. */
  lemma {:induction false} SplitJoin(parts: seq<string>, sep: char)
    requires |parts| >= 1
    requires forall i :: 0 <= i < |parts| ==> sep !in parts[i]
    ensures Split(Join(parts, [sep]), sep) == parts
    decreases |parts|, |parts[0]|
  {
    if |parts| == 1 {
      SplitFree(parts[0], sep);
    } else if parts[0] == [] {
      var tail := parts[1..];
      SplitJoin(tail, sep);
      assert Join(parts, [sep]) == [sep] + Join(tail, [sep]);
      assert ([sep] + Join(tail, [sep]))[1..] == Join(tail, [sep]);
      assert parts == [""] + tail;
    } else {
      var p0 := parts[0];
      var shorter := parts[0 := p0[1..]];
      SplitJoin(shorter, sep);
      var s := Join(parts, [sep]);
      assert s == p0 + [sep] + Join(parts[1..], [sep]);
      assert shorter[1..] == parts[1..];
      assert Join(shorter, [sep]) == p0[1..] + [sep] + Join(parts[1..], [sep]);
      assert s[1..] == Join(shorter, [sep]);
      assert s[0] == p0[0] && p0[0] != sep;
      var rest := Split(s[1..], sep);
      assert rest == shorter;
      assert [p0[0]] + p0[1..] == p0;
    }
  }

  /** A string without the separator splits into itself. */
  lemma {:induction false} SplitFree(s: string, sep: char)
    requires sep !in s
    ensures Split(s, sep) == [s]
    decreases |s|
  {
    if s != [] {
      SplitFree(s[1..], sep);
      assert [s[0]] + s[1..] == s;
    }
  }

  /** A split has one piece more than the string has separators. */
  lemma {:induction false} SplitCount(s: string, sep: char)
    ensures |Split(s, sep)| == multiset(s)[sep] + 1
    decreases |s|
  {
    if s != [] {
      SplitCount(s[1..], sep);
      assert s == [s[0]] + s[1..];
    }
  }

  /** The lines bufio.Scanner's default split function yields: the pieces
      between "\n", without the empty piece after a final "\n"; "" has no
      lines at all. */
  function ScanLines(s: string): (r: seq<string>)
    ensures forall i :: 0 <= i < |r| ==> '\n' !in r[i]
  {
    if s == [] then []
    else
      var pieces := Split(s, '\n');
      if pieces[|pieces| - 1] == "" then pieces[..|pieces| - 1] else pieces
  }

  /** Output of n >= 1 lines, each ended by "\n", scans back into those lines. */
  lemma ScanTerminatedLines(lines: seq<string>)
    requires |lines| >= 1
    requires forall i :: 0 <= i < |lines| ==> '\n' !in lines[i]
    ensures ScanLines(Join(lines, "\n") + "\n") == lines
  {
    var all := lines + [""];
    forall i | 0 <= i < |all| ensures '\n' !in all[i] {
      if i < |lines| { assert all[i] == lines[i]; }
    }
    JoinAppend(lines, "", "\n");
    var text := Join(lines, "\n") + "\n";
    assert text == Join(all, "\n");
    SplitJoin(all, '\n');
    var pieces := Split(text, '\n');
    assert pieces == all;
    assert text != [];
    assert pieces[|pieces| - 1] == "";
    assert all[..|all| - 1] == lines;
  }

  /** Joining with one more, final piece appends the separator and that piece. */
  lemma {:induction false} JoinAppend(parts: seq<string>, last: string, sep: string)
    requires |parts| >= 1
    ensures Join(parts + [last], sep) == Join(parts, sep) + sep + last
    decreases |parts|
  {
    if |parts| == 1 {
      assert (parts + [last])[1..] == [last];
    } else {
      assert (parts + [last])[1..] == parts[1..] + [last];
      JoinAppend(parts[1..], last, sep);
    }
  }

  /** strings.TrimRight(s, "\n"): s without its trailing newlines. */
  function TrimTrailingNewlines(s: string): (r: string)
    ensures |r| <= |s| && r == s[..|r|]
    ensures r == [] || r[|r| - 1] != '\n'
    ensures forall i :: |r| <= i < |s| ==> s[i] == '\n'
    decreases |s|
  {
    if s != [] && s[|s| - 1] == '\n' then TrimTrailingNewlines(s[..|s| - 1]) else s
  }

  /** filepath.Join of a directory path and one name, for the clean,
      slash-separated relative paths the blob walk builds: an empty
      directory contributes nothing, an empty name leaves the directory. */
  function PathJoin(dir: string, name: string): (r: string)
    ensures |dir| <= |r| && r[..|dir|] == dir
    ensures |name| <= |r| && r[|r| - |name|..] == name
    ensures dir != "" && name != "" ==> |r| == |dir| + 1 + |name| && r[|dir|] == '/'
  {
    if dir == "" then name else if name == "" then dir else dir + "/" + name
  }

  /** A lower-case hexadecimal digit, as the class [0-9a-f]. */
  predicate IsLowerHexDigit(c: char) {
    '0' <= c <= '9' || 'a' <= c <= 'f'
  }

  /** s matches ^[0-9a-f]{n}$. */
  predicate IsLowerHex(s: string, n: nat) {
    |s| == n && forall i :: 0 <= i < |s| ==> IsLowerHexDigit(s[i])
  }
}
