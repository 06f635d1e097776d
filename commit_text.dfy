/** The text `git cat-file -p <commit>` prints and what Commit.Instantiate
    reads out of it: a header of "key value..." lines up to the first line
    whose first space-separated field is empty, then the message. */
module CommitText {
  import opened Text

  /** The first space-separated field of a line; "" for a blank line and
      for a line that starts with a space. */
  function Key(line: string): string {
    Split(line, ' ')[0]
  }

  /** A "tree" or "parent" line without a second field: reading its value
      (fields[1]) is an index out of range, a panic. */
  predicate Malformed(line: string) {
    (Key(line) == "tree" || Key(line) == "parent") && |Split(line, ' ')| < 2
  }

  /** The second space-separated field of a line. */
  function Value(line: string): string
    requires |Split(line, ' ')| >= 2
  {
    Split(line, ' ')[1]
  }

  /** The index of the line that ends the header, or |lines| when none does. */
  function HeaderEnd(lines: seq<string>): (h: nat)
    ensures h <= |lines|
    ensures forall i :: 0 <= i < h ==> Key(lines[i]) != ""
    ensures h < |lines| ==> Key(lines[h]) == ""
  {
    if lines == [] then 0
    else if Key(lines[0]) == "" then 0
    else 1 + HeaderEnd(lines[1..])
  }

  /** The header lines, before the line that ends the header. */
  function Header(lines: seq<string>): seq<string> {
    lines[..HeaderEnd(lines)]
  }

  /** The message lines: everything after the line that ends the header. */
  function Body(lines: seq<string>): seq<string> {
    var h := HeaderEnd(lines);
    if h < |lines| then lines[h + 1..] else []
  }

  /** No header line is a "tree" or "parent" line without a value. */
  predicate HeaderWellFormed(header: seq<string>) {
    forall i :: 0 <= i < |header| ==> !Malformed(header[i])
  }

  /** The values of the lines with the given key, in order. */
  function ValuesOf(lines: seq<string>, key: string): (r: seq<string>)
    requires key == "tree" || key == "parent"
    requires HeaderWellFormed(lines)
    ensures |r| <= |lines|
  {
    if lines == [] then []
    else
      var rest := ValuesOf(lines[1..], key);
      if Key(lines[0]) == key then [Value(lines[0])] + rest else rest
  }

  /** The value of the last "tree" line, or `absent` when there is none. */
  function LastValueOf(lines: seq<string>, key: string, absent: string): string
    requires key == "tree" || key == "parent"
    requires HeaderWellFormed(lines)
  {
    var vs := ValuesOf(lines, key);
    if vs == [] then absent else vs[|vs| - 1]
  }

  /** The last whole line with the given key, or `absent` when there is none. */
  function LastLineOf(lines: seq<string>, key: string, absent: string): string
    decreases |lines|
  {
    if lines == [] then absent
    else if Key(lines[|lines| - 1]) == key then lines[|lines| - 1]
    else LastLineOf(lines[..|lines| - 1], key, absent)
  }

  /** The fields of a Commit that Instantiate assigns. */
  datatype CommitFields = CommitFields(
    treeSha1: string,
    parentSha1s: seq<string>,
    authorLine: string,
    committerLine: string,
    msg: string)

  /** The fields of a Commit freshly built from its sha1 alone. */
  const Bare := CommitFields("", [], "", "", "")

  /** What the header lines make of the fields they start from: the last
      "tree" value and the last whole "author" and "committer" lines are
      written over the old ones, every "parent" value is appended, in
      order, and lines with other keys are ignored. */
  function HeaderApplied(f: CommitFields, header: seq<string>): CommitFields
    requires HeaderWellFormed(header)
  {
    CommitFields(
      LastValueOf(header, "tree", f.treeSha1),
      f.parentSha1s + ValuesOf(header, "parent"),
      LastLineOf(header, "author", f.authorLine),
      LastLineOf(header, "committer", f.committerLine),
      f.msg)
  }

  /** What one successful pass of Instantiate over the lines makes of the
      fields it starts from: the header is applied as above, and the
      message is replaced only when there is at least one message line. */
  function Apply(f: CommitFields, lines: seq<string>): CommitFields
    requires HeaderWellFormed(Header(lines))
  {
    var body := Body(lines);
    HeaderApplied(f, Header(lines)).(msg := if body == [] then f.msg else Join(body, "\n"))
  }

  /** The effect of one header line, the switch on its key. */
  function HeaderStep(f: CommitFields, line: string): (r: CommitFields)
    requires !Malformed(line)
    ensures r.msg == f.msg && f.parentSha1s <= r.parentSha1s
    ensures Key(line) != "parent" ==> r.parentSha1s == f.parentSha1s
  {
    match Key(line)
    case "tree" => f.(treeSha1 := Value(line))
    case "parent" => f.(parentSha1s := f.parentSha1s + [Value(line)])
    case "author" => f.(authorLine := line)
    case "committer" => f.(committerLine := line)
    case _ => f
  }

  /** Reading the same lines a second time changes only the parents: the
      tree, author, committer and message come out as after the first
      read, and the header's parents are appended once more. */
  lemma ApplyTwice(f: CommitFields, lines: seq<string>)
    requires HeaderWellFormed(Header(lines))
    ensures var once := Apply(f, lines);
      Apply(once, lines) == once.(parentSha1s := once.parentSha1s + ValuesOf(Header(lines), "parent"))
    ensures ValuesOf(Header(lines), "parent") != [] ==> Apply(Apply(f, lines), lines) != Apply(f, lines)
  {
    var once := Apply(f, lines);
    var h := Header(lines);
    var ps := ValuesOf(h, "parent");
    assert LastValueOf(h, "tree", once.treeSha1) == once.treeSha1;
    LastLineAgain(h, "author", f.authorLine);
    LastLineAgain(h, "committer", f.committerLine);
    if ps != [] {
      assert |Apply(once, lines).parentSha1s| == |once.parentSha1s| + |ps|;
    }
  }

  /** Looking up the last line with a key again, starting from the result
      of a first lookup, finds the same line. */
  lemma {:induction false} LastLineAgain(lines: seq<string>, key: string, absent: string)
    ensures LastLineOf(lines, key, LastLineOf(lines, key, absent)) == LastLineOf(lines, key, absent)
    decreases |lines|
  {
    if lines != [] && Key(lines[|lines| - 1]) != key {
      LastLineAgain(lines[..|lines| - 1], key, absent);
    }
  }

  /** Applying a header one line at a time, as the scanner loop does, is
      applying it all at once. */
  lemma HeaderAppliedSnoc(f: CommitFields, header: seq<string>, line: string)
    requires HeaderWellFormed(header) && !Malformed(line)
    ensures HeaderWellFormed(header + [line])
    ensures HeaderApplied(f, header + [line]) == HeaderStep(HeaderApplied(f, header), line)
  {
    var hl := header + [line];
    assert HeaderWellFormed([line]);
    ValuesOfConcat(header, [line], "tree");
    ValuesOfConcat(header, [line], "parent");
    assert hl[|hl| - 1] == line && hl[..|hl| - 1] == header;
    if Key(line) == "tree" || Key(line) == "parent" {
      assert [line][1..] == [];
    }
  }

  /** An identifier that can stand as the value of a header line. */
  predicate IsToken(s: string) {
    ' ' !in s && '\n' !in s
  }

  /** The commits git can print and Instantiate can read back: identifiers
      are single tokens and the author and committer lines are one line
      each, starting with their key word and a space. */
  predicate Printable(c: CommitFields) {
    && IsToken(c.treeSha1)
    && (forall i :: 0 <= i < |c.parentSha1s| ==> IsToken(c.parentSha1s[i]))
    && '\n' !in c.authorLine && |c.authorLine| >= 7 && c.authorLine[..7] == "author "
    && '\n' !in c.committerLine && |c.committerLine| >= 10 && c.committerLine[..10] == "committer "
  }

  function ParentLines(parents: seq<string>): (r: seq<string>)
    ensures |r| == |parents|
    ensures forall i :: 0 <= i < |r| ==> r[i] == "parent " + parents[i]
  {
    if parents == [] then [] else ["parent " + parents[0]] + ParentLines(parents[1..])
  }

  /** The header lines of a record, in the order git prints them. */
  function HeaderLines(c: CommitFields): seq<string> {
    ["tree " + c.treeSha1] + ParentLines(c.parentSha1s) + [c.authorLine, c.committerLine]
  }

  /** The text `git cat-file -p` prints for a record: the header, a blank
      line, the message and a final newline. */
  function Render(c: CommitFields): string {
    Join(HeaderLines(c), "\n") + "\n\n" + c.msg + "\n"
  }

  /** Reading a printed record into a bare Commit gives back every field,
      the parents in their order and the message exactly, without a
      trailing newline added or lost. */
  lemma RenderRoundTrip(c: CommitFields)
    requires Printable(c)
    ensures var lines := ScanLines(Render(c));
            HeaderWellFormed(Header(lines)) &&
            Apply(Bare, lines) == c
  {
    var hs := HeaderLines(c);
    var ms := Split(c.msg, '\n');
    var lines := hs + [""] + ms;
    RenderedLines(c);
    assert ScanLines(Render(c)) == lines;
    HeaderLinesKeys(c);
    HeaderEndAt(hs, ms);
    assert Header(lines) == hs;
    assert Body(lines) == ms;
    JoinSplit(c.msg, '\n');
    HeaderValues(c);
  }

  /** What Apply reads from the header lines of a printable record. */
  lemma HeaderValues(c: CommitFields)
    requires Printable(c)
    ensures HeaderWellFormed(HeaderLines(c))
    ensures ValuesOf(HeaderLines(c), "parent") == c.parentSha1s
    ensures ValuesOf(HeaderLines(c), "tree") == [c.treeSha1]
    ensures LastLineOf(HeaderLines(c), "author", "") == c.authorLine
    ensures LastLineOf(HeaderLines(c), "committer", "") == c.committerLine
  {
    HeaderTreeParents(c);
    HeaderSignatures(c);
  }

  /** The tree and parent values of the rendered header. */
  lemma HeaderTreeParents(c: CommitFields)
    requires Printable(c)
    ensures HeaderWellFormed(HeaderLines(c))
    ensures ValuesOf(HeaderLines(c), "parent") == c.parentSha1s
    ensures ValuesOf(HeaderLines(c), "tree") == [c.treeSha1]
  {
    var hs := HeaderLines(c);
    var tl := ParentLines(c.parentSha1s) + [c.authorLine, c.committerLine];
    HeaderLinesKeys(c);
    ParentValues(c.parentSha1s);
    SignatureKeys(c);
    KeyValueSplit("tree", c.treeSha1);
    assert "tree " + c.treeSha1 == "tree" + " " + c.treeSha1;
    assert ValuesOf(["tree " + c.treeSha1], "tree") == [c.treeSha1];
    assert hs == ["tree " + c.treeSha1] + tl;
    ValuesOfConcat(ParentLines(c.parentSha1s), [c.authorLine, c.committerLine], "parent");
    ValuesOfConcat(ParentLines(c.parentSha1s), [c.authorLine, c.committerLine], "tree");
    ValuesOfConcat(["tree " + c.treeSha1], tl, "parent");
    ValuesOfConcat(["tree " + c.treeSha1], tl, "tree");
  }

  /** The author and committer lines of the rendered header are its last
      lines with those keys. */
  lemma HeaderSignatures(c: CommitFields)
    requires Printable(c)
    ensures LastLineOf(HeaderLines(c), "author", "") == c.authorLine
    ensures LastLineOf(HeaderLines(c), "committer", "") == c.committerLine
  {
    var hs := HeaderLines(c);
    HeaderLinesKeys(c);
    SignatureKeys(c);
    assert LastLineOf(hs, "committer", "") == c.committerLine;
    assert hs[..|hs| - 1] == ["tree " + c.treeSha1] + ParentLines(c.parentSha1s) + [c.authorLine];
    assert LastLineOf(hs, "author", "") == c.authorLine;
  }

  /** The author and committer lines carry their own key words, so they
      contribute no tree or parent value. */
  lemma SignatureKeys(c: CommitFields)
    requires Printable(c)
    ensures Key(c.authorLine) == "author" && Key(c.committerLine) == "committer"
    ensures HeaderWellFormed([c.authorLine, c.committerLine])
    ensures ValuesOf([c.authorLine, c.committerLine], "tree") == []
    ensures ValuesOf([c.authorLine, c.committerLine], "parent") == []
  {
    assert c.authorLine[..6] == "author" && c.authorLine[6] == ' ';
    KeyOfPrefixed(c.authorLine, "author");
    assert c.committerLine[..9] == "committer" && c.committerLine[9] == ' ';
    KeyOfPrefixed(c.committerLine, "committer");
    SignatureValues(c.authorLine, c.committerLine);
  }

  /** Two lines whose keys are neither "tree" nor "parent" hold no such value. */
  lemma SignatureValues(a: string, b: string)
    requires Key(a) != "tree" && Key(a) != "parent" && Key(b) != "tree" && Key(b) != "parent"
    ensures HeaderWellFormed([a, b])
    ensures ValuesOf([a, b], "tree") == [] && ValuesOf([a, b], "parent") == []
  {
    assert [a, b][1..] == [b] && [b][1..] == [];
  }

  /** The lines of a rendered record: header lines, a blank line, the
      message's lines. */
  lemma RenderedLines(c: CommitFields)
    requires Printable(c)
    ensures ScanLines(Render(c)) == HeaderLines(c) + [""] + Split(c.msg, '\n')
  {
    var hs := HeaderLines(c);
    var ms := Split(c.msg, '\n');
    var all := hs + [""] + ms;
    forall i | 0 <= i < |hs| ensures '\n' !in hs[i] {
      HeaderLineNoNewline(c, i);
    }
    forall i | 0 <= i < |all| ensures '\n' !in all[i] {
      if i < |hs| { assert all[i] == hs[i]; }
      else if i > |hs| { assert all[i] == ms[i - |hs| - 1]; }
    }
    JoinSplit(c.msg, '\n');
    JoinConcat(hs + [""], ms, "\n");
    JoinAppend(hs, "", "\n");
    assert Join(all, "\n") + "\n" == Render(c);
    ScanTerminatedLines(all);
  }

  lemma HeaderLineNoNewline(c: CommitFields, i: nat)
    requires Printable(c)
    requires i < |HeaderLines(c)|
    ensures '\n' !in HeaderLines(c)[i]
  {
    var hs := HeaderLines(c);
    var ps := ParentLines(c.parentSha1s);
    if i == 0 {
      assert hs[0] == "tree " + c.treeSha1;
    } else if i <= |ps| {
      assert hs[i] == ps[i - 1] == "parent " + c.parentSha1s[i - 1];
    }
  }

  /** Joining two non-empty runs of pieces puts one separator between them. */
  lemma {:induction false} JoinConcat(a: seq<string>, b: seq<string>, sep: string)
    requires |a| >= 1 && |b| >= 1
    ensures Join(a + b, sep) == Join(a, sep) + sep + Join(b, sep)
    decreases |a|
  {
    if |a| == 1 {
      assert (a + b)[1..] == b;
    } else {
      assert (a + b)[1..] == a[1..] + b;
      JoinConcat(a[1..], b, sep);
    }
  }

  /** A key word, a space and a token split into exactly the two: the
      line's key is the key word and its value the token. */
  lemma KeyValueSplit(key: string, v: string)
    requires IsToken(key) && IsToken(v)
    ensures Split(key + " " + v, ' ') == [key, v]
    ensures Key(key + " " + v) == key && Value(key + " " + v) == v
  {
    SplitJoin([key, v], ' ');
    assert Join([key, v], " ") == key + " " + Join([v], " ");
  }

  /** The first field of a line that starts with "<key> " is the key. */
  lemma KeyOfPrefixed(line: string, key: string)
    requires IsToken(key) && key != ""
    requires |line| > |key| && line[..|key|] == key && line[|key|] == ' '
    ensures Key(line) == key
  {
    var rest := line[|key| + 1..];
    var pieces := Split(rest, ' ');
    JoinSplit(rest, ' ');
    SplitJoin([key] + pieces, ' ');
    JoinConcat([key], pieces, " ");
    assert line == key + " " + rest;
  }

  lemma HeaderLinesKeys(c: CommitFields)
    requires Printable(c)
    ensures HeaderWellFormed(HeaderLines(c))
    ensures forall i :: 0 <= i < |HeaderLines(c)| ==> Key(HeaderLines(c)[i]) != ""
  {
    var hs := HeaderLines(c);
    var ps := ParentLines(c.parentSha1s);
    KeyValueSplit("tree", c.treeSha1);
    SignatureKeys(c);
    forall i | 0 <= i < |hs| ensures !Malformed(hs[i]) && Key(hs[i]) != "" {
      if i == 0 {
        assert hs[i] == "tree" + " " + c.treeSha1;
      } else if i <= |ps| {
        assert hs[i] == ps[i - 1] == "parent" + " " + c.parentSha1s[i - 1];
        KeyValueSplit("parent", c.parentSha1s[i - 1]);
      } else if i == |ps| + 1 {
        assert hs[i] == c.authorLine;
      } else {
        assert hs[i] == c.committerLine;
      }
    }
  }

  /** A header of non-blank keys followed by a blank line ends at the blank line. */
  lemma {:induction false} HeaderEndAt(hs: seq<string>, ms: seq<string>)
    requires forall i :: 0 <= i < |hs| ==> Key(hs[i]) != ""
    ensures HeaderEnd(hs + [""] + ms) == |hs|
    decreases |hs|
  {
    var lines := hs + [""] + ms;
    if hs == [] {
      assert lines[0] == "";
    } else {
      assert lines[1..] == hs[1..] + [""] + ms;
      HeaderEndAt(hs[1..], ms);
    }
  }

  lemma {:induction false} ValuesOfConcat(a: seq<string>, b: seq<string>, key: string)
    requires key == "tree" || key == "parent"
    requires HeaderWellFormed(a) && HeaderWellFormed(b)
    ensures HeaderWellFormed(a + b)
    ensures ValuesOf(a + b, key) == ValuesOf(a, key) + ValuesOf(b, key)
    decreases |a|
  {
    WellFormedConcat(a, b);
    if a != [] {
      var line, tl := a[0], a[1..];
      assert a == [line] + tl && a + b == [line] + (tl + b);
      WellFormedConcat([line], tl);
      ValuesOfConcat(tl, b, key);
      ValuesOfCons(line, tl, key);
      ValuesOfCons(line, tl + b, key);
      var first := if Key(line) == key then [Value(line)] else [];
      assert first + (ValuesOf(tl, key) + ValuesOf(b, key)) == (first + ValuesOf(tl, key)) + ValuesOf(b, key);
    } else {
      assert a + b == b;
    }
  }

  /** ValuesOf on a header with one more line in front. */
  lemma ValuesOfCons(line: string, rest: seq<string>, key: string)
    requires key == "tree" || key == "parent"
    requires HeaderWellFormed([line] + rest)
    ensures HeaderWellFormed(rest) && !Malformed(line)
    ensures ValuesOf([line] + rest, key) == (if Key(line) == key then [Value(line)] else []) + ValuesOf(rest, key)
  {
    assert ([line] + rest)[0] == line && ([line] + rest)[1..] == rest;
    WellFormedConcat([line], rest);
  }

  /** A header splits into well-formed parts exactly when it is well formed. */
  lemma WellFormedConcat(a: seq<string>, b: seq<string>)
    ensures HeaderWellFormed(a + b) <==> HeaderWellFormed(a) && HeaderWellFormed(b)
  {
    if HeaderWellFormed(a) && HeaderWellFormed(b) {
      forall i | 0 <= i < |a + b| ensures !Malformed((a + b)[i]) {
        if i < |a| { assert (a + b)[i] == a[i]; } else { assert (a + b)[i] == b[i - |a|]; }
      }
    }
    if HeaderWellFormed(a + b) {
      forall i | 0 <= i < |a| ensures !Malformed(a[i]) { assert a[i] == (a + b)[i]; }
      forall i | 0 <= i < |b| ensures !Malformed(b[i]) { assert b[i] == (a + b)[|a| + i]; }
    }
  }

  lemma {:induction false} ParentValues(parents: seq<string>)
    requires forall i :: 0 <= i < |parents| ==> IsToken(parents[i])
    ensures HeaderWellFormed(ParentLines(parents))
    ensures ValuesOf(ParentLines(parents), "parent") == parents
    ensures ValuesOf(ParentLines(parents), "tree") == []
    decreases |parents|
  {
    if parents != [] {
      var p0 := parents[0];
      var ps := ParentLines(parents);
      var tl := ParentLines(parents[1..]);
      ParentValues(parents[1..]);
      KeyValueSplit("parent", p0);
      assert ps[0] == "parent" + " " + p0;
      assert ps == [ps[0]] + tl;
      ValuesOfConcat([ps[0]], tl, "parent");
      ValuesOfConcat([ps[0]], tl, "tree");
      assert ValuesOf([ps[0]], "parent") == [p0];
      assert ValuesOf([ps[0]], "tree") == [];
      assert parents == [p0] + parents[1..];
    }
  }
}
