/** One line of `git cat-file -p <tree>`: a fixed-width metadata prefix
    "<mode> <kind> <sha1>" of 52 bytes, a tab at byte 52, then the name. */
module TreeListing {
  import opened Text

  /** The offset of the tab that separates metadata from the name. */
  const TabAt: nat := 52

  /** The four parts of a listing line. */
  datatype ListingLine = ListingLine(permissions: string, kind: string, sha1: string, name: string)

  /** What Tree.Instantiate makes of one line before it touches the cache. */
  datatype LineParse =
    | Parsed(entry: ListingLine)
    /** Byte 52 is not a tab: a reported format error. */
    | NoTab
    /** The line is too short to index byte 52, its metadata has fewer
        than three fields, or the kind is neither "tree" nor "blob":
        all of these are Go panics. */
    | Crash(why: string)

  function ParseLine(line: string): (r: LineParse)
    ensures r.Parsed? <==>
      |line| > TabAt && line[TabAt] == '\t' &&
      |Split(line[..TabAt], ' ')| >= 3 && Split(line[..TabAt], ' ')[1] in {"tree", "blob"}
    ensures r.NoTab? <==> |line| > TabAt && line[TabAt] != '\t'
    ensures r.Parsed? ==>
      var fields := Split(line[..TabAt], ' ');
      r.entry == ListingLine(fields[0], fields[1], fields[2], line[TabAt + 1..])
  {
    if |line| <= TabAt then Crash("index out of range")
    else if line[TabAt] != '\t' then NoTab
    else
      var fields := Split(line[..TabAt], ' ');
      if |fields| < 3 then Crash("index out of range")
      else if fields[1] != "tree" && fields[1] != "blob" then Crash("cannot reach")
      else Parsed(ListingLine(fields[0], fields[1], fields[2], line[TabAt + 1..]))
  }

  /** The metadata prefix git prints for an entry. */
  function Metadata(l: ListingLine): string {
    l.permissions + " " + l.kind + " " + l.sha1
  }

  /** The line git prints for an entry. */
  function RenderLine(l: ListingLine): string {
    Metadata(l) + "\t" + l.name
  }

  /** The entries git can print: single-token fields that fill the 52
      metadata bytes exactly (a 6-digit mode, "tree" or "blob", a 40-digit
      sha1 do), a kind Instantiate knows and a one-line name. */
  predicate Printable(l: ListingLine) {
    && ' ' !in l.permissions && ' ' !in l.kind && ' ' !in l.sha1
    && |Metadata(l)| == TabAt
    && l.kind in {"tree", "blob"}
    && '\n' !in l.name
  }

  /** Every printable entry reads back from its line unchanged. */
  lemma ParseRenderLine(l: ListingLine)
    requires Printable(l)
    ensures ParseLine(RenderLine(l)) == Parsed(l)
  {
    var line := RenderLine(l);
    var meta := Metadata(l);
    assert line[..TabAt] == meta;
    assert line[TabAt] == '\t';
    assert line[TabAt + 1..] == l.name;
    SplitJoin([l.permissions, l.kind, l.sha1], ' ');
    assert Join([l.permissions, l.kind, l.sha1], " ") == meta by {
      var ps := [l.permissions, l.kind, l.sha1];
      assert ps[1..] == [l.kind, l.sha1];
      assert ps[1..][1..] == [l.sha1];
      assert Join([l.sha1], " ") == l.sha1;
      assert Join([l.kind, l.sha1], " ") == l.kind + " " + l.sha1;
      assert Join(ps, " ") == l.permissions + " " + (l.kind + " " + l.sha1);
    }
  }
}
