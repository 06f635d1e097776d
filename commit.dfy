/** Commit: a commit object, read from `git cat-file -p` on demand, and
    the link from a commit to its root tree through the tree cache. */
module Commits {
  import opened Base
  import opened Text
  import opened CommitText
  import opened Objects

  class Commit {
    const sha1: string
    var tree: Tree?
    var treeSha1: string
    var parentSha1s: seq<string>
    var authorLine: string
    var committerLine: string
    var msg: string

    /** &Commit{sha1: sha1}: known by its sha1 alone, every other field empty. */
    constructor Bare(sha1: string)
      ensures this.sha1 == sha1 && tree == null && Fields() == CommitText.Bare
    {
      this.sha1 := sha1;
      tree := null;
      treeSha1, parentSha1s, authorLine, committerLine, msg := "", [], "", "", "";
    }

    /** The fields Instantiate assigns. */
    function Fields(): CommitFields
      reads this
    {
      CommitFields(treeSha1, parentSha1s, authorLine, committerLine, msg)
    }

    /** Runs `git cat-file -p` on the commit and reads the header and the
        message line by line. A runner failure is reported before any line
        is read. A "tree" or "parent" header line without a value is a
        panic. Otherwise the fields become Apply of the old fields and the
        lines: reading the same commit twice appends its parents twice. */
    method Instantiate(repo: Repo) returns (outcome: Outcome)
      requires sha1 != ""
      modifies this, repo
      ensures repo.calls == old(repo.calls) + [PrettyPrint(sha1)]
      ensures tree == old(tree)
      ensures repo.run(PrettyPrint(sha1)).RunError? ==>
        outcome == Failed(CommandFailed(PrettyPrint(sha1), repo.run(PrettyPrint(sha1)).cause)) &&
        Fields() == old(Fields())
      ensures repo.run(PrettyPrint(sha1)).Output? ==>
        var lines := ScanLines(repo.run(PrettyPrint(sha1)).text);
        (outcome.Done? || outcome.Panicked?) &&
        (outcome.Done? <==> HeaderWellFormed(Header(lines))) &&
        (outcome.Done? ==> Fields() == Apply(old(Fields()), lines))
    {
      var r := repo.CmdOutput(PrettyPrint(sha1));
      if r.RunError? {
        return Failed(CommandFailed(PrettyPrint(sha1), r.cause));
      }
      outcome := ReadLines(ScanLines(r.text));
    }

    /** The scanner loop of Instantiate over the output's lines. */
    method ReadLines(lines: seq<string>) returns (outcome: Outcome)
      modifies this
      ensures tree == old(tree)
      ensures outcome.Done? || outcome.Panicked?
      ensures outcome.Done? <==> HeaderWellFormed(Header(lines))
      ensures outcome.Done? ==> Fields() == Apply(old(Fields()), lines)
    {
      ghost var f0 := Fields();
      ghost var h := HeaderEnd(lines);
      var inHeader, readFirstMessageLine := true, false;
      var i := 0;
      while i < |lines|
        invariant i <= |lines|
        invariant tree == old(tree)
        invariant inHeader <==> i <= h
        invariant var k := if i <= h then i else h;
          HeaderWellFormed(lines[..k]) && Fields().(msg := f0.msg) == HeaderApplied(f0, lines[..k])
        invariant i <= h + 1 ==> msg == f0.msg && !readFirstMessageLine
        invariant i > h + 1 ==> msg == Join(lines[h + 1..i], "\n") && readFirstMessageLine
      {
        var line := lines[i];
        if inHeader {
          if Key(line) == "" {
            inHeader := false;
          } else if Malformed(line) {
            assert Header(lines)[i] == line;
            return Panicked("index out of range");
          } else {
            ReadHeaderLineAt(f0, lines, i);
          }
        } else if readFirstMessageLine {
          JoinAppend(lines[h + 1..i], line, "\n");
          assert lines[h + 1..i + 1] == lines[h + 1..i] + [line];
          msg := msg + "\n" + line;
        } else {
          assert lines[h + 1..i + 1] == [line];
          readFirstMessageLine := true;
          msg := line;
        }
        i := i + 1;
      }
      assert lines[..|lines|] == lines;
      return Done;
    }

    /** ReadHeaderLine on line i of the header, with the fields read from
        the lines before it. */
    method ReadHeaderLineAt(ghost f0: CommitFields, lines: seq<string>, i: nat)
      requires i < |lines| && !Malformed(lines[i])
      requires HeaderWellFormed(lines[..i]) && Fields().(msg := f0.msg) == HeaderApplied(f0, lines[..i])
      modifies this
      ensures HeaderWellFormed(lines[..i + 1]) && Fields().(msg := f0.msg) == HeaderApplied(f0, lines[..i + 1])
      ensures msg == old(msg) && tree == old(tree)
    {
      HeaderAppliedSnoc(f0, lines[..i], lines[i]);
      assert lines[..i + 1] == lines[..i] + [lines[i]];
      ReadHeaderLine(lines[i]);
    }

    /** The switch of Instantiate on the key of one header line. */
    method ReadHeaderLine(line: string)
      requires !Malformed(line)
      modifies this
      ensures Fields() == HeaderStep(old(Fields()), line)
      ensures tree == old(tree)
    {
      match Key(line)
      case "tree" => treeSha1 := Value(line);
      case "parent" => parentSha1s := parentSha1s + [Value(line)];
      case "author" => authorLine := line;
      case "committer" => committerLine := line;
      case _ =>
    }

    /** The message read by Instantiate. */
    function Message(): string
      reads this
    {
      msg
    }

    /** The root tree, once InstantiateTree has set it; asking before is a
        caller's error. */
    function Tree(): Tree
      requires tree != null
      reads this
    {
      tree
    }

    /** Sets the commit's root tree: the cached tree of treeSha1 when there
        is one, with no runner call and whether or not that tree is
        instantiated; otherwise a new tree, stored in the cache and in the
        commit before it is instantiated, so that it stays set even when
        instantiating it fails. A commit whose text had no "tree" line has
        no tree sha1, and asking for its tree is a panic. Calling it with
        the tree already set is a caller's error: the caller set it, with
        an earlier call. */
    method InstantiateTree(repo: Repo) returns (t: Tree?, outcome: Outcome)
      requires tree == null
      requires repo.Valid()
      modifies this, repo, repo.cache
      ensures Fields() == old(Fields())
      ensures CacheGrows(old(repo.cache.trees), repo.cache.trees)
      ensures treeSha1 == "" ==>
        outcome.Panicked? && t == null && tree == null &&
        repo.calls == old(repo.calls) && repo.cache.trees == old(repo.cache.trees)
      ensures treeSha1 != "" ==> tree != null && treeSha1 in repo.cache.trees && tree == repo.cache.trees[treeSha1]
      ensures outcome.Done? ==> t == tree
      ensures !outcome.Done? ==> t == null
      ensures treeSha1 != "" && treeSha1 in old(repo.cache.trees) ==>
        tree == old(repo.cache.trees)[treeSha1] && outcome == Done &&
        repo.calls == old(repo.calls) && repo.cache.trees == old(repo.cache.trees)
      ensures treeSha1 != "" && treeSha1 !in old(repo.cache.trees) ==>
        fresh(tree) && tree.sha1 == treeSha1 && (outcome.Done? <==> tree.instantiated) &&
        |old(repo.calls)| < |repo.calls| && repo.calls[|old(repo.calls)|] == PrettyPrint(treeSha1)
      ensures outcome.Failed? ==>
        outcome.error.InCommitTree? && outcome.error.commitSha1 == sha1 && outcome.error.treeSha1 == treeSha1
      ensures treeSha1 != "" && treeSha1 !in old(repo.cache.trees) && repo.run(PrettyPrint(treeSha1)).RunError? ==>
        outcome == Failed(InCommitTree(sha1, treeSha1, CommandFailed(PrettyPrint(treeSha1), repo.run(PrettyPrint(treeSha1)).cause))) &&
        tree.entries == [] && repo.calls == old(repo.calls) + [PrettyPrint(treeSha1)] &&
        repo.cache.trees == old(repo.cache.trees)[treeSha1 := tree]
      ensures treeSha1 != "" && treeSha1 !in old(repo.cache.trees) && repo.run(PrettyPrint(treeSha1)).Output? ==>
        ListingRead(treeSha1, [], tree.entries, ScanLines(repo.run(PrettyPrint(treeSha1)).text), repo.cache.trees,
                    Unwrapped(outcome))
      ensures forall k :: k in repo.cache.trees && k !in old(repo.cache.trees) ==> fresh(repo.cache.trees[k])
      ensures outcome.Done? ==> NewInstantiated(old(repo.cache.trees), repo.cache.trees)
    {
      if treeSha1 == "" {
        return null, Panicked("commit has no tree sha1");
      }
      var cached, has := repo.cache.Get(treeSha1);
      if has {
        tree := cached;
        return cached, Done;
      }
      var created := repo.cache.CreateIfNotPresent(treeSha1);
      tree := created;
      var o := created.Instantiate(repo);
      match o {
        case Done =>
          t, outcome := created, Done;
        case Failed(e) =>
          t, outcome := null, Failed(InCommitTree(sha1, treeSha1, e));
        case Panicked(_) =>
          t, outcome := null, o;
      }
    }
  }
}
