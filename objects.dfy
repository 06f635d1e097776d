/** The object model shared by trees and entries: Blob, Entry, Tree, the
    tree cache and the repository handle that owns the cache and runs
    `git`. Go's locks are left out: each operation runs to completion. */
module Objects {
  import opened Base
  import opened Text
  import opened TreeListing

  /** A blob is known by its sha1 alone; its content is never read here. */
  datatype Blob = Blob(sha1: string)

  /** A named edge inside a tree. Tree.Instantiate sets exactly one of the
      two children when it parses a listing; Type() gives the tree child
      precedence and treats "neither" as a panic. */
  datatype Entry = Entry(sha1: string, permissions: string, name: string, tree: Option<Tree>, blob: Option<Blob>)
  {
    /** "tree" whenever the tree child is set, "blob" when only the blob
        child is; an entry with neither child is a caller's error. */
    function Type(): (r: string)
      requires tree.Some? || blob.Some?
      ensures r == "tree" <==> tree.Some?
      ensures r == "blob" <==> (tree.None? && blob.Some?)
    {
      if tree.Some? then "tree" else "blob"
    }

    /** The tree child, instantiated. Instantiating a child that already is
        makes no runner call and changes nothing; on failure the caller
        gets no tree and the failure wrapped with this entry's sha1. */
    method TreeChild(repo: Repo) returns (t: Option<Tree>, outcome: Outcome)
      requires tree.Some?
      requires repo.Valid()
      requires tree.value.instantiated || tree.value.sha1 != ""
      modifies tree.value, repo, repo.cache
      ensures outcome.Done? ==> t == tree && tree.value.instantiated
      ensures !outcome.Done? ==> t == None && !tree.value.instantiated
      ensures outcome.Failed? ==> outcome.error.InChildTree? && outcome.error.childSha1 == sha1
      ensures old(tree.value.instantiated) ==>
        outcome == Done && repo.calls == old(repo.calls) &&
        repo.cache.trees == old(repo.cache.trees) && tree.value.entries == old(tree.value.entries)
      ensures !old(tree.value.instantiated) ==>
        |old(repo.calls)| < |repo.calls| && repo.calls[|old(repo.calls)|] == PrettyPrint(tree.value.sha1)
      ensures !old(tree.value.instantiated) && repo.run(PrettyPrint(tree.value.sha1)).RunError? ==>
        outcome == Failed(InChildTree(sha1, CommandFailed(PrettyPrint(tree.value.sha1), repo.run(PrettyPrint(tree.value.sha1)).cause))) &&
        tree.value.entries == old(tree.value.entries) && repo.calls == old(repo.calls) + [PrettyPrint(tree.value.sha1)] &&
        repo.cache.trees == old(repo.cache.trees)
      ensures !old(tree.value.instantiated) && repo.run(PrettyPrint(tree.value.sha1)).Output? ==>
        ListingRead(tree.value.sha1, old(tree.value.entries), tree.value.entries,
                    ScanLines(repo.run(PrettyPrint(tree.value.sha1)).text), repo.cache.trees, Unwrapped(outcome))
      ensures CacheGrows(old(repo.cache.trees), repo.cache.trees)
      ensures forall k :: k in repo.cache.trees && k !in old(repo.cache.trees) ==> fresh(repo.cache.trees[k])
      ensures outcome.Done? ==> NewInstantiated(old(repo.cache.trees), repo.cache.trees)
    {
      var o := tree.value.Instantiate(repo);
      match o {
        case Done =>
          t, outcome := tree, Done;
        case Failed(e) =>
          t, outcome := None, Failed(InChildTree(sha1, e));
        case Panicked(why) =>
          t, outcome := None, o;
      }
    }
  }

  /** The outcome of the Tree.Instantiate behind Entry.Tree or
      Commit.InstantiateTree, which wrap its error with their own sha1s. */
  function Unwrapped(o: Outcome): Outcome {
    if o.Failed? && (o.error.InChildTree? || o.error.InCommitTree?) then Failed(o.error.inner) else o
  }

  /** Every key of the old cache is still there, bound to the same tree. */
  ghost predicate CacheGrows(before: map<string, Tree>, after: map<string, Tree>) {
    forall k :: k in before ==> k in after && after[k] == before[k]
  }

  /** Every tree cached under a key that `before` lacks is instantiated:
      what a pass that ended normally leaves behind, since each child it
      created was instantiated before the pass went on to the next line. */
  ghost predicate NewInstantiated(before: map<string, Tree>, after: map<string, Tree>)
    reads after.Values
  {
    forall k :: k in after && k !in before ==> after[k].instantiated
  }

  /** A stored entry is what Tree.Instantiate builds from a listing line:
      the line's sha1, mode and name; for a "tree" line the cached tree of
      that sha1 and no blob; for a "blob" line an uninstantiated Blob of
      that sha1 and no tree. */
  ghost predicate Resolved(e: Entry, line: string, trees: map<string, Tree>) {
    ParseLine(line).Parsed? &&
    var l := ParseLine(line).entry;
    && e.sha1 == l.sha1 && e.permissions == l.permissions && e.name == l.name
    && (l.kind == "tree" ==> l.sha1 in trees && e.tree == Some(trees[l.sha1]) && e.blob.None?)
    && (l.kind == "blob" ==> e.tree.None? && e.blob == Some(Blob(l.sha1)))
  }

  lemma ResolvedStays(e: Entry, line: string, a: map<string, Tree>, b: map<string, Tree>)
    requires Resolved(e, line, a) && CacheGrows(a, b)
    ensures Resolved(e, line, b)
  {
  }

  /** How a pass over a listing that did not finish ended at line `line`:
      no tab is a reported format error, a crash is a panic, and a
      well-formed line stops the pass only when it names a child tree whose
      own instantiation failed or panicked. */
  ghost predicate StoppedAt(sha1: string, line: string, outcome: Outcome) {
    match ParseLine(line)
    case NoTab => outcome == Failed(NoTabAt52(sha1, line))
    case Crash(_) => outcome.Panicked?
    case Parsed(l) =>
      l.kind == "tree" &&
      (outcome.Panicked? || (outcome.Failed? && outcome.error.InChildTree? && outcome.error.childSha1 == l.sha1))
  }

  class Tree {
    const sha1: string
    var entries: seq<Entry>
    var instantiated: bool

    /** &Tree{sha1: sha1}: no entries, not instantiated. */
    constructor (sha1: string)
      ensures this.sha1 == sha1 && entries == [] && !instantiated
    {
      this.sha1 := sha1;
      entries := [];
      instantiated := false;
    }

    /** Reads the listing and appends one entry per line, resolving child
        trees through the cache. Guarded by `instantiated`: a second call
        returns at once, with no runner call and nothing changed. The flag
        is set only once every line has been read; a pass that stops early
        keeps the entries it appended. */
    method Instantiate(repo: Repo) returns (outcome: Outcome)
      requires repo.Valid()
      requires instantiated || sha1 != ""
      modifies this, repo, repo.cache
      decreases |repo.objects - repo.cache.trees.Keys|, if sha1 in repo.objects then 5 else 0
      ensures CacheGrows(old(repo.cache.trees), repo.cache.trees)
      ensures |old(repo.calls)| <= |repo.calls| && repo.calls[..|old(repo.calls)|] == old(repo.calls)
      ensures instantiated <==> outcome.Done?
      ensures old(instantiated) ==>
        outcome == Done && entries == old(entries) &&
        repo.calls == old(repo.calls) && repo.cache.trees == old(repo.cache.trees)
      ensures !old(instantiated) ==>
        |old(repo.calls)| < |repo.calls| && repo.calls[|old(repo.calls)|] == PrettyPrint(sha1)
      ensures !old(instantiated) && repo.run(PrettyPrint(sha1)).RunError? ==>
        outcome == Failed(CommandFailed(PrettyPrint(sha1), repo.run(PrettyPrint(sha1)).cause)) &&
        entries == old(entries) && repo.calls == old(repo.calls) + [PrettyPrint(sha1)] &&
        repo.cache.trees == old(repo.cache.trees)
      ensures !old(instantiated) && repo.run(PrettyPrint(sha1)).Output? ==>
        ListingRead(sha1, old(entries), entries, ScanLines(repo.run(PrettyPrint(sha1)).text), repo.cache.trees, outcome)
      ensures forall k :: k in repo.cache.trees && k !in old(repo.cache.trees) ==> fresh(repo.cache.trees[k])
      ensures outcome.Done? ==> NewInstantiated(old(repo.cache.trees), repo.cache.trees)
    {
      if instantiated {
        return Done;
      }
      var r := repo.CmdOutput(PrettyPrint(sha1));
      if r.RunError? {
        return Failed(CommandFailed(PrettyPrint(sha1), r.cause));
      }
      assert sha1 in repo.objects;
      ghost var c1 := repo.calls;
      outcome := ReadListing(repo, ScanLines(r.text));
      assert repo.calls[..|old(repo.calls)|] == c1[..|old(repo.calls)|];
      assert repo.calls[|old(repo.calls)|] == c1[|old(repo.calls)|];
    }

    /** The loop of Instantiate over the listing's lines. */
    method ReadListing(repo: Repo, lines: seq<string>) returns (outcome: Outcome)
      requires repo.Valid()
      requires !instantiated && sha1 in repo.objects
      modifies this, repo, repo.cache
      decreases |repo.objects - repo.cache.trees.Keys|, 4
      ensures CacheGrows(old(repo.cache.trees), repo.cache.trees)
      ensures |old(repo.calls)| <= |repo.calls| && repo.calls[..|old(repo.calls)|] == old(repo.calls)
      ensures instantiated <==> outcome.Done?
      ensures ListingRead(sha1, old(entries), entries, lines, repo.cache.trees, outcome)
      ensures forall k :: k in repo.cache.trees && k !in old(repo.cache.trees) ==> fresh(repo.cache.trees[k])
      ensures outcome.Done? ==> NewInstantiated(old(repo.cache.trees), repo.cache.trees)
    {
      ghost var e0 := entries;
      ghost var t0 := repo.cache.trees;
      ghost var c0 := repo.calls;
      var i := 0;
      while i < |lines|
        invariant 0 <= i <= |lines|
        invariant |entries| == |e0| + i
        invariant ReadSoFar(e0, entries, lines, repo.cache.trees)
        invariant CacheGrows(t0, repo.cache.trees)
        invariant !instantiated
        invariant |c0| <= |repo.calls| && repo.calls[..|c0|] == c0
        invariant forall k :: k in repo.cache.trees && k !in t0 ==> fresh(repo.cache.trees[k])
        invariant NewInstantiated(t0, repo.cache.trees)
      {
        ghost var before := repo.cache.trees;
        ghost var callsBefore := repo.calls;
        assert t0.Keys <= before.Keys;
        SubsetSize(repo.objects - before.Keys, repo.objects - t0.Keys);
        outcome := ReadNext(repo, lines, i, e0, t0);
        assert repo.calls[..|c0|] == callsBefore[..|c0|];
        if !outcome.Done? {
          return;
        }
        i := i + 1;
      }
      instantiated := true;
      outcome := Done;
      ListingFinished(sha1, e0, entries, lines, repo.cache.trees);
    }

    /** One pass of ReadListing's loop: ReadLine on line i, given that the
        entries after `e0` were resolved from the lines before it. A line
        that adds its entry extends that to line i; any other ends the pass
        there. Of the trees cached since the loop began (the keys `t0`
        lacks), none is this tree, and while every line so far was read,
        all of them are instantiated. */
    method ReadNext(repo: Repo, lines: seq<string>, i: nat, ghost e0: seq<Entry>, ghost t0: map<string, Tree>)
        returns (outcome: Outcome)
      requires repo.Valid()
      requires !instantiated
      requires i < |lines| && |entries| == |e0| + i && ReadSoFar(e0, entries, lines, repo.cache.trees)
      requires forall k :: k in repo.cache.trees && k !in t0 ==> repo.cache.trees[k] != this
      requires NewInstantiated(t0, repo.cache.trees)
      modifies this, repo, repo.cache
      decreases |repo.objects - repo.cache.trees.Keys|, 3
      ensures CacheGrows(old(repo.cache.trees), repo.cache.trees)
      ensures |old(repo.calls)| <= |repo.calls| && repo.calls[..|old(repo.calls)|] == old(repo.calls)
      ensures !instantiated
      ensures outcome.Done? ==> |entries| == |e0| + i + 1 && ReadSoFar(e0, entries, lines, repo.cache.trees)
      ensures !outcome.Done? ==> ListingRead(sha1, e0, entries, lines, repo.cache.trees, outcome)
      ensures forall k :: k in repo.cache.trees && k !in old(repo.cache.trees) ==> fresh(repo.cache.trees[k])
      ensures forall k :: k in repo.cache.trees && k !in t0 ==> repo.cache.trees[k] != this
      ensures outcome.Done? ==> NewInstantiated(t0, repo.cache.trees)
    {
      ghost var before := repo.cache.trees;
      ghost var entriesBefore := entries;
      outcome := ReadLine(repo, lines[i]);
      ReadSoFarStays(e0, entriesBefore, lines, before, repo.cache.trees);
      if !outcome.Done? {
        ListingStopped(sha1, e0, entries, lines, i, repo.cache.trees, outcome);
        return;
      }
      ReadSoFarStep(e0, entriesBefore, entries, lines, i, repo.cache.trees);
    }

    /** One line of the listing: a format error, a panic, a failing child,
        or one more entry appended. */
    method ReadLine(repo: Repo, line: string) returns (outcome: Outcome)
      requires repo.Valid()
      requires !instantiated
      modifies this, repo, repo.cache
      decreases |repo.objects - repo.cache.trees.Keys|, 2
      ensures CacheGrows(old(repo.cache.trees), repo.cache.trees)
      ensures |old(repo.calls)| <= |repo.calls| && repo.calls[..|old(repo.calls)|] == old(repo.calls)
      ensures !instantiated
      ensures outcome.Done? ==>
        |entries| == |old(entries)| + 1 && entries[..|old(entries)|] == old(entries) &&
        Resolved(entries[|old(entries)|], line, repo.cache.trees)
      ensures !outcome.Done? ==> entries == old(entries) && StoppedAt(sha1, line, outcome)
      ensures forall k :: k in repo.cache.trees && k !in old(repo.cache.trees) ==> fresh(repo.cache.trees[k])
      ensures outcome.Done? ==> NewInstantiated(old(repo.cache.trees), repo.cache.trees)
    {
      var p := ParseLine(line);
      if p.NoTab? {
        return Failed(NoTabAt52(sha1, line));
      }
      if p.Crash? {
        return Panicked(p.why);
      }
      var l := p.entry;
      var entry: Entry;
      if l.kind == "tree" {
        var child, o := ResolveChild(repo, l.sha1);
        if !o.Done? {
          return o;
        }
        entry := Entry(l.sha1, l.permissions, l.name, Some(child), None);
      } else {
        entry := Entry(l.sha1, l.permissions, l.name, None, Some(Blob(l.sha1)));
      }
      entries := entries + [entry];
      return Done;
    }
  }

  /** What one pass over a listing did to a tree's entries: it kept the old
      ones and appended one resolved entry per line read; it read every
      line exactly when it ended normally, and otherwise stopped at the
      first line it could not take. */
  ghost predicate ListingRead(sha1: string, before: seq<Entry>, after: seq<Entry>, lines: seq<string>,
                              trees: map<string, Tree>, outcome: Outcome) {
    && ReadSoFar(before, after, lines, trees)
    && (outcome.Done? <==> |after| == |before| + |lines|)
    && (!outcome.Done? ==> |after| < |before| + |lines| && StoppedAt(sha1, lines[|after| - |before|], outcome))
  }

  lemma ListingStopped(sha1: string, before: seq<Entry>, after: seq<Entry>, lines: seq<string>, i: nat,
                       trees: map<string, Tree>, outcome: Outcome)
    requires ReadSoFar(before, after, lines, trees) && i < |lines| && |after| == |before| + i
    requires !outcome.Done? && StoppedAt(sha1, lines[i], outcome)
    ensures ListingRead(sha1, before, after, lines, trees, outcome)
  {
  }

  lemma ListingFinished(sha1: string, before: seq<Entry>, after: seq<Entry>, lines: seq<string>,
                        trees: map<string, Tree>)
    requires ReadSoFar(before, after, lines, trees) && |after| == |before| + |lines|
    ensures ListingRead(sha1, before, after, lines, trees, Done)
  {
  }

  /** The entries after `before` are resolved from the first lines, one each. */
  ghost predicate ReadSoFar(before: seq<Entry>, after: seq<Entry>, lines: seq<string>, trees: map<string, Tree>) {
    && |before| <= |after| <= |before| + |lines| && after[..|before|] == before
    && forall j :: |before| <= j < |after| ==> Resolved(after[j], lines[j - |before|], trees)
  }

  lemma ReadSoFarStays(before: seq<Entry>, after: seq<Entry>, lines: seq<string>,
                       a: map<string, Tree>, b: map<string, Tree>)
    requires ReadSoFar(before, after, lines, a) && CacheGrows(a, b)
    ensures ReadSoFar(before, after, lines, b)
  {
    forall j | |before| <= j < |after| ensures Resolved(after[j], lines[j - |before|], b) {
      ResolvedStays(after[j], lines[j - |before|], a, b);
    }
  }

  lemma ReadSoFarStep(before: seq<Entry>, mid: seq<Entry>, after: seq<Entry>, lines: seq<string>, i: nat,
                      trees: map<string, Tree>)
    requires ReadSoFar(before, mid, lines, trees) && i < |lines| && |mid| == |before| + i
    requires |after| == |mid| + 1 && after[..|mid|] == mid
    requires Resolved(after[|mid|], lines[i], trees)
    ensures ReadSoFar(before, after, lines, trees)
  {
    assert after[..|before|] == mid[..|before|];
    forall j | |before| <= j < |after| ensures Resolved(after[j], lines[j - |before|], trees) {
      if j < |mid| { assert after[j] == mid[j]; }
    }
  }

  /** The child tree for a "tree" line: the cached tree when there is one,
      untouched and uninstantiated or not; otherwise a new tree for the id,
      stored in the cache before it is instantiated. */
  method ResolveChild(repo: Repo, id: string) returns (child: Tree, outcome: Outcome)
    requires repo.Valid()
    modifies repo, repo.cache
    decreases |repo.objects - repo.cache.trees.Keys|, 1
    ensures CacheGrows(old(repo.cache.trees), repo.cache.trees)
    ensures |old(repo.calls)| <= |repo.calls| && repo.calls[..|old(repo.calls)|] == old(repo.calls)
    ensures id in repo.cache.trees && child == repo.cache.trees[id]
    ensures id in old(repo.cache.trees) ==>
      child == old(repo.cache.trees)[id] && outcome == Done &&
      repo.cache.trees == old(repo.cache.trees) && repo.calls == old(repo.calls)
    ensures id !in old(repo.cache.trees) ==>
      fresh(child) && child.sha1 == id && (outcome.Done? <==> child.instantiated)
    ensures id == "" && id !in old(repo.cache.trees) ==> outcome.Panicked?
    ensures outcome.Failed? ==> outcome.error.InChildTree? && outcome.error.childSha1 == id
    ensures forall k :: k in repo.cache.trees && k !in old(repo.cache.trees) ==> fresh(repo.cache.trees[k])
    ensures outcome.Done? ==> NewInstantiated(old(repo.cache.trees), repo.cache.trees)
  {
    var found, has := repo.cache.Get(id);
    if has {
      return found, Done;
    }
    ghost var before := repo.cache.trees;
    child := new Tree(id);
    repo.cache.Set(id, child);
    if id == "" {
      return child, Panicked("Instantiate called on Tree that has no sha1");
    }
    assert id !in before;
    assert repo.cache.trees.Keys == before.Keys + {id};
    PendingShrinks(repo.objects, before.Keys, before.Keys, id);
    var o := child.Instantiate(repo);
    if o.Failed? {
      outcome := Failed(InChildTree(id, o.error));
    } else {
      outcome := o;
    }
  }

  /** Adding a pending id to the cache leaves fewer ids pending than there
      were when the caller started. */
  lemma PendingShrinks(objects: set<string>, k0: set<string>, k: set<string>, id: string)
    requires k0 <= k && id !in k
    ensures id in objects ==> |objects - (k + {id})| < |objects - k0|
    ensures |objects - (k + {id})| <= |objects - k0|
  {
    var a := objects - (k + {id});
    var b := objects - k0;
    SubsetSize(a, b);
    if id in objects {
      assert id in b && id !in a;
    }
  }

  /** A subset is no larger, and a proper subset is smaller. */
  lemma {:induction false} SubsetSize<T>(a: set<T>, b: set<T>)
    requires a <= b
    ensures |a| <= |b|
    ensures a < b ==> |a| < |b|
  {
    if a == {} {
      if a < b {
        var y :| y in b;
      }
    } else {
      var x :| x in a;
      SubsetSize(a - {x}, b - {x});
      assert a - {x} < b - {x} <== a < b;
    }
  }

  /** The per-repository cache: sha1 to Tree, never evicting. */
  class TreeCache {
    var trees: map<string, Tree>

    /** NewTreeCache: an empty cache. */
    constructor ()
      ensures trees == map[]
    {
      trees := map[];
    }

    method Has(sha1: string) returns (has: bool)
      ensures has <==> sha1 in trees
    {
      has := sha1 in trees;
    }

    /** The stored tree and true when the key is present; no tree and
        false otherwise. */
    method Get(sha1: string) returns (tree: Tree?, has: bool)
      ensures has <==> sha1 in trees
      ensures has ==> tree == trees[sha1]
      ensures !has ==> tree == null
    {
      if sha1 in trees {
        tree, has := trees[sha1], true;
      } else {
        tree, has := null, false;
      }
    }

    /** Binds the key to the tree, replacing any earlier tree; the key is
        not compared with the tree's own sha1. */
    method Set(sha1: string, tree: Tree)
      modifies this
      ensures trees == old(trees)[sha1 := tree]
      ensures CacheGrows(old(trees) - {sha1}, trees)
    {
      trees := trees[sha1 := tree];
    }

    /** The stored tree when the key is present, leaving the cache as it
        was; otherwise a new, empty, uninstantiated tree for the key,
        stored under it and returned. */
    method CreateIfNotPresent(sha1: string) returns (tree: Tree)
      modifies this
      ensures CacheGrows(old(trees), trees)
      ensures sha1 in old(trees) ==> tree == old(trees)[sha1] && trees == old(trees)
      ensures sha1 !in old(trees) ==>
        fresh(tree) && tree.sha1 == sha1 && tree.entries == [] && !tree.instantiated &&
        trees == old(trees)[sha1 := tree]
    {
      if sha1 in trees {
        tree := trees[sha1];
      } else {
        tree := new Tree(sha1);
        trees := trees[sha1 := tree];
      }
    }
  }

  /** A handle on one repository: the command runner (an oracle from
      argument vectors to results), the tree cache, and a record of the
      commands run so far. `objects` is the finite set of ids the store
      holds; pretty-printing any other id fails. */
  class Repo {
    const run: Argv -> RunResult
    ghost const objects: set<string>
    const cache: TreeCache
    ghost var calls: seq<Argv>

    ghost predicate Valid() {
      forall id :: id !in objects ==> run(PrettyPrint(id)).RunError?
    }

    constructor (run: Argv -> RunResult, ghost objects: set<string>)
      requires forall id :: id !in objects ==> run(PrettyPrint(id)).RunError?
      ensures Valid() && this.run == run && this.objects == objects
      ensures fresh(cache) && cache.trees == map[] && calls == []
    {
      this.run := run;
      this.objects := objects;
      cache := new TreeCache();
      calls := [];
    }

    /** CmdOutput: runs `git` with the arguments and records the call. */
    method CmdOutput(argv: Argv) returns (r: RunResult)
      requires |argv| > 0
      modifies this
      ensures r == run(argv) && calls == old(calls) + [argv]
    {
      r := run(argv);
      calls := calls + [argv];
    }
  }
}
