/** Tree.StreamBlobPathsUnique: a depth-first walk over instantiated trees
    that reports every blob once, with its path, and records the sha1 of
    every entry it visits in a seen-set owned by the caller. Go's channel
    pair becomes the sequence of blob paths sent and a flag that is false
    when the walk panicked. */
module BlobWalk {
  import opened Base
  import opened Text
  import opened Objects

  /** The caller's map[string]bool of sha1s already seen, updated in place
      and shared by every level of the walk. */
  class SeenSet {
    var ids: set<string>

    constructor (ids: set<string>)
      ensures this.ids == ids
    {
      this.ids := ids;
    }
  }

  /** A blob and the slash-separated path it was found under. */
  datatype BlobPath = BlobPath(blob: Blob, path: string)

  /** What a walk did: the blob paths it sent in order, the seen-set after
      it, and whether it ran to its end (false: it hit an entry with no
      child or an uninstantiated child tree, both panics). */
  datatype Walk = Walk(emitted: seq<BlobPath>, seen: set<string>, ok: bool)

  /** A walk that first sent `pre`. */
  function Then(pre: seq<BlobPath>, w: Walk): Walk {
    Walk(pre + w.emitted, w.seen, w.ok)
  }

  lemma ThenThen(a: seq<BlobPath>, b: seq<BlobPath>, w: Walk)
    ensures Then(a, Then(b, w)) == Then(a + b, w)
  {
    assert a + (b + w.emitted) == (a + b) + w.emitted;
  }

  /** Every child tree of a tree in U is in U. */
  ghost predicate Closed(U: set<Tree>)
    reads U
  {
    forall t, j :: t in U && 0 <= j < |t.entries| && t.entries[j].tree.Some? ==> t.entries[j].tree.value in U
  }

  /** A blob child carries its entry's sha1, as Tree.Instantiate builds it. */
  ghost predicate BlobsNamed(U: set<Tree>)
    reads U
  {
    forall t, j :: t in U && 0 <= j < |t.entries| && t.entries[j].blob.Some? ==>
      t.entries[j].blob.value.sha1 == t.entries[j].sha1
  }

  /** The sha1s of all entries of the trees in U. */
  ghost function Ids(U: set<Tree>): set<string>
    reads U
  {
    set t, j | t in U && 0 <= j < |t.entries| :: t.entries[j].sha1
  }

  /** Marking an entry of a tree in U as seen leaves fewer ids unseen:
      the measure that bounds the walk's recursion. */
  lemma MarkShrinks(t: Tree, i: nat, U: set<Tree>, lo: set<string>, hi: set<string>)
    requires t in U && i < |t.entries| && lo <= hi
    requires t.entries[i].sha1 !in lo && t.entries[i].sha1 in hi
    ensures t.entries[i].sha1 in Ids(U)
    ensures |Ids(U) - hi| < |Ids(U) - lo|
  {
    var x := t.entries[i].sha1;
    assert x in Ids(U);
    SubsetSize(Ids(U) - hi, Ids(U) - lo);
    assert x in (Ids(U) - lo) - (Ids(U) - hi);
  }

  /** The walk over t's entries from index i on, below `path`, starting
      from the seen-set `seen`: an entry already seen is skipped, subtree
      and all; any other entry is marked seen, then a blob is sent under
      PathJoin(path, name) and a child tree is walked below that path.
      The tree child wins when both are set. A walk whose path is empty
      closes both channels when it returns, so a subtree walked below the
      empty path (an empty-named subtree of the root) leaves the caller
      to send on, or close, closed channels: the walk panics right after
      that subtree, having sent what the subtree sent. */
  ghost function WalkEntries(t: Tree, i: nat, path: string, seen: set<string>, U: set<Tree>): (w: Walk)
    requires t in U && Closed(U) && i <= |t.entries|
    reads U
    ensures seen <= w.seen
    decreases |Ids(U) - seen|, |t.entries| - i
  {
    if i == |t.entries| then Walk([], seen, true)
    else
      var e := t.entries[i];
      if e.sha1 in seen then WalkEntries(t, i + 1, path, seen, U)
      else
        var seen1 := seen + {e.sha1};
        MarkShrinks(t, i, U, seen, seen1);
        if e.tree.Some? then
          if !e.tree.value.instantiated then Walk([], seen1, false)
          else
            var sub := WalkEntries(e.tree.value, 0, PathJoin(path, e.name), seen1, U);
            if !sub.ok then sub
            else if PathJoin(path, e.name) == "" then Walk(sub.emitted, sub.seen, false)
            else
              SubsetSize(Ids(U) - sub.seen, Ids(U) - seen1);
              Then(sub.emitted, WalkEntries(t, i + 1, path, sub.seen, U))
        else if e.blob.Some? then
          Then([BlobPath(e.blob.value, PathJoin(path, e.name))], WalkEntries(t, i + 1, path, seen1, U))
        else Walk([], seen1, false)
  }

  /** _streamBlobPathsUnique: the walk of t's entries below parentPath.
      The seen-set Go's walk updates in place is threaded through the
      recursion: it comes in as `seen` and goes out as `seenAfter`. */
  method StreamBlobPathsUniqueAt(t: Tree, parentPath: string, seen: set<string>, ghost U: set<Tree>)
      returns (emitted: seq<BlobPath>, seenAfter: set<string>, ok: bool)
    requires t in U && Closed(U)
    ensures Walk(emitted, seenAfter, ok) == WalkEntries(t, 0, parentPath, seen, U)
    decreases |Ids(U) - seen|, 1
  {
    emitted, seenAfter, ok := [], seen, true;
    var i := 0;
    while i < |t.entries|
      invariant i <= |t.entries| && seen <= seenAfter
      invariant WalkEntries(t, 0, parentPath, seen, U) == Then(emitted, WalkEntries(t, i, parentPath, seenAfter, U))
    {
      SubsetSize(Ids(U) - seenAfter, Ids(U) - seen);
      var sent, seenNext, entryOk := VisitEntry(t, i, parentPath, seenAfter, U);
      ghost var pre := emitted;
      emitted, seenAfter := emitted + sent, seenNext;
      if !entryOk {
        ok := false;
        return;
      }
      ThenThen(pre, sent, WalkEntries(t, i + 1, parentPath, seenAfter, U));
      i := i + 1;
    }
    WalkEnd(t, parentPath, seenAfter, U);
    assert emitted + [] == emitted;
  }

  /** One pass of the loop over t's entries: skip the entry when its sha1
      is seen, else mark it and send its blob or walk its child tree;
      `ok` is false when the walk panicked there. */
  method VisitEntry(t: Tree, i: nat, path: string, seen: set<string>, ghost U: set<Tree>)
      returns (sent: seq<BlobPath>, seenAfter: set<string>, ok: bool)
    requires t in U && Closed(U) && i < |t.entries|
    ensures seen <= seenAfter
    ensures WalkEntries(t, i, path, seen, U) ==
      if ok then Then(sent, WalkEntries(t, i + 1, path, seenAfter, U)) else Walk(sent, seenAfter, false)
    decreases |Ids(U) - seen|, 0
  {
    var e := t.entries[i];
    if e.sha1 in seen {
      WalkSkip(t, i, path, seen, U);
      return [], seen, true;
    }
    seenAfter := seen + {e.sha1};
    if e.tree.Some? {
      var child := e.tree.value;
      if !child.instantiated {
        WalkStuck(t, i, path, seen, U);
        return [], seenAfter, false;
      }
      MarkShrinks(t, i, U, seen, seenAfter);
      sent, seenAfter, ok := StreamBlobPathsUniqueAt(child, PathJoin(path, e.name), seenAfter, U);
      if PathJoin(path, e.name) == "" {
        // that walk closed both channels as it returned
        ok := false;
      }
      WalkChild(t, i, path, seen, U);
    } else if e.blob.Some? {
      WalkBlob(t, i, path, seen, U);
      ThenThen([BlobPath(e.blob.value, PathJoin(path, e.name))], [], WalkEntries(t, i + 1, path, seenAfter, U));
      return [BlobPath(e.blob.value, PathJoin(path, e.name))], seenAfter, true;
    } else {
      WalkStuck(t, i, path, seen, U);
      return [], seenAfter, false;
    }
  }

  lemma WalkEnd(t: Tree, path: string, seen: set<string>, U: set<Tree>)
    requires t in U && Closed(U)
    ensures WalkEntries(t, |t.entries|, path, seen, U) == Walk([], seen, true)
  {
  }

  lemma WalkSkip(t: Tree, i: nat, path: string, seen: set<string>, U: set<Tree>)
    requires t in U && Closed(U) && i < |t.entries| && t.entries[i].sha1 in seen
    ensures WalkEntries(t, i, path, seen, U) == WalkEntries(t, i + 1, path, seen, U)
  {
  }

  lemma WalkStuck(t: Tree, i: nat, path: string, seen: set<string>, U: set<Tree>)
    requires t in U && Closed(U) && i < |t.entries| && t.entries[i].sha1 !in seen
    requires var e := t.entries[i]; (e.tree.Some? && !e.tree.value.instantiated) || (e.tree.None? && e.blob.None?)
    ensures WalkEntries(t, i, path, seen, U) == Walk([], seen + {t.entries[i].sha1}, false)
  {
  }

  lemma WalkBlob(t: Tree, i: nat, path: string, seen: set<string>, U: set<Tree>)
    requires t in U && Closed(U) && i < |t.entries| && t.entries[i].sha1 !in seen
    requires t.entries[i].tree.None? && t.entries[i].blob.Some?
    ensures var e := t.entries[i];
      WalkEntries(t, i, path, seen, U) ==
      Then([BlobPath(e.blob.value, PathJoin(path, e.name))], WalkEntries(t, i + 1, path, seen + {e.sha1}, U))
  {
  }

  lemma WalkChild(t: Tree, i: nat, path: string, seen: set<string>, U: set<Tree>)
    requires t in U && Closed(U) && i < |t.entries| && t.entries[i].sha1 !in seen
    requires t.entries[i].tree.Some? && t.entries[i].tree.value.instantiated
    ensures var e := t.entries[i];
      var sub := WalkEntries(e.tree.value, 0, PathJoin(path, e.name), seen + {e.sha1}, U);
      WalkEntries(t, i, path, seen, U) ==
      if !sub.ok then sub
      else if PathJoin(path, e.name) == "" then Walk(sub.emitted, sub.seen, false)
      else Then(sub.emitted, WalkEntries(t, i + 1, path, sub.seen, U))
  {
  }

  /** StreamBlobPathsUnique: the walk from a root tree, whose own path is
      "", recording what it visits in the caller's seen-set. */
  method StreamBlobPathsUnique(t: Tree, seen: SeenSet, ghost U: set<Tree>) returns (emitted: seq<BlobPath>, ok: bool)
    requires t in U && Closed(U)
    modifies seen
    ensures Walk(emitted, seen.ids, ok) == WalkEntries(t, 0, "", old(seen.ids), U)
  {
    emitted, seen.ids, ok := StreamBlobPathsUniqueAt(t, "", seen.ids, U);
  }

  /** The blobs sent are fresh: each one's sha1 was added by this walk
      (so it was not in the seen-set the walk started from), and no sha1
      is sent twice. */
  ghost predicate FreshBlobs(ps: seq<BlobPath>, lo: set<string>, hi: set<string>) {
    && (forall k :: 0 <= k < |ps| ==> ps[k].blob.sha1 in hi && ps[k].blob.sha1 !in lo)
    && (forall j, k :: 0 <= j < k < |ps| ==> ps[j].blob.sha1 != ps[k].blob.sha1)
  }

  lemma FreshConcat(a: seq<BlobPath>, b: seq<BlobPath>, lo: set<string>, mid: set<string>, hi: set<string>)
    requires FreshBlobs(a, lo, mid) && FreshBlobs(b, mid, hi) && lo <= mid <= hi
    ensures FreshBlobs(a + b, lo, hi)
  {
    var ab := a + b;
    forall j, k | 0 <= j < k < |ab| ensures ab[j].blob.sha1 != ab[k].blob.sha1 {
      if k < |a| {
        assert ab[j] == a[j] && ab[k] == a[k];
      } else if j >= |a| {
        assert ab[j] == b[j - |a|] && ab[k] == b[k - |a|];
      } else {
        assert ab[j] == a[j] && ab[k] == b[k - |a|];
      }
    }
    forall k | 0 <= k < |ab| ensures ab[k].blob.sha1 in hi && ab[k].blob.sha1 !in lo {
      if k < |a| { assert ab[k] == a[k]; } else { assert ab[k] == b[k - |a|]; }
    }
  }

  /** A walk never sends the same sha1 twice, and never one that was
      already in the seen-set when it started: the property that lets a
      caller share one seen-set across the trees of many commits. */
  lemma {:induction false} WalkFresh(t: Tree, i: nat, path: string, seen: set<string>, U: set<Tree>)
    requires t in U && Closed(U) && BlobsNamed(U) && i <= |t.entries|
    ensures var w := WalkEntries(t, i, path, seen, U); FreshBlobs(w.emitted, seen, w.seen)
    decreases |Ids(U) - seen|, |t.entries| - i, 1
  {
    if i < |t.entries| {
      var e := t.entries[i];
      if e.sha1 in seen {
        WalkSkip(t, i, path, seen, U);
        WalkFresh(t, i + 1, path, seen, U);
      } else if e.tree.Some? && e.tree.value.instantiated {
        WalkFreshChild(t, i, path, seen, U);
      } else if e.tree.None? && e.blob.Some? {
        WalkFreshBlob(t, i, path, seen, U);
      } else {
        WalkStuck(t, i, path, seen, U);
      }
    }
  }

  lemma {:induction false} WalkFreshChild(t: Tree, i: nat, path: string, seen: set<string>, U: set<Tree>)
    requires t in U && Closed(U) && BlobsNamed(U) && i < |t.entries|
    requires t.entries[i].sha1 !in seen && t.entries[i].tree.Some? && t.entries[i].tree.value.instantiated
    ensures var w := WalkEntries(t, i, path, seen, U); FreshBlobs(w.emitted, seen, w.seen)
    decreases |Ids(U) - seen|, |t.entries| - i, 0
  {
    var e := t.entries[i];
    var seen1 := seen + {e.sha1};
    MarkShrinks(t, i, U, seen, seen1);
    WalkChild(t, i, path, seen, U);
    var sub := WalkEntries(e.tree.value, 0, PathJoin(path, e.name), seen1, U);
    WalkFresh(e.tree.value, 0, PathJoin(path, e.name), seen1, U);
    if sub.ok && PathJoin(path, e.name) != "" {
      SubsetSize(Ids(U) - sub.seen, Ids(U) - seen1);
      var rest := WalkEntries(t, i + 1, path, sub.seen, U);
      WalkFresh(t, i + 1, path, sub.seen, U);
      FreshConcat(sub.emitted, rest.emitted, seen, sub.seen, rest.seen);
    }
  }

  lemma {:induction false} WalkFreshBlob(t: Tree, i: nat, path: string, seen: set<string>, U: set<Tree>)
    requires t in U && Closed(U) && BlobsNamed(U) && i < |t.entries|
    requires t.entries[i].sha1 !in seen && t.entries[i].tree.None? && t.entries[i].blob.Some?
    ensures var w := WalkEntries(t, i, path, seen, U); FreshBlobs(w.emitted, seen, w.seen)
    decreases |Ids(U) - seen|, |t.entries| - i, 0
  {
    var e := t.entries[i];
    var seen1 := seen + {e.sha1};
    MarkShrinks(t, i, U, seen, seen1);
    WalkBlob(t, i, path, seen, U);
    var rest := WalkEntries(t, i + 1, path, seen1, U);
    WalkFresh(t, i + 1, path, seen1, U);
    var bp := BlobPath(e.blob.value, PathJoin(path, e.name));
    assert FreshBlobs([bp], seen, seen1);
    FreshConcat([bp], rest.emitted, seen, seen1, rest.seen);
  }

  /** A walk that ran to its end has marked every entry it passed over as
      seen, whether it walked the entry or skipped it. */
  lemma {:induction false} WalkVisits(t: Tree, i: nat, path: string, seen: set<string>, U: set<Tree>)
    requires t in U && Closed(U) && i <= |t.entries|
    ensures var w := WalkEntries(t, i, path, seen, U);
      w.ok ==> forall j :: i <= j < |t.entries| ==> t.entries[j].sha1 in w.seen
    decreases |Ids(U) - seen|, |t.entries| - i
  {
    if i < |t.entries| {
      var e := t.entries[i];
      if e.sha1 in seen {
        WalkSkip(t, i, path, seen, U);
        WalkVisits(t, i + 1, path, seen, U);
      } else {
        var seen1 := seen + {e.sha1};
        MarkShrinks(t, i, U, seen, seen1);
        if e.tree.Some? && e.tree.value.instantiated {
          WalkChild(t, i, path, seen, U);
          var sub := WalkEntries(e.tree.value, 0, PathJoin(path, e.name), seen1, U);
          if sub.ok && PathJoin(path, e.name) != "" {
            SubsetSize(Ids(U) - sub.seen, Ids(U) - seen1);
            WalkVisits(t, i + 1, path, sub.seen, U);
          }
        } else if e.tree.None? && e.blob.Some? {
          WalkBlob(t, i, path, seen, U);
          WalkVisits(t, i + 1, path, seen1, U);
        } else {
          WalkStuck(t, i, path, seen, U);
        }
      }
    }
  }

  /** The walk marks nothing but the sha1s of entries of the trees it can
      reach. */
  lemma {:induction false} WalkSeenBound(t: Tree, i: nat, path: string, seen: set<string>, U: set<Tree>)
    requires t in U && Closed(U) && i <= |t.entries|
    ensures WalkEntries(t, i, path, seen, U).seen <= seen + Ids(U)
    decreases |Ids(U) - seen|, |t.entries| - i, 1
  {
    if i < |t.entries| {
      var e := t.entries[i];
      if e.sha1 in seen {
        WalkSkip(t, i, path, seen, U);
        WalkSeenBound(t, i + 1, path, seen, U);
      } else {
        var seen1 := seen + {e.sha1};
        MarkShrinks(t, i, U, seen, seen1);
        if e.tree.Some? && e.tree.value.instantiated {
          WalkSeenBoundChild(t, i, path, seen, U);
        } else if e.tree.None? && e.blob.Some? {
          WalkBlob(t, i, path, seen, U);
          WalkSeenBound(t, i + 1, path, seen1, U);
        } else {
          WalkStuck(t, i, path, seen, U);
        }
      }
    }
  }

  lemma {:induction false} WalkSeenBoundChild(t: Tree, i: nat, path: string, seen: set<string>, U: set<Tree>)
    requires t in U && Closed(U) && i < |t.entries|
    requires t.entries[i].sha1 !in seen && t.entries[i].tree.Some? && t.entries[i].tree.value.instantiated
    ensures WalkEntries(t, i, path, seen, U).seen <= seen + Ids(U)
    decreases |Ids(U) - seen|, |t.entries| - i, 0
  {
    var e := t.entries[i];
    var seen1 := seen + {e.sha1};
    MarkShrinks(t, i, U, seen, seen1);
    WalkChild(t, i, path, seen, U);
    var sub := WalkEntries(e.tree.value, 0, PathJoin(path, e.name), seen1, U);
    WalkSeenBound(e.tree.value, 0, PathJoin(path, e.name), seen1, U);
    if sub.ok && PathJoin(path, e.name) != "" {
      SubsetSize(Ids(U) - sub.seen, Ids(U) - seen1);
      WalkSeenBound(t, i + 1, path, sub.seen, U);
    }
  }

  /** Entries whose sha1s are all seen already are all skipped, subtrees
      included: nothing is sent and the seen-set is left as it was. */
  lemma {:induction false} WalkAllSeen(t: Tree, i: nat, path: string, seen: set<string>, U: set<Tree>)
    requires t in U && Closed(U) && i <= |t.entries|
    requires forall j :: i <= j < |t.entries| ==> t.entries[j].sha1 in seen
    ensures WalkEntries(t, i, path, seen, U) == Walk([], seen, true)
    decreases |t.entries| - i
  {
    if i < |t.entries| {
      WalkSkip(t, i, path, seen, U);
      WalkAllSeen(t, i + 1, path, seen, U);
    }
  }

  /** A root tree holding one blob entry, walked with an empty seen-set,
      sends that blob once under its bare name. */
  lemma SingleBlobWalk(t: Tree, U: set<Tree>)
    requires t in U && Closed(U)
    requires |t.entries| == 1 && t.entries[0].tree.None? && t.entries[0].blob == Some(Blob(t.entries[0].sha1))
    ensures var e := t.entries[0];
      WalkEntries(t, 0, "", {}, U) == Walk([BlobPath(Blob(e.sha1), e.name)], {e.sha1}, true)
  {
    var e := t.entries[0];
    WalkBlob(t, 0, "", {}, U);
    WalkEnd(t, "", {e.sha1}, U);
    assert [BlobPath(Blob(e.sha1), e.name)] + [] == [BlobPath(Blob(e.sha1), e.name)];
  }

  /** A root holding one instantiated subtree with an empty name: the walk
      below it runs at the empty path, closes both channels as it returns,
      and the root's own deferred close then panics. */
  lemma EmptyNameSubtreePanics(t: Tree, child: Tree, U: set<Tree>)
    requires t in U && child in U && Closed(U)
    requires |t.entries| == 1 && t.entries[0].name == "" && t.entries[0].tree == Some(child)
    requires child.instantiated && child.entries == []
    ensures WalkEntries(t, 0, "", {}, U) == Walk([], {t.entries[0].sha1}, false)
  {
    var e := t.entries[0];
    WalkChild(t, 0, "", {}, U);
    WalkEnd(child, "", {e.sha1}, U);
  }
}
