/** _parseObjectSha1: one object processor. For each id it receives it
    asks `git cat-file -t` for the object's kind and sends a bare Commit
    for every id of the requested kind. */
module Classifier {
  import opened Base
  import opened Text
  import opened Stages
  import opened Objects
  import opened Commits
  import CommitText

  /** Whether the runner reports the requested kind for an id: the kind
      printed, without its trailing newlines, equals the requested one. */
  predicate IsOfKind(run: Argv -> RunResult, objectType: string, sha1: string) {
    run(KindOf(sha1)).Output? && TrimTrailingNewlines(run(KindOf(sha1)).text) == objectType
  }

  /** What the processor does with one id it receives. */
  datatype Verdict =
    /** Of another kind: passed over. */
    | Skip
    /** Of the requested kind: a bare Commit is sent. */
    | Send
    /** The processor ends here, the way the outcome says. */
    | Stop(outcome: Outcome)

  /** The per-id rule: a runner failure is reported and ends the
      processor; an id of another kind is passed over; for an id of the
      requested kind the cancellation check comes first (`room` is false
      once the context is cancelled), then only "commit" is supported: a
      match for any other kind is a panic. */
  function Judge(run: Argv -> RunResult, objectType: string, sha1: string, room: bool): (v: Verdict)
    ensures v.Send? ==> room
  {
    var kind := run(KindOf(sha1));
    if kind.RunError? then Stop(Failed(CommandFailed(KindOf(sha1), kind.cause)))
    else if TrimTrailingNewlines(kind.text) != objectType then Skip
    else if !room then Stop(Done)
    else if objectType != "commit" then Stop(Panicked("obj type not yet supported"))
    else Send
  }

  /** The per-id rule case by case, in terms of what the runner reports. */
  lemma JudgeCases(run: Argv -> RunResult, objectType: string, sha1: string, room: bool)
    ensures var v := Judge(run, objectType, sha1, room);
      && (v.Send? <==> IsOfKind(run, objectType, sha1) && room && objectType == "commit")
      && (v.Skip? <==> run(KindOf(sha1)).Output? && !IsOfKind(run, objectType, sha1))
      && (v == Stop(Done) <==> IsOfKind(run, objectType, sha1) && !room)
      && (v.Stop? && v.outcome.Panicked? <==> IsOfKind(run, objectType, sha1) && room && objectType != "commit")
      && (v.Stop? && v.outcome.Failed? <==> run(KindOf(sha1)).RunError?)
  {
  }

  /** The ids one processor sends and how it ends, given the runner and the
      number of cancellation checks that still find the context live. */
  function Classified(run: Argv -> RunResult, objectType: string, sha1s: seq<string>, budget: nat): (r: Run<string>)
    ensures |r.sent| <= budget
    decreases |sha1s|
  {
    if sha1s == [] then Run([], Done)
    else
      match Judge(run, objectType, sha1s[0], budget > 0)
      case Skip => Classified(run, objectType, sha1s[1..], budget)
      case Send => Prepend([sha1s[0]], Classified(run, objectType, sha1s[1..], budget - 1))
      case Stop(o) => Run([], o)
  }

  /** The ids of the given commits. */
  function Sha1sOf(commits: seq<Commit>): (r: seq<string>)
    ensures |r| == |commits|
    ensures forall j :: 0 <= j < |r| ==> r[j] == commits[j].sha1
  {
    if commits == [] then [] else [commits[0].sha1] + Sha1sOf(commits[1..])
  }

  /** The processor's loop: the commits it sends are new, bare commits
      whose ids are what Classified sends, and the commands it runs are
      appended to the log. */
  method ParseObjectSha1(repo: Repo, objectType: string, sha1s: seq<string>, cancelAt: nat)
      returns (sent: seq<Commit>, outcome: Outcome)
    modifies repo
    ensures Run(Sha1sOf(sent), outcome) == Classified(repo.run, objectType, sha1s, cancelAt)
    ensures forall c :: c in sent ==> fresh(c) && c.tree == null && c.Fields() == CommitText.Bare
    ensures old(repo.calls) <= repo.calls
  {
    ghost var run := repo.run;
    ghost var spec := Classified(run, objectType, sha1s, cancelAt);
    ghost var ids: seq<string> := [];
    sent := [];
    var i := 0;
    while i < |sha1s|
      invariant i <= |sha1s| && |ids| <= cancelAt && ids == Sha1sOf(sent)
      invariant spec == Prepend(ids, Classified(run, objectType, sha1s[i..], cancelAt - |ids|))
      invariant forall c :: c in sent ==> fresh(c) && c.tree == null && c.Fields() == CommitText.Bare
      invariant old(repo.calls) <= repo.calls
    {
      var sha1 := sha1s[i];
      var room := |sent| < cancelAt;
      var v, c := Examine(repo, objectType, sha1s, i, cancelAt, ids, room);
      if v.Stop? {
        return sent, v.outcome;
      }
      if v.Send? {
        Sha1sOfSnoc(sent, c);
        sent, ids := sent + [c], ids + [sha1];
      }
      i := i + 1;
    }
    assert ids + [] == ids;
    return sent, Done;
  }

  /** The loop body: asks the runner for the kind of the id at index i,
      applies the per-id rule and makes the bare commit to send when the
      rule says so; `ids` are the ids sent before it. */
  method Examine(repo: Repo, objectType: string, sha1s: seq<string>, i: nat, cancelAt: nat, ghost ids: seq<string>,
                 room: bool) returns (v: Verdict, c: Commit?)
    requires i < |sha1s| && |ids| <= cancelAt && room == (|ids| < cancelAt)
    requires Classified(repo.run, objectType, sha1s, cancelAt) ==
      Prepend(ids, Classified(repo.run, objectType, sha1s[i..], cancelAt - |ids|))
    modifies repo
    ensures v == Judge(repo.run, objectType, sha1s[i], room)
    ensures v.Stop? ==> Classified(repo.run, objectType, sha1s, cancelAt) == Run(ids, v.outcome)
    ensures !v.Stop? ==>
      var next := if v.Send? then ids + [sha1s[i]] else ids;
      |next| <= cancelAt && Classified(repo.run, objectType, sha1s, cancelAt) ==
        Prepend(next, Classified(repo.run, objectType, sha1s[i + 1..], cancelAt - |next|))
    ensures v.Send? ==> c != null && fresh(c) && c.sha1 == sha1s[i] && c.tree == null && c.Fields() == CommitText.Bare
    ensures repo.calls == old(repo.calls) + [KindOf(sha1s[i])]
  {
    var sha1 := sha1s[i];
    c := null;
    var kind := repo.CmdOutput(KindOf(sha1));
    if kind.RunError? {
      v := Stop(Failed(CommandFailed(KindOf(sha1), kind.cause)));
    } else if TrimTrailingNewlines(kind.text) != objectType {
      v := Skip;
    } else if !room {
      v := Stop(Done);
    } else if objectType != "commit" {
      v := Stop(Panicked("obj type not yet supported"));
    } else {
      c := new Commit.Bare(sha1);
      v := Send;
    }
    ClassifiedNext(repo.run, objectType, sha1s, i, cancelAt, ids, room, v);
  }

  /** One step of the processor's loop, on values: given that the ids sent
      so far prefix the whole run, what the run is once the next id has
      been judged. */
  lemma ClassifiedNext(run: Argv -> RunResult, objectType: string, sha1s: seq<string>, i: nat, budget: nat,
                       ids: seq<string>, room: bool, v: Verdict)
    requires i < |sha1s| && |ids| <= budget && room == (|ids| < budget)
    requires v == Judge(run, objectType, sha1s[i], room)
    requires Classified(run, objectType, sha1s, budget) ==
      Prepend(ids, Classified(run, objectType, sha1s[i..], budget - |ids|))
    ensures v.Stop? ==> Classified(run, objectType, sha1s, budget) == Run(ids, v.outcome)
    ensures !v.Stop? ==>
      var next := if v.Send? then ids + [sha1s[i]] else ids;
      |next| <= budget && Classified(run, objectType, sha1s, budget) ==
        Prepend(next, Classified(run, objectType, sha1s[i + 1..], budget - |next|))
  {
    ClassifiedAt(run, objectType, sha1s, i, budget - |ids|);
    assert ids + [] == ids;
    if v.Send? {
      PrependPrepend(ids, [sha1s[i]], Classified(run, objectType, sha1s[i + 1..], budget - |ids| - 1));
    }
  }

  /** Classified on the ids from index i, unfolded once. */
  lemma ClassifiedAt(run: Argv -> RunResult, objectType: string, sha1s: seq<string>, i: nat, budget: nat)
    requires i < |sha1s|
    ensures match Judge(run, objectType, sha1s[i], budget > 0)
      case Skip => Classified(run, objectType, sha1s[i..], budget) == Classified(run, objectType, sha1s[i + 1..], budget)
      case Send => budget > 0 &&
        Classified(run, objectType, sha1s[i..], budget) == Prepend([sha1s[i]], Classified(run, objectType, sha1s[i + 1..], budget - 1))
      case Stop(o) => Classified(run, objectType, sha1s[i..], budget) == Run([], o)
  {
    assert sha1s[i..][1..] == sha1s[i + 1..];
  }

  lemma Sha1sOfSnoc(commits: seq<Commit>, c: Commit)
    ensures Sha1sOf(commits + [c]) == Sha1sOf(commits) + [c.sha1]
  {
  }

  /** Every id sent is one the processor received, and the runner reports
      the requested kind for it. */
  lemma {:induction false} ClassifiedSound(run: Argv -> RunResult, objectType: string, sha1s: seq<string>, budget: nat)
    ensures SentOfKind(run, objectType, sha1s, Classified(run, objectType, sha1s, budget).sent)
    decreases |sha1s|
  {
    if sha1s != [] {
      var s := sha1s[0];
      if !IsOfKind(run, objectType, s) {
        ClassifiedSound(run, objectType, sha1s[1..], budget);
        SentOfKindWider(run, objectType, sha1s, Classified(run, objectType, sha1s[1..], budget).sent);
      } else if budget > 0 && objectType == "commit" {
        var rest := Classified(run, objectType, sha1s[1..], budget - 1).sent;
        ClassifiedSound(run, objectType, sha1s[1..], budget - 1);
        SentOfKindWider(run, objectType, sha1s, rest);
        assert Classified(run, objectType, sha1s, budget).sent == [s] + rest;
      }
    }
  }

  /** Each of the ids sent is one of the ids received, of the requested kind. */
  predicate SentOfKind(run: Argv -> RunResult, objectType: string, sha1s: seq<string>, sent: seq<string>) {
    forall j :: 0 <= j < |sent| ==> sent[j] in sha1s && IsOfKind(run, objectType, sent[j])
  }

  lemma SentOfKindWider(run: Argv -> RunResult, objectType: string, sha1s: seq<string>, sent: seq<string>)
    requires sha1s != [] && SentOfKind(run, objectType, sha1s[1..], sent)
    ensures SentOfKind(run, objectType, sha1s, sent)
    ensures IsOfKind(run, objectType, sha1s[0]) ==> SentOfKind(run, objectType, sha1s, [sha1s[0]] + sent)
  {
    forall j | 0 <= j < |sent| ensures sent[j] in sha1s {
      assert sent[j] in sha1s[1..];
    }
    if IsOfKind(run, objectType, sha1s[0]) {
      var r := [sha1s[0]] + sent;
      forall j | 1 <= j < |r| ensures r[j] in sha1s && IsOfKind(run, objectType, r[j]) {
        assert r[j] == sent[j - 1];
      }
    }
  }

  /** The ids of the requested kind, in order: the reference the processor
      is compared with. */
  function OfKind(run: Argv -> RunResult, objectType: string, sha1s: seq<string>): seq<string> {
    if sha1s == [] then []
    else (if IsOfKind(run, objectType, sha1s[0]) then [sha1s[0]] else []) + OfKind(run, objectType, sha1s[1..])
  }

  /** Uncancelled, with a runner that answers for every id, a commit
      processor sends exactly the commits among the ids, in order, and ends
      without error. */
  lemma {:induction false} ClassifiedComplete(run: Argv -> RunResult, sha1s: seq<string>, live: nat)
    requires live >= |sha1s|
    requires forall j :: 0 <= j < |sha1s| ==> run(KindOf(sha1s[j])).Output?
    ensures Classified(run, "commit", sha1s, live) == Run(OfKind(run, "commit", sha1s), Done)
    decreases |sha1s|
  {
    if sha1s != [] {
      if IsOfKind(run, "commit", sha1s[0]) {
        ClassifiedComplete(run, sha1s[1..], live - 1);
      } else {
        ClassifiedComplete(run, sha1s[1..], live);
      }
    }
  }

  /** Cancelling a processor after `budget` checks: the first `budget` ids
      of its uncancelled run and a quiet stop when that run sends more, or
      when it sends exactly `budget` and then panics (the check comes
      before the panic); otherwise the uncancelled run itself. */
  lemma {:induction false} ClassifiedCancel(run: Argv -> RunResult, objectType: string, sha1s: seq<string>,
                                            budget: nat, live: nat)
    requires live >= |sha1s|
    ensures var full := Classified(run, objectType, sha1s, live);
      Classified(run, objectType, sha1s, budget) ==
        if |full.sent| == budget && full.outcome.Panicked? then Run(full.sent, Done) else Cancel(full, budget)
    decreases |sha1s|
  {
    if sha1s != [] && IsOfKind(run, objectType, sha1s[0]) && budget > 0 && objectType == "commit" {
      var s := sha1s[0];
      ClassifiedCancel(run, objectType, sha1s[1..], budget - 1, live - 1);
      CancelPrepend([s], Classified(run, objectType, sha1s[1..], live - 1), budget);
    } else if sha1s != [] && !IsOfKind(run, objectType, sha1s[0]) {
      ClassifiedCancel(run, objectType, sha1s[1..], budget, live);
    }
  }
}
