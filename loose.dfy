/** _findLooseObjectFiles: the walk under <gitDir>/objects that recognises
    loose object files and sends their ids. The directory walk itself is
    an input: the sequence of calls it makes to the walk function, in the
    walk's (lexical) order. */
module LooseObjects {
  import opened Base
  import opened Text
  import opened Stages

  /** One call of the walk function: a path, as its elements, and whether
      it names a directory; or a path whose file information could not be
      read, for which the walk passes no file information at all. */
  datatype Visit = Visit(path: seq<string>, isDir: bool) | Unreadable(path: seq<string>)

  /** filepath.Base of a clean path: its last element ("." for no path). */
  function BaseName(path: seq<string>): string {
    if path == [] then "." else path[|path| - 1]
  }

  /** filepath.Base(filepath.Dir(path)): the element before the last, or
      "." when there is none. */
  function ParentBaseName(path: seq<string>): string {
    if |path| < 2 then "." else path[|path| - 2]
  }

  /** The id a file path stands for: its parent directory's name followed
      by its own, when the name matches ^[0-9a-f]{38}$ and the parent's
      ^[0-9a-f]{2}$; no id otherwise. */
  function LooseId(path: seq<string>): Option<string> {
    var base := BaseName(path);
    var parent := ParentBaseName(path);
    if IsLowerHex(base, 38) && IsLowerHex(parent, 2) then Some(parent + base) else None
  }

  /** A path has an id exactly when both names match, and the id is then
      40 lower-case hex digits from which both names can be read back. */
  lemma LooseIdShape(path: seq<string>)
    ensures LooseId(path).Some? <==> IsLowerHex(BaseName(path), 38) && IsLowerHex(ParentBaseName(path), 2)
    ensures LooseId(path).Some? ==>
      var id := LooseId(path).value;
      IsLowerHex(id, 40) && id[..2] == ParentBaseName(path) && id[2..] == BaseName(path)
  {
    if LooseId(path).Some? {
      var id := LooseId(path).value;
      var parent := ParentBaseName(path);
      forall i | 0 <= i < |id| ensures IsLowerHexDigit(id[i]) {
        if i < 2 { assert id[i] == parent[i]; } else { assert id[i] == BaseName(path)[i - 2]; }
      }
    }
  }

  /** The uncancelled and cancelled stage: directories and files without
      an id are passed over, each id is sent after a cancellation check,
      a done context ends the walk without an error, and a path without
      file information is a panic (the walk function asks it whether it is
      a directory). */
  function LooseStage(visits: seq<Visit>, budget: nat): (r: Run<string>)
    ensures |r.sent| <= budget
    decreases |visits|
  {
    if visits == [] then Run([], Done)
    else match visits[0]
      case Unreadable(_) => Run([], Panicked("nil file information"))
      case Visit(path, isDir) =>
        if isDir || LooseId(path).None? then LooseStage(visits[1..], budget)
        else if budget == 0 then Run([], Done)
        else Prepend([LooseId(path).value], LooseStage(visits[1..], budget - 1))
  }

  /** The stage never reports an error: it ends normally, on cancellation
      too, or with the panic on a path without file information. */
  lemma {:induction false} LooseNeverFails(visits: seq<Visit>, budget: nat)
    ensures LooseStage(visits, budget).outcome.Done? || LooseStage(visits, budget).outcome.Panicked?
    decreases |visits|
  {
    if visits != [] && visits[0].Visit? {
      var v := visits[0];
      if v.isDir || LooseId(v.path).None? {
        LooseNeverFails(visits[1..], budget);
      } else if budget > 0 {
        LooseNeverFails(visits[1..], budget - 1);
      }
    }
  }

  /** The walk function applied to every visit in turn. */
  method FindLooseObjectFiles(visits: seq<Visit>, cancelAt: nat) returns (sent: seq<string>, outcome: Outcome)
    ensures Run(sent, outcome) == LooseStage(visits, cancelAt)
  {
    sent := [];
    var i := 0;
    while i < |visits|
      invariant i <= |visits| && |sent| <= cancelAt
      invariant LooseStage(visits, cancelAt) == Prepend(sent, LooseStage(visits[i..], cancelAt - |sent|))
    {
      LooseStageNext(visits, i, cancelAt, sent);
      match visits[i]
      case Unreadable(_) =>
        return sent, Panicked("nil file information");
      case Visit(path, isDir) =>
        if !isDir {
          var id := LooseId(path);
          if id.Some? {
            if |sent| == cancelAt {
              return sent, Done;
            }
            sent := sent + [id.value];
          }
        }
      i := i + 1;
    }
    assert sent + [] == sent;
    return sent, Done;
  }

  /** One visit of the walk, on values: given the ids sent before visit
      i, what the stage is once visit i has been examined. */
  lemma LooseStageNext(visits: seq<Visit>, i: nat, budget: nat, sent: seq<string>)
    requires i < |visits| && |sent| <= budget
    requires LooseStage(visits, budget) == Prepend(sent, LooseStage(visits[i..], budget - |sent|))
    ensures visits[i].Unreadable? ==> LooseStage(visits, budget) == Run(sent, Panicked("nil file information"))
    ensures visits[i].Visit? && (visits[i].isDir || LooseId(visits[i].path).None?) ==>
      LooseStage(visits, budget) == Prepend(sent, LooseStage(visits[i + 1..], budget - |sent|))
    ensures visits[i].Visit? && !visits[i].isDir && LooseId(visits[i].path).Some? ==>
      if |sent| == budget then LooseStage(visits, budget) == Run(sent, Done)
      else
        var next := sent + [LooseId(visits[i].path).value];
        LooseStage(visits, budget) == Prepend(next, LooseStage(visits[i + 1..], budget - |next|))
  {
    assert visits[i..][1..] == visits[i + 1..];
    assert sent + [] == sent;
    var v := visits[i];
    if v.Visit? && !v.isDir && LooseId(v.path).Some? && |sent| < budget {
      PrependPrepend(sent, [LooseId(v.path).value], LooseStage(visits[i + 1..], budget - |sent| - 1));
    }
  }

  /** Every id the stage sends is 40 lower-case hex digits. */
  lemma {:induction false} LooseSentAreIds(visits: seq<Visit>, budget: nat)
    ensures forall j :: 0 <= j < |LooseStage(visits, budget).sent| ==> IsLowerHex(LooseStage(visits, budget).sent[j], 40)
    decreases |visits|
  {
    if visits != [] && visits[0].Visit? {
      var path := visits[0].path;
      if !visits[0].isDir && LooseId(path).Some? && budget > 0 {
        LooseIdShape(path);
        LooseSentAreIds(visits[1..], budget - 1);
        var rest := LooseStage(visits[1..], budget - 1).sent;
        assert LooseStage(visits, budget).sent == [LooseId(path).value] + rest;
      } else {
        LooseSentAreIds(visits[1..], budget);
      }
    }
  }

  /** Cancelling the walk after `budget` checks sends the first `budget`
      ids of the uncancelled walk and ends without error when that walk
      sends more; otherwise the walk runs as if never cancelled. Any budget
      of at least one check per visit is no cancellation at all. */
  lemma {:induction false} LooseCancel(visits: seq<Visit>, budget: nat, live: nat)
    requires live >= |visits|
    ensures LooseStage(visits, budget) == Cancel(LooseStage(visits, live), budget)
    decreases |visits|
  {
    if visits != [] && visits[0].Visit? {
      var path := visits[0].path;
      if !visits[0].isDir && LooseId(path).Some? {
        var id := LooseId(path).value;
        LooseCancel(visits[1..], if budget == 0 then 0 else budget - 1, live - 1);
        if budget > 0 {
          CancelPrepend([id], LooseStage(visits[1..], live - 1), budget);
        }
      } else {
        LooseCancel(visits[1..], budget, live);
      }
    }
  }

  /** Uncancelled, a walk over readable paths sends the id of every file
      that has one, in walk order, and ends without error. */
  lemma {:induction false} LooseComplete(visits: seq<Visit>, live: nat)
    requires live >= |visits|
    requires forall j :: 0 <= j < |visits| ==> visits[j].Visit?
    ensures LooseStage(visits, live) == Run(AllIds(visits), Done)
    decreases |visits|
  {
    if visits != [] {
      var v := visits[0];
      if !v.isDir && LooseId(v.path).Some? {
        LooseComplete(visits[1..], live - 1);
      } else {
        LooseComplete(visits[1..], live);
      }
    }
  }

  /** The ids of the files among the visits, in order: the reference the
      stage is compared with. */
  function AllIds(visits: seq<Visit>): seq<string> {
    if visits == [] then []
    else
      var v := visits[0];
      var here := if v.Visit? && !v.isDir && LooseId(v.path).Some? then [LooseId(v.path).value] else [];
      here + AllIds(visits[1..])
  }
}
