/** _findPackFiles and _parsePackFile: the pack index files under
    <gitDir>/objects/pack, and the ids `git show-index` lists for each.
    The glob's result and, per pack file, what opening it, starting the
    command, reading its output and finishing report are inputs. */
module PackIndex {
  import opened Base
  import opened Text
  import opened Stages

  /** _findPackFiles over the glob's matches, in the glob's order: each
      path is sent after a cancellation check, and a done context ends
      the stage quietly. */
  method FindPackFiles(packFiles: seq<string>, cancelAt: nat) returns (sent: seq<string>)
    ensures Run(sent, Done) == Cancel(Run(packFiles, Done), cancelAt)
  {
    sent := [];
    var i := 0;
    while i < |packFiles|
      invariant i <= |packFiles| && i <= cancelAt && sent == packFiles[..i]
    {
      if i == cancelAt {
        return;
      }
      sent := sent + [packFiles[i]];
      i := i + 1;
    }
    assert sent == packFiles;
  }

  /** What the system reports for one pack index file: the first failure
      among opening it, getting the command's output pipe and starting
      the command, if any; the lines the command prints; and what waiting
      for the command, closing the file and the scanner report at the
      end. */
  datatype PackFile = PackFile(
    path: string,
    setupError: Option<string>,
    lines: seq<string>,
    waitError: Option<string>,
    closeError: Option<string>,
    scanError: Option<string>)

  /** The id on one line of `git show-index` output,
      "<offset> <sha1> (<crc32>)": the second of exactly three
      space-separated fields; no id when the line has another shape. */
  function IndexLineSha1(line: string): Option<string> {
    var fields := Split(line, ' ');
    if |fields| == 3 then Some(fields[1]) else None
  }

  /** A line yields an id exactly when it holds exactly two spaces. */
  lemma IndexLineShape(line: string)
    ensures IndexLineSha1(line).Some? <==> multiset(line)[' '] == 2
  {
    SplitCount(line, ' ');
  }

  /** A line printed from three single-token fields yields its middle one. */
  lemma IndexLineRoundTrip(offset: string, sha1: string, crc: string)
    requires ' ' !in offset && ' ' !in sha1 && ' ' !in crc
    ensures IndexLineSha1(offset + " " + sha1 + " " + crc) == Some(sha1)
  {
    var ps := [offset, sha1, crc];
    SplitJoin(ps, ' ');
    assert ps[1..] == [sha1, crc] && ps[1..][1..] == [crc];
    assert Join([crc], " ") == crc;
    assert Join([sha1, crc], " ") == sha1 + " " + crc;
    assert Join(ps, " ") == offset + " " + (sha1 + " " + crc);
    assert offset + " " + sha1 + " " + crc == offset + " " + (sha1 + " " + crc);
  }

  /** How reading one file's lines ends: with the ids sent and either no
      verdict (read to the end) or the verdict of the whole stage. */
  datatype Part = Part(sent: seq<string>, stop: Option<Outcome>)

  /** The scan over one file's lines: a line that is not three fields ends
      the stage with an error; otherwise its id is sent after a
      cancellation check. */
  function IndexLines(path: string, lines: seq<string>, budget: nat): (p: Part)
    ensures |p.sent| <= budget
    ensures p.stop.None? ==> |p.sent| == |lines|
    decreases |lines|
  {
    if lines == [] then Part([], None)
    else
      var id := IndexLineSha1(lines[0]);
      if id.None? then Part([], Some(Failed(BadIndexLine(path, lines[0]))))
      else if budget == 0 then Part([], Some(Done))
      else
        var rest := IndexLines(path, lines[1..], budget - 1);
        Part([id.value] + rest.sent, rest.stop)
  }

  /** The errors reported after a file was read: the ones present among
      wait, close and scan, in that order. */
  function FinishErrors(f: PackFile): seq<string> {
    Present([f.waitError, f.closeError, f.scanError])
  }

  function Present(errs: seq<Option<string>>): (r: seq<string>)
    ensures |r| <= |errs|
    ensures r == [] <==> forall j :: 0 <= j < |errs| ==> errs[j].None?
  {
    if errs == [] then []
    else (if errs[0].Some? then [errs[0].value] else []) + Present(errs[1..])
  }

  /** One pack processor over the pack files it receives: a setup failure
      or a failure at the end of a file is reported once and ends the
      stage, as does a malformed line; cancellation ends it quietly. */
  function PackStage(files: seq<PackFile>, budget: nat): (r: Run<string>)
    ensures |r.sent| <= budget
    decreases |files|
  {
    if files == [] then Run([], Done)
    else
      var f := files[0];
      if f.setupError.Some? then Run([], Failed(PackSetupFailed(f.path, f.setupError.value)))
      else
        var p := IndexLines(f.path, f.lines, budget);
        if p.stop.Some? then Run(p.sent, p.stop.value)
        else if FinishErrors(f) != [] then Run(p.sent, Failed(PackFinishFailed(f.path, FinishErrors(f))))
        else Prepend(p.sent, PackStage(files[1..], budget - |p.sent|))
  }

  /** A scan stops either quietly on cancellation or with the error that
      names the first line that is not three fields; every line before it
      gave an id. */
  lemma {:induction false} IndexLinesStop(path: string, lines: seq<string>, budget: nat)
    ensures var p := IndexLines(path, lines, budget);
      p.stop.Some? ==>
        p.stop.value == Done ||
        (|p.sent| < |lines| && p.stop.value == Failed(BadIndexLine(path, lines[|p.sent|])) &&
         IndexLineSha1(lines[|p.sent|]).None?)
    decreases |lines|
  {
    if lines != [] && IndexLineSha1(lines[0]).Some? && budget > 0 {
      IndexLinesStop(path, lines[1..], budget - 1);
    }
  }

  /** A pack processor never panics, and the only errors it reports are a
      setup failure, a malformed line and a non-empty set of finishing
      errors. */
  lemma {:induction false} PackStageErrors(files: seq<PackFile>, budget: nat)
    ensures var r := PackStage(files, budget);
      !r.outcome.Panicked? &&
      (r.outcome.Failed? ==>
        var e := r.outcome.error;
        e.PackSetupFailed? || e.BadIndexLine? || (e.PackFinishFailed? && e.causes != []))
    decreases |files|
  {
    if files != [] && files[0].setupError.None? {
      var f := files[0];
      var p := IndexLines(f.path, f.lines, budget);
      IndexLinesStop(f.path, f.lines, budget);
      if p.stop.None? && FinishErrors(f) == [] {
        PackStageErrors(files[1..], budget - |p.sent|);
      }
    }
  }

  /** The scanner loop over one file's output. */
  method ReadIndex(path: string, lines: seq<string>, budget: nat) returns (sent: seq<string>, stop: Option<Outcome>)
    ensures Part(sent, stop) == IndexLines(path, lines, budget)
  {
    sent := [];
    var i := 0;
    while i < |lines|
      invariant i <= |lines| && |sent| == i && i <= budget
      invariant IndexLines(path, lines, budget) ==
        var rest := IndexLines(path, lines[i..], budget - i);
        Part(sent + rest.sent, rest.stop)
    {
      var fields := Split(lines[i], ' ');
      IndexLinesNext(path, lines, i, budget, sent);
      if |fields| != 3 {
        return sent, Some(Failed(BadIndexLine(path, lines[i])));
      }
      if i == budget {
        return sent, Some(Done);
      }
      sent := sent + [fields[1]];
      i := i + 1;
    }
    assert sent + [] == sent;
    return sent, None;
  }

  /** One step of the scanner loop, on values: given the ids sent for the
      first i lines, what the scan is once line i has been split. */
  lemma IndexLinesNext(path: string, lines: seq<string>, i: nat, budget: nat, sent: seq<string>)
    requires i < |lines| && i <= budget
    requires IndexLines(path, lines, budget) ==
      var rest := IndexLines(path, lines[i..], budget - i);
      Part(sent + rest.sent, rest.stop)
    ensures var fields := Split(lines[i], ' ');
      && (|fields| != 3 ==> IndexLines(path, lines, budget) == Part(sent, Some(Failed(BadIndexLine(path, lines[i])))))
      && (|fields| == 3 && i == budget ==> IndexLines(path, lines, budget) == Part(sent, Some(Done)))
      && (|fields| == 3 && i < budget ==>
            IndexLines(path, lines, budget) ==
              var rest := IndexLines(path, lines[i + 1..], budget - (i + 1));
              Part((sent + [fields[1]]) + rest.sent, rest.stop))
  {
    assert lines[i..][1..] == lines[i + 1..];
    assert sent + [] == sent;
    var fields := Split(lines[i], ' ');
    if |fields| == 3 && i < budget {
      var rest := IndexLines(path, lines[i + 1..], budget - (i + 1));
      assert sent + ([fields[1]] + rest.sent) == (sent + [fields[1]]) + rest.sent;
    }
  }

  /** _parsePackFile: the loop over the pack files this processor receives. */
  method ParsePackFile(files: seq<PackFile>, cancelAt: nat) returns (sent: seq<string>, outcome: Outcome)
    ensures Run(sent, outcome) == PackStage(files, cancelAt)
  {
    sent := [];
    var i := 0;
    while i < |files|
      invariant i <= |files| && |sent| <= cancelAt
      invariant PackStage(files, cancelAt) == Prepend(sent, PackStage(files[i..], cancelAt - |sent|))
    {
      var f := files[i];
      PackStageAt(files, i, cancelAt, sent);
      if f.setupError.Some? {
        return sent, Failed(PackSetupFailed(f.path, f.setupError.value));
      }
      var ids, stop := ReadIndex(f.path, f.lines, cancelAt - |sent|);
      PackStageNext(files, i, cancelAt, sent, ids, stop);
      if stop.Some? {
        return sent + ids, stop.value;
      }
      var errs := FinishErrors(f);
      if errs != [] {
        return sent + ids, Failed(PackFinishFailed(f.path, errs));
      }
      sent := sent + ids;
      i := i + 1;
    }
    assert sent + [] == sent;
    return sent, Done;
  }

  /** A file that cannot be set up ends the stage where it stands. */
  lemma PackStageAt(files: seq<PackFile>, i: nat, budget: nat, sent: seq<string>)
    requires i < |files| && |sent| <= budget
    requires PackStage(files, budget) == Prepend(sent, PackStage(files[i..], budget - |sent|))
    ensures files[i].setupError.Some? ==>
      PackStage(files, budget) == Run(sent, Failed(PackSetupFailed(files[i].path, files[i].setupError.value)))
  {
    assert sent + [] == sent;
  }

  /** One step of the processor's loop, on values: given that the ids sent
      so far prefix the whole run, what the run is once the file at index i
      has been read. */
  lemma PackStageNext(files: seq<PackFile>, i: nat, budget: nat, sent: seq<string>, ids: seq<string>,
                      stop: Option<Outcome>)
    requires i < |files| && |sent| <= budget && files[i].setupError.None?
    requires PackStage(files, budget) == Prepend(sent, PackStage(files[i..], budget - |sent|))
    requires Part(ids, stop) == IndexLines(files[i].path, files[i].lines, budget - |sent|)
    ensures stop.Some? ==> PackStage(files, budget) == Run(sent + ids, stop.value)
    ensures stop.None? && FinishErrors(files[i]) != [] ==>
      PackStage(files, budget) == Run(sent + ids, Failed(PackFinishFailed(files[i].path, FinishErrors(files[i]))))
    ensures stop.None? && FinishErrors(files[i]) == [] ==>
      |sent + ids| <= budget &&
      PackStage(files, budget) == Prepend(sent + ids, PackStage(files[i + 1..], budget - |sent + ids|))
  {
    assert files[i..][1..] == files[i + 1..];
    if stop.None? && FinishErrors(files[i]) == [] {
      PrependPrepend(sent, ids, PackStage(files[i + 1..], budget - |sent| - |ids|));
    }
  }

  /** The number of lines all the files print. */
  function TotalLines(files: seq<PackFile>): nat {
    if files == [] then 0 else |files[0].lines| + TotalLines(files[1..])
  }

  /** Cancelling the scan of one file after `budget` checks: the prefix
      of what the uncancelled scan sends, then a quiet stop, or the
      uncancelled scan itself when it sends no more than the budget. */
  lemma {:induction false} IndexLinesCancel(path: string, lines: seq<string>, budget: nat, live: nat)
    requires live >= |lines|
    ensures var full := IndexLines(path, lines, live);
      |full.sent| > budget ==> IndexLines(path, lines, budget) == Part(full.sent[..budget], Some(Done))
    ensures var full := IndexLines(path, lines, live);
      |full.sent| <= budget ==> IndexLines(path, lines, budget) == full
    decreases |lines|
  {
    if lines != [] && IndexLineSha1(lines[0]).Some? && budget > 0 {
      IndexLinesCancel(path, lines[1..], budget - 1, live - 1);
      var id := IndexLineSha1(lines[0]).value;
      var rest := IndexLines(path, lines[1..], live - 1);
      if |rest.sent| > budget - 1 {
        assert ([id] + rest.sent)[..budget] == [id] + rest.sent[..budget - 1];
      }
    }
  }

  /** The run of a stage starts with what it sent from its first file. */
  lemma PackStageStarts(files: seq<PackFile>, budget: nat)
    requires files != [] && files[0].setupError.None?
    ensures var p := IndexLines(files[0].path, files[0].lines, budget);
      |p.sent| <= |PackStage(files, budget).sent| &&
      PackStage(files, budget).sent[..|p.sent|] == p.sent
  {
  }

  /** Cancelling a pack processor after `budget` checks: it sends the
      first `budget` ids of its uncancelled run and stops quietly when
      that run sends more, and otherwise runs as if never cancelled. */
  lemma {:induction false} PackCancel(files: seq<PackFile>, budget: nat, live: nat)
    requires live >= TotalLines(files)
    ensures PackStage(files, budget) == Cancel(PackStage(files, live), budget)
    decreases |files|
  {
    if files != [] && files[0].setupError.None? {
      var f := files[0];
      var full := IndexLines(f.path, f.lines, live);
      if |full.sent| > budget {
        PackCancelOver(files, budget, live);
      } else {
        IndexLinesCancel(f.path, f.lines, budget, live);
        if full.stop.None? && FinishErrors(f) == [] {
          var n := |full.sent|;
          PackCancel(files[1..], budget - n, live - n);
          CancelPrepend(full.sent, PackStage(files[1..], live - n), budget);
        }
      }
    }
  }

  /** PackCancel when the first file alone sends more than the budget. */
  lemma PackCancelOver(files: seq<PackFile>, budget: nat, live: nat)
    requires files != [] && files[0].setupError.None? && live >= |files[0].lines|
    requires |IndexLines(files[0].path, files[0].lines, live).sent| > budget
    ensures PackStage(files, budget) == Cancel(PackStage(files, live), budget)
  {
    var f := files[0];
    var full := IndexLines(f.path, f.lines, live);
    IndexLinesCancel(f.path, f.lines, budget, live);
    PackStageStarts(files, live);
    var r := PackStage(files, live).sent;
    assert r[..budget] == r[..|full.sent|][..budget];
  }

  /** Every id in the files' index lines, file by file, in order. */
  function AllIndexIds(files: seq<PackFile>): seq<string> {
    if files == [] then [] else LineIds(files[0].lines) + AllIndexIds(files[1..])
  }

  function LineIds(lines: seq<string>): seq<string> {
    if lines == [] then []
    else (if IndexLineSha1(lines[0]).Some? then [IndexLineSha1(lines[0]).value] else []) + LineIds(lines[1..])
  }

  /** Files that all set up and finish cleanly and print only well-formed
      lines: the uncancelled stage sends the id of every line, file by
      file, and ends without error. */
  lemma {:induction false} PackComplete(files: seq<PackFile>, live: nat)
    requires live >= TotalLines(files)
    requires forall j :: 0 <= j < |files| ==> Clean(files[j])
    ensures PackStage(files, live) == Run(AllIndexIds(files), Done)
    decreases |files|
  {
    if files != [] {
      var f := files[0];
      IndexLinesComplete(f.path, f.lines, live);
      PackComplete(files[1..], live - |f.lines|);
    }
  }

  /** A file that sets up and finishes without error and prints only
      three-field lines. */
  predicate Clean(f: PackFile) {
    && f.setupError.None? && f.waitError.None? && f.closeError.None? && f.scanError.None?
    && forall j :: 0 <= j < |f.lines| ==> IndexLineSha1(f.lines[j]).Some?
  }

  lemma {:induction false} IndexLinesComplete(path: string, lines: seq<string>, live: nat)
    requires live >= |lines|
    requires forall j :: 0 <= j < |lines| ==> IndexLineSha1(lines[j]).Some?
    ensures IndexLines(path, lines, live) == Part(LineIds(lines), None)
    decreases |lines|
  {
    if lines != [] {
      IndexLinesComplete(path, lines[1..], live - 1);
    }
  }
}
