/** The two fan-in stages of the discovery pipeline: one forwarding
    goroutine per input channel copies every item it receives to a shared
    output channel. Which forwarder delivers next is up to the Go
    scheduler; the model takes that choice as a schedule, the sequence of
    input indices in the order their items reach the output. */
module FanIn {

  /** How many times input `c` is chosen in the schedule. */
  function Count(schedule: seq<nat>, c: nat): (n: nat)
    ensures n <= |schedule|
  {
    if schedule == [] then 0 else (if schedule[0] == c then 1 else 0) + Count(schedule[1..], c)
  }

  /** A schedule the forwarders can follow: it only names inputs that
      exist and never takes more items from an input than it holds. */
  predicate Fits<T>(inputs: seq<seq<T>>, schedule: seq<nat>) {
    && (forall k :: 0 <= k < |schedule| ==> schedule[k] < |inputs|)
    && (forall c :: 0 <= c < |inputs| ==> Count(schedule, c) <= |inputs[c]|)
  }

  /** A schedule that runs until every input is closed and drained. */
  predicate Drains<T>(inputs: seq<seq<T>>, schedule: seq<nat>) {
    && (forall k :: 0 <= k < |schedule| ==> schedule[k] < |inputs|)
    && (forall c :: 0 <= c < |inputs| ==> Count(schedule, c) == |inputs[c]|)
  }

  /** Count on a schedule with its first choice removed. */
  lemma CountTail(schedule: seq<nat>, c: nat)
    requires schedule != []
    ensures Count(schedule, c) == Count(schedule[1..], c) + (if schedule[0] == c then 1 else 0)
  {
  }

  /** After the first choice is served, the rest of the schedule fits the
      inputs with that item taken. */
  lemma FitsTail<T>(inputs: seq<seq<T>>, schedule: seq<nat>)
    requires schedule != [] && Fits(inputs, schedule)
    ensures |inputs[schedule[0]]| > 0
    ensures Fits(inputs[schedule[0] := inputs[schedule[0]][1..]], schedule[1..])
    ensures Drains(inputs, schedule) ==> Drains(inputs[schedule[0] := inputs[schedule[0]][1..]], schedule[1..])
  {
    var c := schedule[0];
    CountTail(schedule, c);
    forall d | 0 <= d < |inputs| {
      CountTail(schedule, d);
    }
  }

  /** The output channel's items: each step forwards the next item of the
      chosen input. */
  function Interleave<T>(inputs: seq<seq<T>>, schedule: seq<nat>): (out: seq<T>)
    requires Fits(inputs, schedule)
    ensures |out| == |schedule|
    ensures forall k :: 0 <= k < |out| ==> out[k] in inputs[schedule[k]]
    decreases |schedule|
  {
    if schedule == [] then []
    else
      var c := schedule[0];
      FitsTail(inputs, schedule);
      [inputs[c][0]] + Interleave(inputs[c := inputs[c][1..]], schedule[1..])
  }

  /** All items of all inputs, with multiplicity. */
  function Union<T>(inputs: seq<seq<T>>): multiset<T> {
    if inputs == [] then multiset{} else multiset(inputs[0]) + Union(inputs[1..])
  }

  /** Taking the first item of one input leaves the rest of the union. */
  lemma {:induction false} UnionTake<T>(inputs: seq<seq<T>>, c: nat)
    requires c < |inputs| && inputs[c] != []
    ensures Union(inputs) == multiset{inputs[c][0]} + Union(inputs[c := inputs[c][1..]])
    decreases |inputs|
  {
    var updated := inputs[c := inputs[c][1..]];
    var tail := inputs[1..];
    if c == 0 {
      assert updated[1..] == tail;
      assert inputs[0] == [inputs[0][0]] + inputs[0][1..];
    } else {
      assert updated[0] == inputs[0] && updated[1..] == tail[c - 1 := tail[c - 1][1..]];
      UnionTake(tail, c - 1);
    }
  }

  /** The items the forwarder of input `c` delivered, in output order. */
  function Picks<T>(schedule: seq<nat>, out: seq<T>, c: nat): seq<T>
    requires |out| == |schedule|
  {
    if schedule == [] then []
    else (if schedule[0] == c then [out[0]] else []) + Picks(schedule[1..], out[1..], c)
  }

  /** Fan-in forwards what it receives: the output holds exactly the items
      of the inputs, each once, when the schedule drains them all. */
  lemma {:induction false} MergeIsUnion<T>(inputs: seq<seq<T>>, schedule: seq<nat>)
    requires Drains(inputs, schedule)
    ensures Fits(inputs, schedule) && multiset(Interleave(inputs, schedule)) == Union(inputs)
    decreases |schedule|
  {
    if schedule == [] {
      UnionEmpty(inputs);
    } else {
      var c := schedule[0];
      var rest := inputs[c := inputs[c][1..]];
      var x := inputs[c][0];
      FitsTail(inputs, schedule);
      MergeIsUnion(rest, schedule[1..]);
      assert Interleave(inputs, schedule) == [x] + Interleave(rest, schedule[1..]);
      UnionTake(inputs, c);
    }
  }

  /** Inputs with no items left have an empty union. */
  lemma {:induction false} UnionEmpty<T>(inputs: seq<seq<T>>)
    requires forall c :: 0 <= c < |inputs| ==> |inputs[c]| == 0
    ensures Union(inputs) == multiset{}
    decreases |inputs|
  {
    if inputs != [] {
      UnionEmpty(inputs[1..]);
    }
  }

  /** Each forwarder delivers its input's items in the order it received
      them: the first items of input `c`, as many as the schedule took. */
  lemma {:induction false} MergeKeepsOrder<T>(inputs: seq<seq<T>>, schedule: seq<nat>, c: nat)
    requires Fits(inputs, schedule) && c < |inputs|
    ensures Picks(schedule, Interleave(inputs, schedule), c) == inputs[c][..Count(schedule, c)]
    decreases |schedule|
  {
    if schedule != [] {
      var d := schedule[0];
      var rest := inputs[d := inputs[d][1..]];
      FitsTail(inputs, schedule);
      CountTail(schedule, c);
      MergeKeepsOrder(rest, schedule[1..], c);
      var out := Interleave(inputs, schedule);
      assert out[1..] == Interleave(rest, schedule[1..]);
      if d == c {
        assert inputs[c][..Count(schedule, c)] == [inputs[c][0]] + inputs[c][1..][..Count(schedule[1..], c)];
      }
    }
  }

  /** _mergeObjectSha1Chans: the loose-object ids and each pack's ids are
      forwarded to one channel, loose ids as input 0 and pack `p` as input
      `p + 1`. */
  function MergeObjectSha1s(loose: seq<string>, packs: seq<seq<string>>, schedule: seq<nat>): (out: seq<string>)
    requires Drains([loose] + packs, schedule)
    ensures multiset(out) == multiset(loose) + Union(packs)
  {
    MergeIsUnion([loose] + packs, schedule);
    assert ([loose] + packs)[1..] == packs;
    Interleave([loose] + packs, schedule)
  }

  /** _mergeProcessedObjectChans: the objects of every processor are
      forwarded to the caller's channel. */
  function MergeProcessedObjects<T>(processed: seq<seq<T>>, schedule: seq<nat>): (out: seq<T>)
    requires Drains(processed, schedule)
    ensures |out| == |schedule|
    ensures multiset(out) == Union(processed)
    ensures forall c :: 0 <= c < |processed| ==> Picks(schedule, out, c) == processed[c]
  {
    MergeIsUnion(processed, schedule);
    forall c | 0 <= c < |processed| ensures Picks(schedule, Interleave(processed, schedule), c) == processed[c] {
      MergeKeepsOrder(processed, schedule, c);
    }
    Interleave(processed, schedule)
  }
}
