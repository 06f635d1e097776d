/** What one stage of the discovery pipeline sends and how it ends, and
    the effect of cancelling it. A stage checks its context just before
    each send; cancellation is modelled by the number of such checks that
    still find the context live (the budget): the first check after that
    finds it done, and the stage stops quietly, reporting no error. */
module Stages {
  import opened Base

  /** The items a stage sent, in order, and how it ended. */
  datatype Run<T> = Run(sent: seq<T>, outcome: Outcome)

  /** A run that first sent `pre`. */
  function Prepend<T>(pre: seq<T>, r: Run<T>): Run<T> {
    Run(pre + r.sent, r.outcome)
  }

  /** The run a stage makes when its context is cancelled after `budget`
      checks, given the run it makes without cancellation: it sends the
      first `budget` items and stops without error when it would have
      sent more, and otherwise runs unchanged. */
  function Cancel<T>(full: Run<T>, budget: nat): (r: Run<T>)
    ensures |r.sent| <= budget || r == full
  {
    if |full.sent| > budget then Run(full.sent[..budget], Done) else full
  }

  lemma PrependPrepend<T>(a: seq<T>, b: seq<T>, r: Run<T>)
    ensures Prepend(a, Prepend(b, r)) == Prepend(a + b, r)
  {
    assert a + (b + r.sent) == (a + b) + r.sent;
  }

  /** Cancelling a run that starts with items that fit in the budget:
      they are sent, and the rest is cancelled that many checks sooner. */
  lemma CancelPrepend<T>(pre: seq<T>, full: Run<T>, budget: nat)
    requires |pre| <= budget
    ensures Cancel(Prepend(pre, full), budget) == Prepend(pre, Cancel(full, budget - |pre|))
  {
    if |full.sent| > budget - |pre| {
      assert (pre + full.sent)[..budget] == pre + full.sent[..budget - |pre|];
    }
  }
}
