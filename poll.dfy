/**
 * wait.PollImmediate with the clock replaced by an attempt budget: the condition is called
 * once at once and then retried at most `budget` more times. Attempt `i` of a poll sees the
 * condition's verdict `vs[i]`.
 */
module Poll {
  import opened Wrappers
  import opened Errors

  /** The `(done bool, err error)` pair a poll condition returns. */
  datatype Verdict = Verdict(done: bool, err: Option<Error>)

  /** The error the poll returns (None for nil) and the number of times it called the condition. */
  datatype PollResult = PollResult(err: Option<Error>, calls: nat)

  /** A verdict that ends the poll: an error, or the condition met. */
  predicate Decisive(v: Verdict)
  {
    v.done || v.err.Some?
  }

  /**
   * The poll from attempt `i` on. An error from the condition is returned at once (it takes
   * precedence over `done`), a met condition ends the poll with nil, and when the last
   * attempt the budget allows is not decisive the poll gives up with Timeout.
   */
  function PollFrom(vs: seq<Verdict>, budget: nat, i: nat): (r: PollResult)
    requires i <= budget < |vs|
    ensures i < r.calls <= budget + 1
    ensures forall j :: i <= j < r.calls - 1 ==> !Decisive(vs[j])
    ensures Decisive(vs[r.calls - 1]) ==> r.err == vs[r.calls - 1].err
    ensures !Decisive(vs[r.calls - 1]) ==> r.calls == budget + 1 && r.err == Some(Timeout)
    decreases budget - i
  {
    if vs[i].err.Some? then PollResult(vs[i].err, i + 1)
    else if vs[i].done then PollResult(None, i + 1)
    else if i == budget then PollResult(Some(Timeout), i + 1)
    else PollFrom(vs, budget, i + 1)
  }

  /** wait.PollImmediate: the poll from the immediate first attempt on. */
  function PollImmediate(vs: seq<Verdict>, budget: nat): (r: PollResult)
    requires budget < |vs|
    ensures 1 <= r.calls <= budget + 1
    ensures forall j :: 0 <= j < r.calls - 1 ==> !Decisive(vs[j])
    ensures Decisive(vs[r.calls - 1]) ==> r.err == vs[r.calls - 1].err
    ensures !Decisive(vs[r.calls - 1]) ==> r.calls == budget + 1 && r.err == Some(Timeout)
  {
    PollFrom(vs, budget, 0)
  }

  /** The poll stops exactly at its first decisive verdict and returns that verdict's error. */
  lemma PollStopsAtFirstDecisive(vs: seq<Verdict>, budget: nat, k: nat)
    requires k <= budget < |vs|
    requires Decisive(vs[k])
    requires forall j :: 0 <= j < k ==> !Decisive(vs[j])
    ensures PollImmediate(vs, budget) == PollResult(vs[k].err, k + 1)
  {
  }

  /** With no decisive verdict within the budget, the poll makes every attempt and times out. */
  lemma PollTimesOut(vs: seq<Verdict>, budget: nat)
    requires budget < |vs|
    requires forall j :: 0 <= j <= budget ==> !Decisive(vs[j])
    ensures PollImmediate(vs, budget) == PollResult(Some(Timeout), budget + 1)
  {
  }
}
