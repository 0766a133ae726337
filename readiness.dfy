/**
 * The readiness gate the leadership callback waits on: first the API server must answer
 * /healthz with 200 OK, then system:kube-controller-manager must be allowed to get
 * configmaps in openshift-kube-controller-manager. The two conditions treat a failed
 * request differently: the health check reads it as "not ready yet", the authorization
 * check aborts the wait with it.
 */
module Readiness {
  import opened Wrappers
  import opened Errors
  import opened Poll

  const StatusOK: int := 200

  /** Retries after the immediate attempt: 5 minutes at a 1 second interval. */
  const HealthBudget: nat := 300
  /** Retries after the immediate attempt: 2 minutes at a 1 second interval. */
  const AuthBudget: nat := 120

  /** One GET of /healthz: the status code it stored (0 when the request itself failed)
      and the raw response body. */
  datatype HealthProbe = HealthProbe(status: int, body: string)

  /** One SubjectAccessReview create call: a request error, or the review's decision. */
  datatype AuthProbe = RequestFailed(cause: Error) | Reviewed(allowed: bool)

  /** The health condition's decision: never an error; done exactly on 200. */
  function HealthCondition(p: HealthProbe): (v: Verdict)
    ensures v.err == None
    ensures v.done <==> p.status == StatusOK
  {
    if p.status != StatusOK then Verdict(false, None) else Verdict(true, None)
  }

  /** The authorization condition: a request error is returned as the condition's error,
      a denial means "not yet", an allowed review means done. */
  function AuthCondition(p: AuthProbe): (v: Verdict)
    ensures p.RequestFailed? ==> v == Verdict(false, Some(p.cause))
    ensures p.Reviewed? ==> v.err == None && (v.done <==> p.allowed)
  {
    match p
    case RequestFailed(e) => Verdict(false, Some(e))
    case Reviewed(allowed) => if !allowed then Verdict(false, None) else Verdict(true, None)
  }

  function HealthVerdicts(probes: seq<HealthProbe>): (vs: seq<Verdict>)
    ensures |vs| == |probes|
    ensures forall i :: 0 <= i < |probes| ==> vs[i] == HealthCondition(probes[i])
  {
    seq(|probes|, i requires 0 <= i < |probes| => HealthCondition(probes[i]))
  }

  function AuthVerdicts(probes: seq<AuthProbe>): (vs: seq<Verdict>)
    ensures |vs| == |probes|
    ensures forall i :: 0 <= i < |probes| ==> vs[i] == AuthCondition(probes[i])
  {
    seq(|probes|, i requires 0 <= i < |probes| => AuthCondition(probes[i]))
  }

  /** The poll inside WaitForHealthyAPIServer. */
  function HealthPoll(probes: seq<HealthProbe>, budget: nat): PollResult
    requires budget < |probes|
  {
    PollImmediate(HealthVerdicts(probes), budget)
  }

  /** The poll inside WaitForAuthorizationUpdate. */
  function AuthPoll(probes: seq<AuthProbe>, budget: nat): PollResult
    requires budget < |probes|
  {
    PollImmediate(AuthVerdicts(probes), budget)
  }

  /**
   * WaitForHealthyAPIServer: poll /healthz until it answers 200. The condition records the
   * body only on the attempt that succeeds, so the body in a failure message is always the
   * empty string it started as.
   */
  method WaitForHealthyAPIServer(probes: seq<HealthProbe>, budget: nat) returns (err: Option<Error>, calls: nat)
    requires budget < |probes|
    ensures calls == HealthPoll(probes, budget).calls
    ensures err.None? <==> HealthPoll(probes, budget).err.None?
    ensures err.Some? ==> err == Some(Unhealthy("", Timeout))
    ensures err.Some? ==> Message(err.value) == UnhealthyPrefix + ": " + TimeoutText
  {
    ghost var vs := HealthVerdicts(probes);
    var healthzContent := "";
    var pollErr: Option<Error> := None;
    var attempt := 0;
    var finished := false;
    calls := 0;
    while !finished
      invariant attempt <= budget
      invariant !finished ==> healthzContent == "" && pollErr == None
      invariant !finished ==> PollFrom(vs, budget, attempt) == PollImmediate(vs, budget)
      invariant finished ==> PollResult(pollErr, calls) == PollImmediate(vs, budget)
      invariant finished && pollErr.Some? ==> healthzContent == "" && pollErr == Some(Timeout)
      decreases budget - attempt, !finished
    {
      // the condition closure: its decision, and the body it records when it succeeds
      var probe := probes[attempt];
      var v := HealthCondition(probe);
      if v.done {
        healthzContent := probe.body;
      }
      calls := attempt + 1;
      if v.done {
        finished := true;
      } else if attempt == budget {
        pollErr := Some(Timeout);
        finished := true;
      } else {
        attempt := attempt + 1;
      }
    }
    if pollErr.Some? {
      err := Some(Unhealthy(healthzContent, pollErr.value));
      assert Message(err.value) == UnhealthyPrefix + "" + ": " + TimeoutText;
    } else {
      err := None;
    }
  }

  /**
   * WaitForAuthorizationUpdate: poll SubjectAccessReviews until the review is allowed. A
   * request error ends the poll at once; the poll's error is wrapped as MissingRbac.
   */
  method WaitForAuthorizationUpdate(probes: seq<AuthProbe>, budget: nat) returns (err: Option<Error>, calls: nat)
    requires budget < |probes|
    ensures calls == AuthPoll(probes, budget).calls
    ensures err == match AuthPoll(probes, budget).err
                   case None => None
                   case Some(cause) => Some(MissingRbac(cause))
  {
    ghost var vs := AuthVerdicts(probes);
    var pollErr: Option<Error> := None;
    var attempt := 0;
    var finished := false;
    calls := 0;
    while !finished
      invariant attempt <= budget
      invariant !finished ==> pollErr == None
      invariant !finished ==> PollFrom(vs, budget, attempt) == PollImmediate(vs, budget)
      invariant finished ==> PollResult(pollErr, calls) == PollImmediate(vs, budget)
      decreases budget - attempt, !finished
    {
      var v := AuthCondition(probes[attempt]);
      calls := attempt + 1;
      if v.err.Some? {
        pollErr := v.err;
        finished := true;
      } else if v.done {
        finished := true;
      } else if attempt == budget {
        pollErr := Some(Timeout);
        finished := true;
      } else {
        attempt := attempt + 1;
      }
    }
    if pollErr.Some? {
      err := Some(MissingRbac(pollErr.value));
    } else {
      err := None;
    }
  }

  /** The health wait fails exactly when no probe within the budget answered 200, and then
      only by timing out after using the whole budget. */
  lemma HealthWaitFailsOnlyOnTimeout(probes: seq<HealthProbe>, budget: nat)
    requires budget < |probes|
    ensures HealthPoll(probes, budget).err.Some? <==> forall j :: 0 <= j <= budget ==> probes[j].status != StatusOK
    ensures HealthPoll(probes, budget).err.Some? ==> HealthPoll(probes, budget) == PollResult(Some(Timeout), budget + 1)
  {
  }

  /** The health wait succeeds on the first probe that answers 200, after exactly that many
      calls, however many failed or non-200 probes came before it. */
  lemma HealthWaitSucceedsAtFirstOK(probes: seq<HealthProbe>, budget: nat, k: nat)
    requires k <= budget < |probes|
    requires probes[k].status == StatusOK
    requires forall j :: 0 <= j < k ==> probes[j].status != StatusOK
    ensures HealthPoll(probes, budget) == PollResult(None, k + 1)
  {
  }

  /** K denials followed by an allowed review, within the budget: success after K + 1 calls. */
  lemma AuthWaitSucceedsAfterDenials(probes: seq<AuthProbe>, budget: nat, k: nat)
    requires k <= budget < |probes|
    requires forall j :: 0 <= j < k ==> probes[j] == Reviewed(false)
    requires probes[k] == Reviewed(true)
    ensures AuthPoll(probes, budget) == PollResult(None, k + 1)
  {
  }

  /** A request error after K denials ends the wait on that call, with that error. */
  lemma AuthWaitAbortsOnRequestError(probes: seq<AuthProbe>, budget: nat, k: nat)
    requires k <= budget < |probes|
    requires forall j :: 0 <= j < k ==> probes[j] == Reviewed(false)
    requires probes[k].RequestFailed?
    ensures AuthPoll(probes, budget) == PollResult(Some(probes[k].cause), k + 1)
  {
  }

  /** Denied on every attempt the budget allows: the wait times out after budget + 1 calls. */
  lemma AuthWaitTimesOutWhenDenied(probes: seq<AuthProbe>, budget: nat)
    requires budget < |probes|
    requires forall j :: 0 <= j <= budget ==> probes[j] == Reviewed(false)
    ensures AuthPoll(probes, budget) == PollResult(Some(Timeout), budget + 1)
  {
  }

  /** The two error policies differ: a failed request followed by success lets the health
      wait succeed on its second call, while it ends the authorization wait on its first. */
  lemma RequestFailurePoliciesDiffer(budget: nat, body: string, cause: Error)
    requires 1 <= budget
    ensures HealthPoll([HealthProbe(0, "")] + seq(budget, _ => HealthProbe(StatusOK, body)), budget)
            == PollResult(None, 2)
    ensures AuthPoll([RequestFailed(cause)] + seq(budget, _ => Reviewed(true)), budget)
            == PollResult(Some(cause), 1)
  {
    HealthWaitSucceedsAtFirstOK([HealthProbe(0, "")] + seq(budget, _ => HealthProbe(StatusOK, body)), budget, 1);
    AuthWaitAbortsOnRequestError([RequestFailed(cause)] + seq(budget, _ => Reviewed(true)), budget, 0);
  }
}
