/**
 * The leadership callback (originControllerManager): health wait, authorization wait,
 * construction of the controller context, the controller start pass, then the start of the
 * informers. Every failure is fatal; here a fatal condition ends the callback with the error
 * it would log, and no later step runs.
 */
module Orchestrator {
  import opened Wrappers
  import opened Errors
  import opened Readiness
  import opened Startup

  datatype Step = HealthWait | AuthorizationWait | BuildContext | RunStartPass | StartInformers

  /** The steps of a callback that gets all the way through, in order. */
  const AllSteps: seq<Step> := [HealthWait, AuthorizationWait, BuildContext, RunStartPass, StartInformers]

  /**
   * One run of the callback. The collaborators' outcomes are inputs: the health and
   * authorization probes, the error NewControllerContext returns (`contextErr`), and the
   * registry with its enable predicate. Returns the fatal error, if any, and the steps begun.
   */
  method OriginControllerManager(
    health: seq<HealthProbe>, auth: seq<AuthProbe>, contextErr: Option<Error>,
    reg: seq<Controller>, isEnabled: string -> bool)
    returns (fatal: Option<Error>, trace: seq<Step>)
    requires HealthBudget < |health| && AuthBudget < |auth|
    // the steps begun are a prefix of the fixed order, never empty
    ensures 1 <= |trace| <= |AllSteps| && trace == AllSteps[..|trace|]
    // the callback completes, with StartInformers once and last, exactly when nothing is fatal
    ensures fatal.None? <==> trace == AllSteps
    // each step runs exactly when every earlier one succeeded
    ensures |trace| >= 2 <==> HealthPoll(health, HealthBudget).err.None?
    ensures |trace| >= 3 <==> |trace| >= 2 && AuthPoll(auth, AuthBudget).err.None?
    ensures |trace| >= 4 <==> |trace| >= 3 && contextErr.None?
    ensures |trace| == 5 <==> |trace| >= 4 && StartPass(reg, isEnabled).err.None?
    // the fatal error is the failing step's
    ensures |trace| == 1 ==> fatal == Some(Unhealthy("", Timeout))
    ensures |trace| == 2 ==> fatal == Some(MissingRbac(AuthPoll(auth, AuthBudget).err.value))
    ensures |trace| == 3 ==> fatal == contextErr
    ensures |trace| == 4 ==> var k := FirstFailure(reg, isEnabled, 0).value;
                             fatal == Some(ControllerFailed(reg[k].name, reg[k].init.err.value))
  {
    trace := [HealthWait];
    var healthErr, _ := WaitForHealthyAPIServer(health, HealthBudget);
    if healthErr.Some? {
      return healthErr, trace;
    }
    trace := trace + [AuthorizationWait];
    var authErr, _ := WaitForAuthorizationUpdate(auth, AuthBudget);
    if authErr.Some? {
      return authErr, trace;
    }
    trace := trace + [BuildContext];
    if contextErr.Some? {
      return contextErr, trace;
    }
    trace := trace + [RunStartPass];
    var startErr, invoked, _ := StartControllers(reg, isEnabled);
    if startErr.Some? {
      // startControllers logs the failing controller's name fatally before its own return
      FailureStopsPass(reg, isEnabled, FirstFailure(reg, isEnabled, 0).value);
      var failed := invoked[|invoked| - 1];
      return Some(ControllerFailed(reg[failed].name, startErr.value)), trace;
    }
    trace := trace + [StartInformers];
    fatal := None;
  }
}
