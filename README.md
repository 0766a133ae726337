# Cluster policy controller bootstrap, modelled in Dafny

This project models the decision logic that `pkg/cmd/cluster-policy-controller/policy_controller.go`
runs once the process wins leader election:

- **Readiness gate.** `WaitForHealthyAPIServer` polls `/healthz` until it gets 200 OK.
  `WaitForAuthorizationUpdate` polls SubjectAccessReviews until `system:kube-controller-manager`
  may `get` `configmaps` in `openshift-kube-controller-manager`. Both use `wait.PollImmediate`.
  They treat a failed request differently. In the health condition it means "not ready yet":
  the stored status code stays 0. In the authorization condition it is returned as an error,
  and that ends the poll at once.
- **Controller start pass (`startControllers`).** One walk over the controller registry.
  Disabled entries are skipped. An init error ends the pass and is returned. An init result of
  `(false, nil)` is skipped and the pass goes on.
- **Leadership callback (`originControllerManager`).** The steps run in this order: health wait,
  authorization wait, `NewControllerContext`, `startControllers`, `StartInformers`. Any
  failure is fatal.

Modules:

- `Wrappers` holds `Option`; `None` stands for a nil Go `error`.
- `Errors` holds the error values and the texts `fmt.Errorf` gives them.
- `Poll` holds `wait.PollImmediate` over an attempt budget.
- `Readiness` holds the two conditions, the two wait methods and their lemmas.
- `Startup` holds `StartControllers`, its declarative specification `StartPass`, and lemmas.
- `Orchestrator` holds the callback as a method that returns the fatal error and the steps it began.

Modelling choices:

- The clock is replaced by an attempt budget. The condition is called once at once, then
  retried at most `budget` more times; then the poll returns `Timeout` (`wait.ErrWaitTimeout`).
  At a one-second interval this is 300 retries for the health wait (5 minutes) and 120 for the
  authorization wait (2 minutes): `HealthBudget` and `AuthBudget`.
- Each wait takes a sequence of probe outcomes, one per attempt. It requires an outcome for
  every attempt the budget allows (`budget < |probes|`). This says the environment answers
  every probe. It does not restrict the source's callers.
- The registry is a Go map, so its iteration order is unspecified. It is modelled as a
  sequence in any order, and every lemma holds for every order. `IsControllerEnabled` is a
  parameter `isEnabled: string -> bool`. Each entry carries the `(started, err)` pair its init
  function returns when called. The pass returns the positions it called, in order, and the
  positions it logged as "Started".
- `klog.Fatal` and `klog.Fatalf` exit the process. Here the callback instead ends with the
  terminal error the process logs, and runs no later step.
- On a failed init, the process exits inside `startControllers`, at the `klog.Fatalf` of
  line 172. Its text names the controller, and the callback's own `klog.Fatal` on line 64 is
  never reached. So the callback's terminal error on this path is
  `ControllerFailed(name, err)`, the line-172 text. `StartControllers` itself still returns
  the raw init error, like its `return err`. `FailureStopsPass` proves that the failing
  controller is the last one called, and the callback takes the name from there.

## Model

| member | source | states |
|---|---|---|
| `Poll.PollFrom` | pkg/cmd/cluster-policy-controller/policy_controller.go:112-123 | The poll makes between 1 and budget + 1 calls. Every verdict before the last call is "not done, no error". If the last verdict is decisive, the poll returns that verdict's error (a condition error takes precedence over done). Otherwise the whole budget is used and the result is Timeout. |
| `Poll.PollImmediate` | pkg/cmd/cluster-policy-controller/policy_controller.go:112-123 | `wait.PollImmediate` from the immediate first call on: between 1 and budget + 1 calls, none decisive before the last. It ends with the last verdict's error when that verdict is decisive, and with Timeout after the whole budget otherwise. |
| `Errors.Message` | pkg/cmd/cluster-policy-controller/policy_controller.go:124-174 | The text a Go error prints as. Timeout prints as `wait.ErrWaitTimeout`'s text. The health error starts with "server unhealthy: ", then the body, then ": ", and ends with the poll error's text. The authorization error starts with "server missing RBAC policy for system:kube-controller-manager: " and ends with the poll error's text. The startup error starts with "Error starting \"", the name and "\" (", and ends with the init error's text and ")". |
| `Errors.FatalMessagesDiffer` | pkg/cmd/cluster-policy-controller/policy_controller.go:124-174 | The health, authorization and controller-start fatal messages never coincide, whatever they wrap, so the log tells which precondition failed. |
| `Poll.PollStopsAtFirstDecisive` | pkg/cmd/cluster-policy-controller/policy_controller.go:143-153 | Suppose the first verdict that is done or an error comes at attempt k, within the budget. Then the poll returns that verdict's error after exactly k + 1 calls. |
| `Poll.PollTimesOut` | pkg/cmd/cluster-policy-controller/policy_controller.go:124-126 | With no decisive verdict within the budget, the poll returns Timeout after budget + 1 calls. |
| `Readiness.HealthCondition` | pkg/cmd/cluster-policy-controller/policy_controller.go:113-122 | The health condition never returns an error. It is done exactly when the status is 200. Any other status means not ready, including 0 from a failed request. |
| `Readiness.AuthCondition` | pkg/cmd/cluster-policy-controller/policy_controller.go:144-152 | A request error is returned as the condition's error. A denied review means not ready and no error. An allowed review means done. |
| `Readiness.WaitForHealthyAPIServer` | pkg/cmd/cluster-policy-controller/policy_controller.go:108-129 | The loop makes the same number of calls as the poll and succeeds exactly when the poll does. `healthzContent` is set only on the successful attempt, so the only error is `Unhealthy("", Timeout)`. Its message is "server unhealthy: : timed out waiting for the condition". |
| `Readiness.WaitForAuthorizationUpdate` | pkg/cmd/cluster-policy-controller/policy_controller.go:131-158 | The loop makes the same number of calls as the poll. It returns nil when the poll does. Otherwise it returns the poll's error wrapped as the "missing RBAC policy" error. |
| `Readiness.HealthWaitFailsOnlyOnTimeout` | pkg/cmd/cluster-policy-controller/policy_controller.go:112-126 | The health wait fails exactly when no probe within the budget answered 200. Then it has used the whole budget and its error is Timeout. |
| `Readiness.HealthWaitSucceedsAtFirstOK` | pkg/cmd/cluster-policy-controller/policy_controller.go:112-122 | The health wait succeeds on the first probe that answers 200, after exactly that many calls. Earlier failed or non-200 probes do not change this. An already healthy server needs one call. |
| `Readiness.AuthWaitSucceedsAfterDenials` | pkg/cmd/cluster-policy-controller/policy_controller.go:143-153 | K denials followed by an allowed review within the budget give success after exactly K + 1 calls. |
| `Readiness.AuthWaitAbortsOnRequestError` | pkg/cmd/cluster-policy-controller/policy_controller.go:143-155 | A request error after K denials ends the wait on call K + 1. The wait returns that error, and no later probe is made. |
| `Readiness.AuthWaitTimesOutWhenDenied` | pkg/cmd/cluster-policy-controller/policy_controller.go:143-155 | Denied on every attempt, the authorization wait times out after budget + 1 calls. |
| `Readiness.RequestFailurePoliciesDiffer` | pkg/cmd/cluster-policy-controller/policy_controller.go:113-147 | Take a failed request followed by success. The health wait succeeds on call 2. The authorization wait fails on call 1 with the request's error. |
| `Startup.FirstFailure` | pkg/cmd/cluster-policy-controller/policy_controller.go:163-174 | FirstFailure finds the first enabled entry whose init returns an error, with none before it. If it finds none, no enabled entry fails. |
| `Startup.EnabledBelow` | pkg/cmd/cluster-policy-controller/policy_controller.go:163-170 | EnabledBelow gives exactly the enabled positions below n, in increasing order. |
| `Startup.RunningBelow` | pkg/cmd/cluster-policy-controller/policy_controller.go:175-179 | RunningBelow gives exactly the positions below n whose controller is enabled, returned no error and reported started, in increasing order. |
| `Startup.StartControllers` | pkg/cmd/cluster-policy-controller/policy_controller.go:162-185 | The loop returns the error, the call order and the started controllers that `StartPass` specifies: every enabled entry up to and including the first failing one is called, and the pass returns that entry's error, or nil when none fails. |
| `Startup.DisabledControllerIgnored` | pkg/cmd/cluster-policy-controller/policy_controller.go:164-167 | A disabled controller is never called or started. Whatever its init function would return, the pass's result is the same, so skipping it causes no error. |
| `Startup.FailureStopsPass` | pkg/cmd/cluster-policy-controller/policy_controller.go:170-174 | Suppose the first failing init is at k. The pass returns its error. The controllers called are exactly the enabled ones up to and including k, and k is the last one called. No entry after k is called, and none at or after k is started. |
| `Startup.NotStartedIsSkipped` | pkg/cmd/cluster-policy-controller/policy_controller.go:175-178 | A `(false, nil)` result is not started. Compared with `(true, nil)`, the pass returns the same error and calls the same controllers, so the loop goes on. Only the started set differs, and only by that one entry. |
| `Startup.AllSucceedCallsEachOnce` | pkg/cmd/cluster-policy-controller/policy_controller.go:163-184 | When no enabled init fails, the pass returns nil and calls every enabled controller exactly once and no disabled one. The started controllers are exactly those that reported started. |
| `Orchestrator.OriginControllerManager` | pkg/cmd/cluster-policy-controller/policy_controller.go:51-67 | The steps begun are a non-empty prefix of health wait, authorization wait, build context, start pass, StartInformers. Each step runs exactly when every earlier one succeeded. The callback completes, running StartInformers once and last, exactly when nothing is fatal. The terminal error is the failing step's: `Unhealthy("", Timeout)`, the wrapped authorization error, the context error, or `ControllerFailed` naming the first enabled controller whose init returned an error, together with that error. |

## Left out

- Leader election (lines 77-103): creating the configmap lock, `leaderelection.RunOrDie` in a goroutine, and lease renewal. These are library behaviour and concurrent. This file adds only that `OnStoppedLeading` is fatal.
- Process wiring (lines 36-49, 69-76): `InitLogrusFromKlog`, `kubernetes.NewForConfig`, `RunControllerServer`, the event broadcaster and recorder, and `os.Hostname`. They are I/O and setup.
- The HTTP `/healthz` request and the SubjectAccessReview call are replaced by their outcomes (`HealthProbe`, `AuthProbe`). The review request itself is fixed and carries no decision logic.
- `NewControllerContext` is replaced by its error outcome. `StartInformers` becomes a step that cannot fail. `IsControllerEnabled` becomes a parameter. The contents of `ControllerInitializers` live in another package and are not part of this model.
- Timing in `wait.PollImmediate`: the one-second sleep and the wall-clock deadline are replaced by an attempt budget. How many calls fit before the deadline is not modelled.
- Go's `%q` quoting of the controller name in the line-172 message is not modelled beyond the surrounding quotes: escape sequences are left out.
- Logging (klog lines) is not modelled, apart from the fatal messages. The "Started" log line is kept only as the `running` positions of the pass.
- The error from `resp.Raw()` is ignored, as in the source. The response body comes with the probe.
