/**
 * The errors the bootstrap code of the cluster policy controller can produce or pass on,
 * and the text each one prints as (the `%v` of Go's fmt package).
 */
module Errors {

  datatype Error =
    /** wait.ErrWaitTimeout: the poll budget ran out before the condition was met. */
    | Timeout
    /** An error produced by a collaborator (a request, a controller's init function,
        the construction of the controller context); only its text is known here. */
    | Opaque(text: string)
    /** The error WaitForHealthyAPIServer returns: the last healthz body and the poll error. */
    | Unhealthy(body: string, cause: Error)
    /** The error WaitForAuthorizationUpdate returns, wrapping the poll error. */
    | MissingRbac(cause: Error)
    /** The fatal condition startControllers logs when a controller's init function fails. */
    | ControllerFailed(name: string, cause: Error)

  const TimeoutText: string := "timed out waiting for the condition"
  const UnhealthyPrefix: string := "server unhealthy: "
  /** The identity whose access WaitForAuthorizationUpdate waits for. */
  const ControllerManagerUser: string := "system:kube-controller-manager"
  const MissingRbacPrefix: string := "server missing RBAC policy for " + ControllerManagerUser + ": "

  const ControllerFailedPrefix: string := "Error starting \""

  /** The text an error prints as: each wrapper puts its own fixed text before the text of
      the error it wraps, which ends the message. */
  function Message(e: Error): (r: string)
    ensures e.Timeout? ==> r == TimeoutText
    ensures e.Unhealthy? ==> UnhealthyPrefix + e.body + ": " <= r && EndsWith(r, Message(e.cause))
    ensures e.MissingRbac? ==> MissingRbacPrefix <= r && EndsWith(r, Message(e.cause))
    ensures e.ControllerFailed? ==> ControllerFailedPrefix + e.name + "\" (" <= r
                                    && EndsWith(r, Message(e.cause) + ")")
  {
    match e
    case Timeout => TimeoutText
    case Opaque(text) => text
    case Unhealthy(body, cause) => UnhealthyPrefix + body + ": " + Message(cause)
    case MissingRbac(cause) => MissingRbacPrefix + Message(cause)
    case ControllerFailed(name, cause) => ControllerFailedPrefix + name + "\" (" + Message(cause) + ")"
  }

  predicate EndsWith(s: string, suffix: string)
  {
    |suffix| <= |s| && s[|s| - |suffix|..] == suffix
  }

  /** The fatal readiness and startup messages can be told apart by their text, so the log
      names which precondition failed. */
  lemma FatalMessagesDiffer(body: string, name: string, c1: Error, c2: Error, c3: Error)
    ensures Message(Unhealthy(body, c1)) != Message(MissingRbac(c2))
    ensures Message(Unhealthy(body, c1)) != Message(ControllerFailed(name, c3))
    ensures Message(MissingRbac(c2)) != Message(ControllerFailed(name, c3))
  {
    var unhealthy, rbac := Message(Unhealthy(body, c1)), Message(MissingRbac(c2));
    var failed := Message(ControllerFailed(name, c3));
    PrefixAt(UnhealthyPrefix, unhealthy, 0);
    PrefixAt(UnhealthyPrefix, unhealthy, 7);
    PrefixAt(MissingRbacPrefix[..8], rbac, 0);
    PrefixAt(MissingRbacPrefix[..8], rbac, 7);
    PrefixAt(ControllerFailedPrefix, failed, 0);
    assert UnhealthyPrefix[0] == 's' && UnhealthyPrefix[7] == 'u';
    assert MissingRbacPrefix[..8] == "server m";
    assert ControllerFailedPrefix[0] == 'E';
  }

  lemma PrefixAt(prefix: string, s: string, i: nat)
    requires prefix <= s && i < |prefix|
    ensures s[i] == prefix[i]
  {
  }
}
