/**
 * startControllers: one pass over the controller registry. The registry is a Go map, so its
 * iteration order is unspecified; here it is a sequence in any order, and every property
 * below holds for every order. Each entry carries the result its init function returns
 * when it is called; whether it is called is what the pass decides.
 */
module Startup {
  import opened Wrappers
  import opened Errors

  /** What an init function returns: `(started bool, err error)`. */
  datatype InitResult = InitResult(started: bool, err: Option<Error>)

  /** A registry entry: the controller's name and the result its init function gives. */
  datatype Controller = Controller(name: string, init: InitResult)

  /** What the pass returns, the registry positions whose init function it called, in call
      order, and the positions it logged as started. */
  datatype StartResult = StartResult(err: Option<Error>, invoked: seq<nat>, running: seq<nat>)

  /** An entry whose init function is called and returns an error. */
  predicate Fails(c: Controller, isEnabled: string -> bool)
  {
    isEnabled(c.name) && c.init.err.Some?
  }

  /** An entry whose init function is called and reports that the controller started. */
  predicate Runs(c: Controller, isEnabled: string -> bool)
  {
    isEnabled(c.name) && c.init.err.None? && c.init.started
  }

  predicate Increasing(s: seq<nat>)
  {
    forall a, b :: 0 <= a < b < |s| ==> s[a] < s[b]
  }

  /** The first failing entry at or after position `from`. */
  function FirstFailure(reg: seq<Controller>, isEnabled: string -> bool, from: nat): (r: Option<nat>)
    requires from <= |reg|
    ensures r.Some? ==> from <= r.value < |reg| && Fails(reg[r.value], isEnabled)
    ensures r.Some? ==> forall j :: from <= j < r.value ==> !Fails(reg[j], isEnabled)
    ensures r.None? ==> forall j :: from <= j < |reg| ==> !Fails(reg[j], isEnabled)
    decreases |reg| - from
  {
    if from == |reg| then None
    else if Fails(reg[from], isEnabled) then Some(from)
    else FirstFailure(reg, isEnabled, from + 1)
  }

  /** The enabled positions below `n`, in increasing order. */
  function EnabledBelow(reg: seq<Controller>, isEnabled: string -> bool, n: nat): (r: seq<nat>)
    requires n <= |reg|
    ensures forall i: nat :: i in r <==> i < n && isEnabled(reg[i].name)
    ensures Increasing(r)
  {
    if n == 0 then []
    else
      var prefix := EnabledBelow(reg, isEnabled, n - 1);
      assert forall a :: 0 <= a < |prefix| ==> prefix[a] in prefix;
      prefix + (if isEnabled(reg[n - 1].name) then [n - 1] else [])
  }

  /** The positions below `n` whose controller started, in increasing order. */
  function RunningBelow(reg: seq<Controller>, isEnabled: string -> bool, n: nat): (r: seq<nat>)
    requires n <= |reg|
    ensures forall i: nat :: i in r <==> i < n && Runs(reg[i], isEnabled)
    ensures Increasing(r)
  {
    if n == 0 then []
    else
      var prefix := RunningBelow(reg, isEnabled, n - 1);
      assert forall a :: 0 <= a < |prefix| ==> prefix[a] in prefix;
      prefix + (if Runs(reg[n - 1], isEnabled) then [n - 1] else [])
  }

  /** Where the pass stops: just after the first failing entry, or at the end. */
  function StopAt(reg: seq<Controller>, isEnabled: string -> bool): (n: nat)
    ensures n <= |reg|
  {
    match FirstFailure(reg, isEnabled, 0)
    case Some(k) => k + 1
    case None => |reg|
  }

  /** The pass, stated declaratively: every enabled entry up to the first failing one is
      called, and the pass returns that entry's error, or nil when none fails. */
  function StartPass(reg: seq<Controller>, isEnabled: string -> bool): StartResult
  {
    var stop := StopAt(reg, isEnabled);
    StartResult(
      match FirstFailure(reg, isEnabled, 0)
      case Some(k) => reg[k].init.err
      case None => None,
      EnabledBelow(reg, isEnabled, stop),
      RunningBelow(reg, isEnabled, stop))
  }

  /** startControllers: the loop over the registry. */
  method StartControllers(reg: seq<Controller>, isEnabled: string -> bool)
    returns (err: Option<Error>, invoked: seq<nat>, running: seq<nat>)
    ensures StartResult(err, invoked, running) == StartPass(reg, isEnabled)
  {
    invoked, running := [], [];
    var i := 0;
    while i < |reg|
      invariant i <= |reg|
      invariant FirstFailure(reg, isEnabled, i) == FirstFailure(reg, isEnabled, 0)
      invariant invoked == EnabledBelow(reg, isEnabled, i)
      invariant running == RunningBelow(reg, isEnabled, i)
    {
      var c := reg[i];
      if !isEnabled(c.name) {
        // disabled: skipped, not an error
        i := i + 1;
        continue;
      }
      invoked := invoked + [i];
      var result := c.init;
      if result.err.Some? {
        err := result.err;
        return;
      }
      if !result.started {
        // the controller chose not to run: skipped, not an error
        i := i + 1;
        continue;
      }
      running := running + [i];
      i := i + 1;
    }
    err := None;
  }

  /** An increasing sequence holds each of its elements exactly once. */
  lemma {:induction false} IncreasingHoldsOnce(s: seq<nat>, x: nat)
    requires Increasing(s)
    ensures multiset(s)[x] == if x in s then 1 else 0
  {
    if s != [] {
      assert s == [s[0]] + s[1..];
      assert Increasing(s[1..]);
      IncreasingHoldsOnce(s[1..], x);
      assert s[0] !in s[1..];
    }
  }

  lemma {:induction false} EnabledBelowAgrees(reg: seq<Controller>, reg2: seq<Controller>, isEnabled: string -> bool, n: nat)
    requires n <= |reg| == |reg2|
    requires forall j :: 0 <= j < |reg| ==> reg[j].name == reg2[j].name
    ensures EnabledBelow(reg, isEnabled, n) == EnabledBelow(reg2, isEnabled, n)
  {
    if n > 0 {
      EnabledBelowAgrees(reg, reg2, isEnabled, n - 1);
    }
  }

  lemma {:induction false} RunningBelowAgrees(reg: seq<Controller>, reg2: seq<Controller>, isEnabled: string -> bool, n: nat)
    requires n <= |reg| == |reg2|
    requires forall j :: 0 <= j < |reg| ==> Runs(reg[j], isEnabled) == Runs(reg2[j], isEnabled)
    ensures RunningBelow(reg, isEnabled, n) == RunningBelow(reg2, isEnabled, n)
  {
    if n > 0 {
      RunningBelowAgrees(reg, reg2, isEnabled, n - 1);
    }
  }

  /** A disabled controller's init function is never called, and it makes no difference to
      the pass: whatever that function would return, the pass returns the same. */
  lemma DisabledControllerIgnored(reg: seq<Controller>, isEnabled: string -> bool, i: nat, other: InitResult)
    requires i < |reg| && !isEnabled(reg[i].name)
    ensures i !in StartPass(reg, isEnabled).invoked
    ensures i !in StartPass(reg, isEnabled).running
    ensures StartPass(reg[i := Controller(reg[i].name, other)], isEnabled) == StartPass(reg, isEnabled)
  {
    var reg2 := reg[i := Controller(reg[i].name, other)];
    EnabledBelowAgrees(reg, reg2, isEnabled, StopAt(reg, isEnabled));
    RunningBelowAgrees(reg, reg2, isEnabled, StopAt(reg, isEnabled));
  }

  /** When the init function at `k` is the first to fail: the pass returns its error, the
      controllers called are exactly the enabled ones up to and including `k`, the last one
      called is `k` (so the failing controller's name is known), and nothing after it runs. */
  lemma FailureStopsPass(reg: seq<Controller>, isEnabled: string -> bool, k: nat)
    requires k < |reg| && Fails(reg[k], isEnabled)
    requires forall j :: 0 <= j < k ==> !Fails(reg[j], isEnabled)
    ensures StartPass(reg, isEnabled).err == reg[k].init.err
    ensures StartPass(reg, isEnabled).err.Some?
    ensures forall j: nat :: j in StartPass(reg, isEnabled).invoked <==> j <= k && isEnabled(reg[j].name)
    ensures var invoked := StartPass(reg, isEnabled).invoked;
            |invoked| > 0 && invoked[|invoked| - 1] == k
    ensures forall j: nat :: j in StartPass(reg, isEnabled).running ==> j < k
  {
  }

  /** An init function returning (false, nil) is skipped without error and the pass goes on:
      the pass returns and calls exactly what it would if that controller had started, and
      only the set of started controllers differs, by that one entry. */
  lemma NotStartedIsSkipped(reg: seq<Controller>, isEnabled: string -> bool, i: nat)
    requires i < |reg| && reg[i].init == InitResult(false, None)
    ensures i !in StartPass(reg, isEnabled).running
    ensures var reg2 := reg[i := Controller(reg[i].name, InitResult(true, None))];
            && StartPass(reg2, isEnabled).err == StartPass(reg, isEnabled).err
            && StartPass(reg2, isEnabled).invoked == StartPass(reg, isEnabled).invoked
            && forall j: nat :: j != i ==>
                 (j in StartPass(reg2, isEnabled).running <==> j in StartPass(reg, isEnabled).running)
  {
    var reg2 := reg[i := Controller(reg[i].name, InitResult(true, None))];
    EnabledBelowAgrees(reg, reg2, isEnabled, StopAt(reg, isEnabled));
  }

  /** When no enabled init function fails, the pass returns nil, calls every enabled
      controller exactly once and no disabled one, and the started ones are those that said so. */
  lemma AllSucceedCallsEachOnce(reg: seq<Controller>, isEnabled: string -> bool)
    requires forall j :: 0 <= j < |reg| ==> !Fails(reg[j], isEnabled)
    ensures StartPass(reg, isEnabled).err == None
    ensures forall j: nat :: multiset(StartPass(reg, isEnabled).invoked)[j]
                             == if j < |reg| && isEnabled(reg[j].name) then 1 else 0
    ensures forall j: nat :: j in StartPass(reg, isEnabled).running <==> j < |reg| && Runs(reg[j], isEnabled)
  {
    var invoked: seq<nat> := StartPass(reg, isEnabled).invoked;
    forall j: nat
      ensures multiset(invoked)[j] == if j < |reg| && isEnabled(reg[j].name) then 1 else 0
    {
      IncreasingHoldsOnce(invoked, j);
    }
  }
}
