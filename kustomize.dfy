/** `run`: invoke `kustomize` with retries. The process is an oracle: `exec(i)`
    is what the i-th invocation returns. The waits are recorded instead of
    slept. */
module Kustomize {
  import opened Exec

  /** The retry part of `run`'s options. */
  datatype RetryOptions = RetryOptions(retryWaitMs: int, retryMaxAttempts: int)

  /** The invocation every attempt makes: same arguments, and a non-zero exit
      code returned rather than thrown. */
  function Attempt(args: seq<string>): Invocation {
    Invocation("kustomize", args, true)
  }

  /** The most invocations `run` makes: the attempts of the loop and the final
      one. */
  function MaxInvocations(options: RetryOptions): (n: nat)
    ensures n >= 1
  {
    if options.retryMaxAttempts <= 0 then 1 else options.retryMaxAttempts + 1
  }

  /** How many invocations `run` makes when the attempts from the i-th on are
      still to come: the loop stops at the first success, and after
      `retryMaxAttempts` failures one final attempt follows. */
  function AttemptsFrom(exec: nat -> ExecOutput, i: nat, retryMaxAttempts: int): (n: nat)
    ensures i < n
    ensures n <= if retryMaxAttempts <= i then i + 1 else retryMaxAttempts + 1
    ensures n < retryMaxAttempts + 1 ==> exec(n - 1).exitCode == 0
    decreases retryMaxAttempts - i
  {
    if i >= retryMaxAttempts then i + 1
    else if exec(i).exitCode == 0 then i + 1
    else AttemptsFrom(exec, i + 1, retryMaxAttempts)
  }

  /** The first success among the loop's attempts ends `run` there. */
  lemma {:induction false} FirstSuccessStops(exec: nat -> ExecOutput, i: nat, k: nat, retryMaxAttempts: int)
    requires i <= k < retryMaxAttempts && exec(k).exitCode == 0
    requires forall j | i <= j < k :: exec(j).exitCode != 0
    ensures AttemptsFrom(exec, i, retryMaxAttempts) == k + 1
    decreases k - i
  {
    if i < k {
      FirstSuccessStops(exec, i + 1, k, retryMaxAttempts);
    }
  }

  /** When every attempt of the loop fails, `run` makes exactly
      `retryMaxAttempts + 1` invocations (one when `retryMaxAttempts <= 0`). */
  lemma {:induction false} AllFailuresExhaust(exec: nat -> ExecOutput, i: nat, retryMaxAttempts: int)
    requires forall j | i <= j < retryMaxAttempts :: exec(j).exitCode != 0
    ensures AttemptsFrom(exec, i, retryMaxAttempts) == if retryMaxAttempts <= i then i + 1 else retryMaxAttempts + 1
    decreases retryMaxAttempts - i
  {
    if i < retryMaxAttempts {
      AllFailuresExhaust(exec, i + 1, retryMaxAttempts);
    }
  }

  /** `run(args, options)`. `invocations` lists the calls of
      `exec.getExecOutput` and `waits` the `setTimeout` delays, in order. */
  method Run(args: seq<string>, options: RetryOptions, exec: nat -> ExecOutput)
      returns (output: ExecOutput, invocations: seq<Invocation>, waits: seq<int>)
    ensures |invocations| == AttemptsFrom(exec, 0, options.retryMaxAttempts)
    ensures 1 <= |invocations| <= MaxInvocations(options)
    ensures forall i | 0 <= i < |invocations| :: invocations[i] == Attempt(args)
    ensures output == exec(|invocations| - 1)
    // every attempt before the last one failed, and was followed by one wait
    ensures forall i | 0 <= i < |invocations| - 1 :: exec(i).exitCode != 0
    ensures waits == seq(|invocations| - 1, _ => options.retryWaitMs)
    // stopping before the final attempt means the attempt succeeded
    ensures |invocations| < MaxInvocations(options) ==> output.exitCode == 0
  {
    invocations := [];
    waits := [];
    var i := 0;
    while i < options.retryMaxAttempts
      invariant 0 <= i <= if options.retryMaxAttempts < 0 then 0 else options.retryMaxAttempts
      invariant |invocations| == i && |waits| == i
      invariant forall j | 0 <= j < i :: invocations[j] == Attempt(args) && exec(j).exitCode != 0
      invariant forall j | 0 <= j < i :: waits[j] == options.retryWaitMs
      invariant AttemptsFrom(exec, 0, options.retryMaxAttempts) == AttemptsFrom(exec, i, options.retryMaxAttempts)
    {
      var attempt := exec(|invocations|);
      invocations := invocations + [Attempt(args)];
      if attempt.exitCode == 0 {
        output := attempt;
        return;
      }
      waits := waits + [options.retryWaitMs];
      i := i + 1;
    }
    output := exec(|invocations|);
    invocations := invocations + [Attempt(args)];
  }
}
