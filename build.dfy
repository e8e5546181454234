/** `kustomizeBuild`: `maxProcess` workers drain a copy of the list of
    kustomizations; for each one a worker creates the output directory and runs
    `kustomize build`, and remembers whether any of its builds failed. The file
    system and the process are oracles: the effects are recorded in a trace,
    and `exitCode(k)` is the exit code of the k-th build started. */
module Build {
  import opened Wrappers
  import opened Exec
  import opened SharedQueue

  /** One kustomization to build and the directory its output goes to. */
  datatype Kustomization = Kustomization(kustomizationDir: string, outputDir: string)

  datatype KustomizeBuildOption = KustomizeBuildOption(maxProcess: int, writeIndividualFiles: bool)

  /** What a build does to the outside world: `io.mkdirP` and `exec.exec`. */
  datatype Effect = MakeDirectory(path: string) | Run(invocation: Invocation)

  /** How `kustomizeBuild` settles: it resolves, it throws because
      `maxProcess` is below 1, or it throws reporting how many workers saw a
      failed build. */
  datatype BuildOutcome = Finished | InvalidMaxProcess(maxProcess: int) | Failed(errorCount: nat)

  const OUTPUT_FILE := "generated.yaml"

  /** The arguments of `kustomize` for one kustomization: all resources in
      `outputDir` as individual files, or all of them in
      `outputDir/generated.yaml`. */
  function BuildArgs(task: Kustomization, option: KustomizeBuildOption): (args: seq<string>)
    ensures |args| == 4 && args[..3] == ["build", task.kustomizationDir, "-o"]
  {
    var target := if option.writeIndividualFiles then task.outputDir else task.outputDir + "/" + OUTPUT_FILE;
    ["build", task.kustomizationDir, "-o", target]
  }

  /** Whatever the mode, `kustomize` writes inside the output directory:
      the directory itself or the fixed file name in it. */
  lemma OutputInsideOutputDir(task: Kustomization, option: KustomizeBuildOption)
    ensures var target := BuildArgs(task, option)[3];
            |target| >= |task.outputDir| && target[..|task.outputDir|] == task.outputDir
    ensures option.writeIndividualFiles <==> BuildArgs(task, option)[3] == task.outputDir
  {
    var target := BuildArgs(task, option)[3];
    if !option.writeIndividualFiles {
      assert |target| > |task.outputDir|;
    }
  }

  /** The effects of building one kustomization, in order. */
  function TaskEffects(task: Kustomization, option: KustomizeBuildOption): seq<Effect> {
    [MakeDirectory(task.outputDir), Run(Invocation("kustomize", BuildArgs(task, option), true))]
  }

  /** `build(task, option)`: create the output directory, then run
      `kustomize` with `ignoreReturnCode`, and return its exit code. */
  method BuildOne(task: Kustomization, option: KustomizeBuildOption, exitCode: int)
      returns (code: int, effects: seq<Effect>)
    ensures effects == TaskEffects(task, option)
    ensures effects[0].MakeDirectory? && effects[1].Run? && effects[1].invocation.ignoreReturnCode
    ensures code == exitCode
  {
    effects := [MakeDirectory(task.outputDir)];
    var args := BuildArgs(task, option);
    effects := effects + [Run(Invocation("kustomize", args, true))];
    code := exitCode;
  }

  /** The effects of building `tasks` one after the other. */
  function BuildTrace(tasks: seq<Kustomization>, option: KustomizeBuildOption): (trace: seq<Effect>)
    ensures |trace| == 2 * |tasks|
  {
    if tasks == [] then []
    else BuildTrace(tasks[..|tasks| - 1], option) + TaskEffects(tasks[|tasks| - 1], option)
  }

  /** Whether worker `w` saw a failed build among the first `n` builds. */
  function WorkerFlag(schedule: seq<nat>, exitCode: nat -> int, w: nat, n: nat): bool
    requires n <= |schedule|
  {
    n > 0 && (WorkerFlag(schedule, exitCode, w, n - 1) || (schedule[n - 1] == w && exitCode(n - 1) != 0))
  }

  /** The flags of the `maxProcess` workers after the first `n` builds. */
  function FlagsAfter(schedule: seq<nat>, exitCode: nat -> int, maxProcess: nat, n: nat): (flags: seq<bool>)
    requires n <= |schedule|
    ensures |flags| == maxProcess
  {
    seq(maxProcess, w requires 0 <= w < maxProcess => WorkerFlag(schedule, exitCode, w, n))
  }

  /** What the workers resolve to: `anyError` of each, once every build ran. */
  function WorkerFlags(schedule: seq<nat>, exitCode: nat -> int, maxProcess: nat): (flags: seq<bool>)
    ensures |flags| == maxProcess
  {
    FlagsAfter(schedule, exitCode, maxProcess, |schedule|)
  }

  /** `flags.filter((anyError) => anyError).length` */
  function CountTrue(flags: seq<bool>): (n: nat)
    ensures n <= |flags|
  {
    if flags == [] then 0 else (if flags[0] then 1 else 0) + CountTrue(flags[1..])
  }

  /** The verdict of `kustomizeBuild` on what its workers returned. */
  function Verdict(flags: seq<bool>): (outcome: BuildOutcome)
    ensures outcome.Failed? <==> true in flags
    ensures !outcome.InvalidMaxProcess?
    ensures outcome.Failed? ==> 1 <= outcome.errorCount <= |flags|
  {
    if true in flags then CountTruePositive(flags); Failed(CountTrue(flags)) else Finished
  }

  /** `kustomizeBuild(kustomizations, option)`. The caller's array is only
      read: the workers drain a copy. */
  method KustomizeBuild(kustomizations: Queue<Kustomization>, option: KustomizeBuildOption,
                        schedule: seq<nat>, exitCode: nat -> int)
      returns (outcome: BuildOutcome, trace: seq<Effect>)
    requires option.maxProcess >= 1 ==> IsSchedule(schedule, |kustomizations.items|, option.maxProcess)
    ensures option.maxProcess < 1 ==> outcome == InvalidMaxProcess(option.maxProcess) && trace == []
    ensures option.maxProcess >= 1 ==> trace == BuildTrace(kustomizations.items, option)
    ensures option.maxProcess >= 1 ==> outcome == Verdict(WorkerFlags(schedule, exitCode, option.maxProcess))
  {
    if option.maxProcess < 1 {
      return InvalidMaxProcess(option.maxProcess), [];
    }
    var tasks := kustomizations.items;
    var queue := new Queue.Concat(kustomizations.items);
    var anyErrors: seq<bool> := [];
    for index := 0 to option.maxProcess
      invariant anyErrors == seq(index, _ => false)
    {
      anyErrors := anyErrors + [false];
    }
    trace := [];
    var k := 0;
    while true
      invariant 0 <= k <= |tasks|
      invariant queue.items == tasks[k..]
      invariant trace == BuildTrace(tasks[..k], option)
      invariant |anyErrors| == option.maxProcess
      invariant forall w | 0 <= w < option.maxProcess :: anyErrors[w] == WorkerFlag(schedule, exitCode, w, k)
      decreases |tasks| - k
    {
      var task := queue.Shift();
      if task.None? {
        break;
      }
      var w := schedule[k];
      var code, effects := BuildOne(task.value, option, exitCode(k));
      assert tasks[..k + 1][..k] == tasks[..k];
      trace := trace + effects;
      if code != 0 {
        anyErrors := anyErrors[w := true];
      }
      k := k + 1;
    }
    assert tasks[..k] == tasks;
    assert anyErrors == WorkerFlags(schedule, exitCode, option.maxProcess);
    outcome := if true in anyErrors then Failed(CountTrue(anyErrors)) else Finished;
  }

  // ---------------------------------------------------------------------------
  // What a run of kustomizeBuild does
  // ---------------------------------------------------------------------------

  /** Each kustomization, in queue order, gets its output directory created and
      then exactly one `kustomize` invocation. */
  lemma {:induction false} TraceShape(tasks: seq<Kustomization>, option: KustomizeBuildOption, k: nat)
    requires k < |tasks|
    ensures BuildTrace(tasks, option)[2 * k] == MakeDirectory(tasks[k].outputDir)
    ensures BuildTrace(tasks, option)[2 * k + 1] == Run(Invocation("kustomize", BuildArgs(tasks[k], option), true))
    decreases |tasks|
  {
    var n := |tasks| - 1;
    if k < n {
      TraceShape(tasks[..n], option, k);
    }
  }

  /** An empty list creates no directory, runs nothing and succeeds. */
  lemma EmptyListDoesNothing(option: KustomizeBuildOption, schedule: seq<nat>, exitCode: nat -> int)
    requires option.maxProcess >= 1 && schedule == []
    ensures BuildTrace([], option) == []
    ensures Verdict(WorkerFlags(schedule, exitCode, option.maxProcess)) == Finished
  {
    var flags := WorkerFlags(schedule, exitCode, option.maxProcess);
    assert forall w | 0 <= w < |flags| :: !flags[w];
  }

  /** A worker's flag is set exactly when one of the builds it took failed. */
  lemma {:induction false} WorkerFlagMeans(schedule: seq<nat>, exitCode: nat -> int, w: nat, n: nat)
    requires n <= |schedule|
    ensures WorkerFlag(schedule, exitCode, w, n)
            <==> exists k | 0 <= k < n :: schedule[k] == w && exitCode(k) != 0
  {
    if n > 0 {
      WorkerFlagMeans(schedule, exitCode, w, n - 1);
    }
  }

  /** `kustomizeBuild` throws exactly when some build failed. */
  lemma FailsExactlyWhenABuildFails(schedule: seq<nat>, exitCode: nat -> int, maxProcess: nat)
    requires IsSchedule(schedule, |schedule|, maxProcess)
    ensures Verdict(WorkerFlags(schedule, exitCode, maxProcess)).Failed?
            <==> exists k | 0 <= k < |schedule| :: exitCode(k) != 0
  {
    var flags := WorkerFlags(schedule, exitCode, maxProcess);
    if exists k | 0 <= k < |schedule| :: exitCode(k) != 0 {
      var k :| 0 <= k < |schedule| && exitCode(k) != 0;
      var w := schedule[k];
      WorkerFlagMeans(schedule, exitCode, w, |schedule|);
      assert flags[w];
    } else if true in flags {
      var w :| 0 <= w < |flags| && flags[w];
      WorkerFlagMeans(schedule, exitCode, w, |schedule|);
    }
  }

  /** The number of failed builds among the first `n`. */
  function CountFailures(exitCode: nat -> int, n: nat): nat {
    if n == 0 then 0 else CountFailures(exitCode, n - 1) + (if exitCode(n - 1) != 0 then 1 else 0)
  }

  lemma {:induction false} CountTrueSet(flags: seq<bool>, w: nat)
    requires w < |flags|
    ensures CountTrue(flags[w := true]) <= CountTrue(flags) + 1
    ensures CountTrue(flags[w := true]) >= CountTrue(flags)
  {
    if w > 0 {
      assert flags[w := true][1..] == flags[1..][w - 1 := true];
      CountTrueSet(flags[1..], w - 1);
    } else {
      assert flags[w := true][1..] == flags[1..];
    }
  }

  lemma {:induction false} CountTruePositive(flags: seq<bool>)
    requires true in flags
    ensures CountTrue(flags) >= 1
  {
    if !flags[0] {
      var w :| 0 <= w < |flags| && flags[w];
      assert flags[1..][w - 1];
      CountTruePositive(flags[1..]);
    }
  }

  /** Each failed build sets at most one flag, so no more workers report an
      error than builds failed. */
  lemma {:induction false} FlagsBoundedByFailures(schedule: seq<nat>, exitCode: nat -> int, maxProcess: nat, n: nat)
    requires IsSchedule(schedule, |schedule|, maxProcess) && n <= |schedule|
    ensures CountTrue(FlagsAfter(schedule, exitCode, maxProcess, n)) <= CountFailures(exitCode, n)
  {
    var flags := FlagsAfter(schedule, exitCode, maxProcess, n);
    if n == 0 {
      assert flags == seq(maxProcess, _ => false);
      NoneSet(flags);
    } else {
      var before := FlagsAfter(schedule, exitCode, maxProcess, n - 1);
      FlagsBoundedByFailures(schedule, exitCode, maxProcess, n - 1);
      var w := schedule[n - 1];
      if exitCode(n - 1) != 0 {
        assert flags == before[w := true];
        CountTrueSet(before, w);
      } else {
        assert flags == before;
      }
    }
  }

  lemma {:induction false} NoneSet(flags: seq<bool>)
    requires forall w | 0 <= w < |flags| :: !flags[w]
    ensures CountTrue(flags) == 0
  {
    if flags != [] {
      NoneSet(flags[1..]);
    }
  }

  /** The error count `kustomizeBuild` reports is at least 1, at most
      `maxProcess`, and at most the number of failed builds. */
  lemma ErrorCountBounds(schedule: seq<nat>, exitCode: nat -> int, maxProcess: nat)
    requires IsSchedule(schedule, |schedule|, maxProcess)
    requires Verdict(WorkerFlags(schedule, exitCode, maxProcess)).Failed?
    ensures var count := Verdict(WorkerFlags(schedule, exitCode, maxProcess)).errorCount;
            1 <= count <= maxProcess && count <= CountFailures(exitCode, |schedule|)
  {
    var flags := WorkerFlags(schedule, exitCode, maxProcess);
    CountTruePositive(flags);
    FlagsBoundedByFailures(schedule, exitCode, maxProcess, |schedule|);
  }
}
