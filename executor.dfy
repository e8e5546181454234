/** `execute`: a generic pool of `concurrency` workers that drain one shared
    array of tasks from the front, each collecting the results of the tasks it
    ran, and whose lists are concatenated in worker order at the end. A task is
    a value `t` whose result is `run(t)`; the schedule says which worker popped
    each task. */
module Executor {
  import opened Wrappers
  import opened SharedQueue

  /** `tasks.map(run)` */
  function Apply<T, R>(run: T -> R, tasks: seq<T>): (results: seq<R>)
    ensures |results| == |tasks|
  {
    seq(|tasks|, k requires 0 <= k < |tasks| => run(tasks[k]))
  }

  /** What each worker returns: the results of the tasks it popped, in the
      order it ran them. */
  function WorkerResults<T, R>(tasks: seq<T>, schedule: seq<nat>, concurrency: nat, run: T -> R): (lists: seq<seq<R>>)
    requires |schedule| == |tasks|
    ensures |lists| == concurrency
  {
    seq(concurrency, w requires 0 <= w < concurrency => Apply(run, TasksOf(tasks, schedule, w)))
  }

  lemma ApplyAppend<T, R>(run: T -> R, a: seq<T>, b: seq<T>)
    ensures Apply(run, a + b) == Apply(run, a) + Apply(run, b)
  {
  }

  /** Running the k-th task adds its result to its worker's list only. */
  lemma WorkerResultsSnoc<T, R>(tasks: seq<T>, schedule: seq<nat>, concurrency: nat, run: T -> R, k: nat)
    requires |schedule| == |tasks| && k < |tasks| && schedule[k] < concurrency
    ensures var before := WorkerResults(tasks[..k], schedule[..k], concurrency, run);
            WorkerResults(tasks[..k + 1], schedule[..k + 1], concurrency, run)
            == before[schedule[k] := before[schedule[k]] + [run(tasks[k])]]
  {
    var before := WorkerResults(tasks[..k], schedule[..k], concurrency, run);
    var after := WorkerResults(tasks[..k + 1], schedule[..k + 1], concurrency, run);
    forall w | 0 <= w < concurrency
      ensures after[w] == if w == schedule[k] then before[w] + [run(tasks[k])] else before[w]
    {
      TasksOfSnoc(tasks, schedule, w, k);
      var mine := TasksOf(tasks[..k], schedule[..k], w);
      ApplyAppend(run, mine, if schedule[k] == w then [tasks[k]] else []);
    }
  }

  /** `execute(queue, concurrency)`. `ran` lists the tasks in the order they
      were started. */
  method Execute<T, R>(queue: Queue<T>, concurrency: int, run: T -> R, schedule: seq<nat>)
      returns (results: seq<R>, ran: seq<T>)
    modifies queue
    requires concurrency >= 1 ==> IsSchedule(schedule, |queue.items|, concurrency)
    ensures concurrency < 1 ==> results == [] && ran == [] && queue.items == old(queue.items)
    ensures concurrency >= 1 ==> queue.items == [] && ran == old(queue.items)
    ensures concurrency >= 1 ==> results == Flatten(WorkerResults(old(queue.items), schedule, concurrency, run))
  {
    var tasks := queue.items;
    var workers: seq<seq<R>> := [];
    var i := 0;
    while i < concurrency
      invariant 0 <= i <= if concurrency < 0 then 0 else concurrency
      invariant workers == seq(i, _ => [])
    {
      workers := workers + [[]];
      i := i + 1;
    }
    ran := [];
    if concurrency >= 1 {
      var k := 0;
      assert tasks[..0] == [] && schedule[..0] == [];
      assert workers == WorkerResults(tasks[..0], schedule[..0], concurrency, run);
      while true
        invariant 0 <= k <= |tasks|
        invariant queue.items == tasks[k..] && ran == tasks[..k]
        invariant workers == WorkerResults(tasks[..k], schedule[..k], concurrency, run)
        decreases |tasks| - k
      {
        var task := queue.Shift();
        if task.None? {
          break;
        }
        var w := schedule[k];
        WorkerResultsSnoc(tasks, schedule, concurrency, run, k);
        workers := workers[w := workers[w] + [run(task.value)]];
        ran := ran + [task.value];
        assert tasks[..k + 1] == tasks[..k] + [tasks[k]];
        k := k + 1;
      }
      assert tasks[..k] == tasks && schedule[..k] == schedule;
    }
    results := Flatten(workers);
  }

  /** Running a task and then picking a worker's share is picking the share and
      then running it. */
  lemma {:induction false} ApplyTasksOf<T, R>(run: T -> R, tasks: seq<T>, schedule: seq<nat>, w: nat)
    requires |schedule| == |tasks|
    ensures Apply(run, TasksOf(tasks, schedule, w)) == TasksOf(Apply(run, tasks), schedule, w)
    decreases |tasks|
  {
    if tasks != [] {
      var n := |tasks| - 1;
      ApplyTasksOf(run, tasks[..n], schedule[..n], w);
      assert Apply(run, tasks)[..n] == Apply(run, tasks[..n]);
      ApplyAppend(run, TasksOf(tasks[..n], schedule[..n], w), if schedule[n] == w then [tasks[n]] else []);
    }
  }

  /** Under every schedule the results are the task results in some order:
      one per task, none lost, none repeated. */
  lemma ResultsArePermutation<T, R>(tasks: seq<T>, schedule: seq<nat>, concurrency: nat, run: T -> R)
    requires IsSchedule(schedule, |tasks|, concurrency)
    ensures multiset(Flatten(WorkerResults(tasks, schedule, concurrency, run))) == multiset(Apply(run, tasks))
    ensures |Flatten(WorkerResults(tasks, schedule, concurrency, run))| == |tasks|
  {
    var lists := WorkerResults(tasks, schedule, concurrency, run);
    assert lists == Partition(Apply(run, tasks), schedule, concurrency) by {
      forall w | 0 <= w < concurrency ensures lists[w] == Partition(Apply(run, tasks), schedule, concurrency)[w] {
        ApplyTasksOf(run, tasks, schedule, w);
      }
    }
    PartitionIsPermutation(Apply(run, tasks), schedule, concurrency);
    assert |multiset(Flatten(lists))| == |multiset(Apply(run, tasks))|;
  }

  /** With one worker the results come out in queue order. */
  lemma SingleWorkerKeepsOrder<T, R>(tasks: seq<T>, schedule: seq<nat>, run: T -> R)
    requires IsSchedule(schedule, |tasks|, 1)
    ensures Flatten(WorkerResults(tasks, schedule, 1, run)) == Apply(run, tasks)
  {
    SingleWorkerTakesAll(tasks, schedule);
    var lists := WorkerResults(tasks, schedule, 1, run);
    assert lists[1..] == [];
  }

  /** An empty queue gives no results. */
  lemma EmptyQueueNoResults<T, R>(schedule: seq<nat>, concurrency: nat, run: T -> R)
    requires IsSchedule(schedule, 0, concurrency)
    ensures Flatten(WorkerResults([], schedule, concurrency, run)) == []
  {
    ResultsArePermutation([], schedule, concurrency, run);
  }

  /** When there are at least as many tasks as workers, every worker runs at
      least one task, the first being the one at its own index. */
  lemma EveryWorkerStarts<T, R>(tasks: seq<T>, schedule: seq<nat>, concurrency: nat, run: T -> R, w: nat)
    requires IsSchedule(schedule, |tasks|, concurrency)
    requires w < concurrency && w < |tasks|
    ensures WorkerResults(tasks, schedule, concurrency, run)[w] != []
    ensures WorkerResults(tasks, schedule, concurrency, run)[w][0] == run(tasks[w])
  {
    FirstTaskOfWorker(tasks, schedule, concurrency, w);
  }
}
