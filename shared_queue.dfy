/** A JavaScript array that several workers drain from the front with
    `shift()`, and the order in which the workers reach it.

    The workers are `async` functions sharing one event loop, so a pop is never
    interrupted; what varies between runs is only WHICH worker pops next. A run
    is therefore described by a pop schedule: `schedule[k]` is the worker that
    took the k-th element. Each worker runs synchronously up to its first
    `await`, so the first pops are made by workers 0, 1, 2, ... in the order
    they were started; after that any worker whose task has finished may be
    next. */
module SharedQueue {
  import opened Wrappers

  /** A JavaScript array used as a first-in first-out queue. */
  class Queue<T> {
    var items: seq<T>

    /** `source.concat()`: a fresh array holding the same elements. */
    constructor Concat(source: seq<T>)
      ensures items == source
    {
      items := source;
    }

    /** `queue.shift()`: removes and returns the first element, or gives
        `undefined` on an empty array. */
    method Shift() returns (head: Option<T>)
      modifies this
      ensures old(items) == [] ==> head == None && items == []
      ensures old(items) != [] ==> head == Some(old(items)[0]) && items == old(items)[1..]
    {
      if items == [] {
        head := None;
      } else {
        head := Some(items[0]);
        items := items[1..];
      }
    }
  }

  /** `schedule` describes a run of `workers` workers over `n` elements:
      one entry per element, each a worker index, the first ones being the
      workers in start order. */
  predicate IsSchedule(schedule: seq<nat>, n: nat, workers: nat) {
    && |schedule| == n
    && (forall k | 0 <= k < n :: schedule[k] < workers)
    && (forall k | 0 <= k < n && k < workers :: schedule[k] == k)
  }

  /** The elements worker `w` took, in the order it took them. */
  function TasksOf<T>(tasks: seq<T>, schedule: seq<nat>, w: nat): (mine: seq<T>)
    requires |schedule| == |tasks|
    ensures |mine| <= |tasks|
  {
    if tasks == [] then []
    else
      var n := |tasks| - 1;
      TasksOf(tasks[..n], schedule[..n], w) + (if schedule[n] == w then [tasks[n]] else [])
  }

  /** The elements each of the workers took. */
  function Partition<T>(tasks: seq<T>, schedule: seq<nat>, workers: nat): (parts: seq<seq<T>>)
    requires |schedule| == |tasks|
    ensures |parts| == workers
  {
    seq(workers, w requires 0 <= w < workers => TasksOf(tasks, schedule, w))
  }

  /** `array.flat()` on an array of arrays. */
  function Flatten<T>(parts: seq<seq<T>>): seq<T> {
    if parts == [] then [] else parts[0] + Flatten(parts[1..])
  }

  /** Taking one more element: only the worker that took it has a longer list. */
  lemma TasksOfSnoc<T>(tasks: seq<T>, schedule: seq<nat>, w: nat, k: nat)
    requires |schedule| == |tasks| && k < |tasks|
    ensures TasksOf(tasks[..k + 1], schedule[..k + 1], w)
            == TasksOf(tasks[..k], schedule[..k], w) + (if schedule[k] == w then [tasks[k]] else [])
  {
    assert tasks[..k + 1][..k] == tasks[..k];
    assert schedule[..k + 1][..k] == schedule[..k];
  }

  /** The k-th element joins the list of the worker that took it. */
  lemma PartitionSnoc<T>(tasks: seq<T>, schedule: seq<nat>, workers: nat, k: nat)
    requires |schedule| == |tasks| && k < |tasks| && schedule[k] < workers
    ensures var before := Partition(tasks[..k], schedule[..k], workers);
            Partition(tasks[..k + 1], schedule[..k + 1], workers)
            == before[schedule[k] := before[schedule[k]] + [tasks[k]]]
  {
    var before := Partition(tasks[..k], schedule[..k], workers);
    var after := Partition(tasks[..k + 1], schedule[..k + 1], workers);
    forall v | 0 <= v < workers
      ensures after[v] == if v == schedule[k] then before[v] + [tasks[k]] else before[v]
    {
      TasksOfSnoc(tasks, schedule, v, k);
    }
  }

  /** The last element is in the list of the worker that took it. */
  lemma PartitionLast<T>(tasks: seq<T>, schedule: seq<nat>, workers: nat)
    requires |schedule| == |tasks| && tasks != [] && schedule[|tasks| - 1] < workers
    ensures var n := |tasks| - 1;
            var before := Partition(tasks[..n], schedule[..n], workers);
            Partition(tasks, schedule, workers) == before[schedule[n] := before[schedule[n]] + [tasks[n]]]
  {
    var n := |tasks| - 1;
    var before := Partition(tasks[..n], schedule[..n], workers);
    var after := Partition(tasks, schedule, workers);
    forall v | 0 <= v < workers
      ensures after[v] == if v == schedule[n] then before[v] + [tasks[n]] else before[v]
    {
    }
  }

  /** Appending to one part adds exactly that element to the flattened whole. */
  lemma {:induction false} FlattenAppendAt<T>(parts: seq<seq<T>>, w: nat, x: T)
    requires w < |parts|
    ensures multiset(Flatten(parts[w := parts[w] + [x]])) == multiset(Flatten(parts)) + multiset{x}
  {
    var updated := parts[w := parts[w] + [x]];
    assert updated[1..] == if w == 0 then parts[1..] else parts[1..][w - 1 := parts[w] + [x]];
    if w > 0 {
      FlattenAppendAt(parts[1..], w - 1, x);
    }
  }

  /** Whatever the schedule, the workers' lists together hold every element
      exactly once. */
  lemma {:induction false} PartitionIsPermutation<T>(tasks: seq<T>, schedule: seq<nat>, workers: nat)
    requires |schedule| == |tasks|
    requires forall k | 0 <= k < |tasks| :: schedule[k] < workers
    ensures multiset(Flatten(Partition(tasks, schedule, workers))) == multiset(tasks)
    decreases |tasks|
  {
    if tasks == [] {
      EmptyPartition(workers, schedule, tasks);
    } else {
      var n := |tasks| - 1;
      var x, w := tasks[n], schedule[n];
      assert forall k | 0 <= k < n :: schedule[..n][k] < workers by {
        forall k | 0 <= k < n ensures schedule[..n][k] < workers { assert schedule[..n][k] == schedule[k]; }
      }
      PartitionIsPermutation(tasks[..n], schedule[..n], workers);
      PartitionLast(tasks, schedule, workers);
      AppendKeepsPermutation(Partition(tasks[..n], schedule[..n], workers), w, tasks);
    }
  }

  /** The induction step: adding the last element to one part keeps the
      parts a permutation of the elements. */
  lemma AppendKeepsPermutation<T>(before: seq<seq<T>>, w: nat, tasks: seq<T>)
    requires tasks != [] && w < |before|
    requires multiset(Flatten(before)) == multiset(tasks[..|tasks| - 1])
    ensures multiset(Flatten(before[w := before[w] + [tasks[|tasks| - 1]]])) == multiset(tasks)
  {
    FlattenAppendAt(before, w, tasks[|tasks| - 1]);
    assert tasks == tasks[..|tasks| - 1] + [tasks[|tasks| - 1]];
  }

  /** Nothing taken: every list is empty. */
  lemma {:induction false} EmptyPartition<T>(workers: nat, schedule: seq<nat>, tasks: seq<T>)
    requires tasks == [] && schedule == []
    ensures Flatten(Partition(tasks, schedule, workers)) == []
    decreases workers
  {
    var parts := Partition(tasks, schedule, workers);
    if workers > 0 {
      EmptyPartition(workers - 1, schedule, tasks);
      assert parts[1..] == Partition(tasks, schedule, workers - 1);
    }
  }

  /** One worker takes everything, in queue order. */
  lemma {:induction false} SingleWorkerTakesAll<T>(tasks: seq<T>, schedule: seq<nat>)
    requires IsSchedule(schedule, |tasks|, 1)
    ensures TasksOf(tasks, schedule, 0) == tasks
    ensures Flatten(Partition(tasks, schedule, 1)) == tasks
    decreases |tasks|
  {
    if tasks != [] {
      var n := |tasks| - 1;
      SingleWorkerTakesAll(tasks[..n], schedule[..n]);
      assert tasks == tasks[..n] + [tasks[n]];
    }
    assert Partition(tasks, schedule, 1)[1..] == [];
  }

  /** The first element a started worker takes is the one at its own start
      position. */
  lemma {:induction false} FirstTaskOfWorker<T>(tasks: seq<T>, schedule: seq<nat>, workers: nat, w: nat)
    requires IsSchedule(schedule, |tasks|, workers)
    requires w < workers && w < |tasks|
    ensures TasksOf(tasks, schedule, w) != [] && TasksOf(tasks, schedule, w)[0] == tasks[w]
    decreases |tasks|
  {
    var n := |tasks| - 1;
    if n == w {
      assert TasksOf(tasks[..n], schedule[..n], w) == [] by {
        NotYetStarted(tasks[..n], schedule[..n], workers, w);
      }
    } else {
      FirstTaskOfWorker(tasks[..n], schedule[..n], workers, w);
    }
  }

  /** Before its start position, a worker has taken nothing. */
  lemma {:induction false} NotYetStarted<T>(tasks: seq<T>, schedule: seq<nat>, workers: nat, w: nat)
    requires IsSchedule(schedule, |tasks|, workers)
    requires |tasks| <= w
    ensures TasksOf(tasks, schedule, w) == []
    decreases |tasks|
  {
    if tasks != [] {
      var n := |tasks| - 1;
      NotYetStarted(tasks[..n], schedule[..n], workers, w);
    }
  }
}
