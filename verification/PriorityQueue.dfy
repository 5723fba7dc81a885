/** The task scheduler's priority queue: a min-heap kept in place in an array of 64 tasks. */
module PriorityQueueModel {
  import opened Heap
  import opened Wrappers

  const MAX_PRIORITY_TASKS: nat := 64

  /** The callback and its argument are addresses. */
  datatype PriorityTask = PriorityTask(taskId: int, priority: int, deadlineMs: int, fn: int, arg: int) {
    function Body(): Job {
      Job(priority, deadlineMs, fn, arg)
    }
  }

  /** A task without its id, which only records the slot it was first stored in. */
  datatype Job = Job(priority: int, deadlineMs: int, fn: int, arg: int)

  function Jobs(tasks: seq<PriorityTask>): (r: seq<Job>)
    ensures |r| == |tasks|
  {
    seq(|tasks|, i requires 0 <= i < |tasks| => tasks[i].Body())
  }

  function Keys(jobs: seq<Job>): (r: seq<real>)
    ensures |r| == |jobs|
  {
    seq(|jobs|, i requires 0 <= i < |jobs| => jobs[i].priority as real)
  }

  /** Adding a job, and removing one of least priority value. */
  ghost predicate Pushed(before: multiset<Job>, job: Job, after: multiset<Job>) {
    |before| < 64 && after == before + multiset{job}
  }

  ghost predicate Popped(before: multiset<Job>, job: Job, after: multiset<Job>) {
    && job in before && after == before - multiset{job}
    && forall other :: other in before ==> job.priority <= other.priority
  }

  class PriorityQueue {
    const tasks: array<PriorityTask>
    var size: int

    ghost predicate Valid()
      reads this, tasks
    {
      tasks.Length == MAX_PRIORITY_TASKS && 0 <= size <= tasks.Length && IsHeap(Keys(Jobs(tasks[..size])))
    }

    ghost function Contents(): multiset<Job>
      reads this, tasks
      requires 0 <= size <= tasks.Length
    {
      multiset(Jobs(tasks[..size]))
    }

    constructor ()
      ensures Valid() && Contents() == multiset{} && fresh(tasks)
    {
      tasks := new PriorityTask[MAX_PRIORITY_TASKS](_ => PriorityTask(0, 0, 0, 0, 0));
      size := 0;
    }

    method Push(priority: int, deadlineMs: int, fn: int, arg: int) returns (status: int)
      requires Valid()
      modifies this, tasks
      ensures Valid()
      ensures status == -1 ==> |old(Contents())| == 64 && Contents() == old(Contents())
      ensures status != -1 ==> status == 0 && Pushed(old(Contents()), Job(priority, deadlineMs, fn, arg), Contents())
      ensures status == 0 ==>
                exists i :: 0 <= i < size <= tasks.Length && tasks[i] == PriorityTask(i, priority, deadlineMs, fn, arg)
                            && Stored(old(tasks[..size]), tasks[..size], i, tasks[i])
    {
      hide Keys;
      hide Jobs;
      hide IsHeap;
      hide HoleAt, Held, Stored;
      ghost var job, before, queue := Job(priority, deadlineMs, fn, arg), Jobs(tasks[..size]), tasks[..size];
      JobCount(tasks[..size]);
      if size >= MAX_PRIORITY_TASKS {
        return -1;
      }
      var i := size;
      size := size + 1;
      assert tasks[..size][..i] == tasks[..i];
      HoleAtEnd(tasks[..size], before, job);
      HeldAtEnd(tasks[..size], queue, priority);
      i := MoveHole(priority, before, job, queue);
      var task := PriorityTask(i, priority, deadlineMs, fn, arg);
      HoleFits(tasks[..size], i, before, job, task);
      HeldFits(tasks[..size], i, queue, task);
      ghost var next := tasks[..size][i := task];
      tasks[i] := task;
      assert tasks[..size] == next;
      status := 0;
    }

    /** The loop of pq_push: tasks that are less urgent move down into the hole. */
    method MoveHole(priority: int, ghost before: seq<Job>, ghost job: Job, ghost queue: seq<PriorityTask>)
      returns (i: nat)
      requires tasks.Length == MAX_PRIORITY_TASKS && 0 < size <= tasks.Length && job.priority == priority
      requires HoleAt(tasks[..size], size - 1, before, job) && Held(tasks[..size], size - 1, queue, priority)
      modifies tasks
      ensures i < size && HoleAt(tasks[..size], i, before, job) && Held(tasks[..size], i, queue, priority)
      ensures i == 0 || tasks[Parent(i)].priority <= priority
    {
      hide HoleAt, Held, Keys, Jobs;
      i := size - 1;
      while i > 0
        invariant i < size && HoleAt(tasks[..size], i, before, job) && Held(tasks[..size], i, queue, priority)
      {
        var parent := (i - 1) / 2;
        if tasks[parent].priority <= priority {
          break;
        }
        RaiseHole(tasks[..size], i, before, job);
        RaiseHeld(tasks[..size], i, queue, priority);
        ghost var next := tasks[..size][i := tasks[parent]];
        tasks[i] := tasks[parent];
        assert tasks[..size] == next;
        i := parent;
      }
    }

    method Pop() returns (status: int, out: Option<PriorityTask>)
      requires Valid()
      modifies this, tasks
      ensures Valid()
      ensures old(Contents()) == multiset{} ==> status == -1 && out == None && Contents() == multiset{}
      ensures old(Contents()) != multiset{} ==>
                status == 0 && out == Some(old(tasks[0])) && Popped(old(Contents()), out.value.Body(), Contents())
                && multiset(tasks[..size]) == old(multiset(tasks[..size])) - multiset{out.value}
    {
      if size == 0 {
        assert Jobs(tasks[..size]) == [];
        return -1, None;
      }
      status, out := 0, Some(tasks[0]);
      SmallestFirst(Jobs(tasks[..size]));
      RemoveFirst(tasks[..size]);
      hide Popped, IsHeap, Keys;
      RemoveRoot();
    }

    /** The rest of pq_pop: the last task takes the place of the first and sinks. */
    method RemoveRoot()
      requires Valid() && size > 0
      modifies this, tasks
      ensures Valid() && Contents() == old(Contents()) - multiset{old(tasks[0]).Body()}
      ensures multiset(tasks[..size]) == old(multiset(tasks[..size])) - multiset{old(tasks[0])}
    {
      hide SiftingDown, Keys, Jobs, IsHeap;
      ghost var before := tasks[..size];
      RemoveFirst(before);
      RestOf(before);
      size := size - 1;
      if size > 0 {
        MoveLastToRoot();
        SiftDown();
      } else {
        assert tasks[..size] == [];
      }
    }

    method MoveLastToRoot()
      requires 0 < size < tasks.Length
      modifies tasks
      ensures tasks[..size] == old(tasks[..size][0 := tasks[size]])
      ensures old(tasks[..size + 1])[..size] == old(tasks[..size])
    {
      tasks[0] := tasks[size];
    }

    /** The smallest of a task and its children. */
    method SmallestOf(i: nat) returns (smallest: nat)
      requires tasks.Length == MAX_PRIORITY_TASKS && i < size <= tasks.Length
      ensures Chosen(Keys(Jobs(tasks[..size])), i, smallest)
    {
      smallest := i;
      var l, r := 2 * i + 1, 2 * i + 2;
      if l < size && tasks[l].priority < tasks[smallest].priority {
        smallest := l;
      }
      if r < size && tasks[r].priority < tasks[smallest].priority {
        smallest := r;
      }
    }

    /** The loop of pq_pop that moves the new root down. */
    method SiftDown()
      requires tasks.Length == MAX_PRIORITY_TASKS && 0 < size <= tasks.Length
      requires SiftingDown(Keys(Jobs(tasks[..size])), 0)
      modifies tasks
      ensures Valid() && Contents() == old(Contents()) && multiset(tasks[..size]) == old(multiset(tasks[..size]))
    {
      hide SiftingDown;
      hide Chosen;
      hide Keys;
      hide Jobs;
      hide IsHeap;
      var i := 0;
      while true
        invariant 0 <= i < size && SiftingDown(Keys(Jobs(tasks[..size])), i)
        invariant multiset(Jobs(tasks[..size])) == old(multiset(Jobs(tasks[..size])))
        invariant multiset(tasks[..size]) == old(multiset(tasks[..size]))
        decreases size - i
      {
        var smallest := SmallestOf(i);
        LowerTask(tasks[..size], i, smallest);
        if smallest == i {
          break;
        }
        SwapKeepsContents(tasks[..size], i, smallest);
        ghost var next := Swapped(tasks[..size], i, smallest);
        tasks[i], tasks[smallest] := tasks[smallest], tasks[i];
        assert tasks[..size] == next;
        i := smallest;
      }
    }
  }

  lemma JobCount(tasks: seq<PriorityTask>)
    ensures |multiset(Jobs(tasks))| == |tasks|
  {
  }

  lemma JobsUpdate(tasks: seq<PriorityTask>, i: nat, t: PriorityTask)
    requires i < |tasks|
    ensures |Jobs(tasks)| == |tasks| && Jobs(tasks[i := t]) == Jobs(tasks)[i := t.Body()]
  {
  }

  /** With the new job in the hole at i, the tasks are a heap except upward from i, and nothing else changed. */
  ghost predicate HoleAt(tasks: seq<PriorityTask>, i: nat, before: seq<Job>, job: Job) {
    && i < |tasks| == |Jobs(tasks)|
    && SiftingUp(Keys(Jobs(tasks)[i := job]), i)
    && multiset(Jobs(tasks)[i := job]) == multiset(before) + multiset{job}
  }

  const NO_TASK := PriorityTask(0, 0, 0, 0, 0)

  /** Apart from the hole at i the queue is held unchanged, tasks of at most this priority value in their slots. */
  ghost predicate Held(tasks: seq<PriorityTask>, i: nat, queue: seq<PriorityTask>, priority: int) {
    && i < |tasks| == |queue| + 1
    && multiset(tasks[i := NO_TASK]) == multiset(queue) + multiset{NO_TASK}
    && (forall j :: 0 <= j < |queue| && queue[j].priority <= priority ==> j != i && tasks[j] == queue[j])
  }

  /**
   The new task has joined the queue: every other one is still there with its id, and in the slot where it was
   unless it is less urgent than the new one.
   */
  ghost predicate Stored(queue: seq<PriorityTask>, tasks: seq<PriorityTask>, i: nat, t: PriorityTask) {
    && i < |tasks| == |queue| + 1 && tasks[i] == t
    && multiset(tasks) == multiset(queue) + multiset{t}
    && (forall j :: 0 <= j < |queue| && queue[j].priority <= t.priority ==> tasks[j] == queue[j])
  }

  lemma HeldAtEnd(tasks: seq<PriorityTask>, queue: seq<PriorityTask>, priority: int)
    requires |tasks| > 0 && queue == tasks[..|tasks| - 1]
    ensures Held(tasks, |tasks| - 1, queue, priority)
  {
    assert tasks[|queue| := NO_TASK] == queue + [NO_TASK];
  }

  lemma RaiseHeld(tasks: seq<PriorityTask>, i: nat, queue: seq<PriorityTask>, priority: int)
    requires 0 < i < |tasks| && Held(tasks, i, queue, priority) && tasks[Parent(i)].priority > priority
    ensures Held(tasks[i := tasks[Parent(i)]], Parent(i), queue, priority)
  {
    var p := Parent(i);
    var hollow := tasks[i := NO_TASK];
    SwapKeepsContents(hollow, i, p);
    assert tasks[i := tasks[p]][p := NO_TASK] == Swapped(hollow, i, p);
  }

  lemma HeldFits(tasks: seq<PriorityTask>, i: nat, queue: seq<PriorityTask>, t: PriorityTask)
    requires Held(tasks, i, queue, t.priority)
    ensures Stored(queue, tasks[i := t], i, t)
  {
    var hollow := tasks[i := NO_TASK];
    assert tasks[i := t] == hollow[i := t];
    FilledIn(hollow, i, t, multiset(queue));
    hide NO_TASK;
  }

  lemma FilledIn<T>(s: seq<T>, i: nat, t: T, rest: multiset<T>)
    requires i < |s| && multiset(s) == rest + multiset{s[i]}
    ensures multiset(s[i := t]) == rest + multiset{t}
  {
    assert multiset(s[i := t]) == multiset(s) - multiset{s[i]} + multiset{t};
  }

  lemma HoleAtEnd(tasks: seq<PriorityTask>, before: seq<Job>, job: Job)
    requires |tasks| > 0 && before == Jobs(tasks[..|tasks| - 1]) && IsHeap(Keys(before))
    ensures HoleAt(tasks, |tasks| - 1, before, job)
  {
    var jobs := Jobs(tasks)[|before| := job];
    assert jobs == before + [job];
    var k, k' := Keys(before), Keys(jobs);
    forall j | 1 <= j < |before|
      ensures k'[Parent(j)] <= k'[j]
    {
      assert k[Parent(j)] <= k[j];
    }
  }

  lemma RaiseHole(tasks: seq<PriorityTask>, i: nat, before: seq<Job>, job: Job)
    requires 0 < i < |tasks| && HoleAt(tasks, i, before, job) && tasks[Parent(i)].priority > job.priority
    ensures HoleAt(tasks[i := tasks[Parent(i)]], Parent(i), before, job)
  {
    hide SiftingUp;
    var p, jobs := Parent(i), Jobs(tasks)[i := job];
    JobsUpdate(tasks, i, tasks[p]);
    assert Jobs(tasks[i := tasks[p]])[p := job] == Swapped(jobs, i, p);
    SwapKeepsContents(jobs, i, p);
    SiftUpStep(Keys(jobs), i);
    assert Keys(Swapped(jobs, i, p)) == Swapped(Keys(jobs), i, p);
  }

  lemma HoleFits(tasks: seq<PriorityTask>, i: nat, before: seq<Job>, job: Job, t: PriorityTask)
    requires i < |tasks| && HoleAt(tasks, i, before, job) && t.Body() == job
    requires i == 0 || tasks[Parent(i)].priority <= job.priority
    ensures IsHeap(Keys(Jobs(tasks[i := t])))
    ensures multiset(Jobs(tasks[i := t])) == multiset(before) + multiset{job}
  {
    hide SiftingUp;
    JobsUpdate(tasks, i, t);
    SiftUpDone(Keys(Jobs(tasks)[i := job]), i);
  }

  lemma SmallestFirst(jobs: seq<Job>)
    requires IsHeap(Keys(jobs)) && |jobs| > 0
    ensures Popped(multiset(jobs), jobs[0], multiset(jobs) - multiset{jobs[0]})
  {
    forall other | other in multiset(jobs)
      ensures jobs[0].priority <= other.priority
    {
      var i :| 0 <= i < |jobs| && jobs[i] == other;
      RootIsSmallest(Keys(jobs), i);
    }
  }

  lemma MoveLast<T>(s: seq<T>)
    requires |s| >= 2
    ensures multiset(s[..|s| - 1][0 := s[|s| - 1]]) == multiset(s) - multiset{s[0]}
  {
    var n := |s| - 1;
    assert s[..n][0 := s[n]] == [s[n]] + s[1..n];
    assert s == [s[0]] + s[1..n] + [s[n]];
  }

  lemma RestOf(tasks: seq<PriorityTask>)
    requires |tasks| > 0
    ensures |tasks| == 1 ==> multiset{} == multiset(tasks) - multiset{tasks[0]}
    ensures |tasks| > 1 ==>
              multiset(tasks[..|tasks| - 1][0 := tasks[|tasks| - 1]]) == multiset(tasks) - multiset{tasks[0]}
  {
    if |tasks| > 1 { MoveLast(tasks); } else { assert tasks == [tasks[0]]; }
  }

  /** The last task takes the place of the first. */
  lemma RemoveFirst(tasks: seq<PriorityTask>)
    requires IsHeap(Keys(Jobs(tasks))) && |tasks| > 0
    ensures |Jobs(tasks)| == |tasks| && Jobs(tasks)[0] == tasks[0].Body()
    ensures |tasks| == 1 ==>
              multiset(Jobs(tasks)) - multiset{tasks[0].Body()} == multiset(Jobs([])) && IsHeap(Keys(Jobs([])))
    ensures |tasks| > 1 ==> var moved := Jobs(tasks[..|tasks| - 1][0 := tasks[|tasks| - 1]]);
                            SiftingDown(Keys(moved), 0)
                            && multiset(moved) == multiset(Jobs(tasks)) - multiset{tasks[0].Body()}
  {
    var n, jobs := |tasks| - 1, Jobs(tasks);
    if n > 0 {
      var moved := Jobs(tasks[..n][0 := tasks[n]]);
      assert moved == jobs[..n][0 := jobs[n]];
      MoveLast(jobs);
      LooseRoot(jobs);
    } else {
      assert jobs == [tasks[0].Body()] && Jobs([]) == [];
    }
  }

  lemma LooseRoot(jobs: seq<Job>)
    requires IsHeap(Keys(jobs)) && |jobs| > 1
    ensures SiftingDown(Keys(jobs[..|jobs| - 1][0 := jobs[|jobs| - 1]]), 0)
  {
    var k, k' := Keys(jobs), Keys(jobs[..|jobs| - 1][0 := jobs[|jobs| - 1]]);
    forall j | 1 <= j < |k'| && Parent(j) != 0
      ensures k'[Parent(j)] <= k'[j]
    {
      assert k[Parent(j)] <= k[j];
    }
  }

  /** One turn of the loop: the smallest of a task and its children moves up, or the heap is in order. */
  lemma LowerTask(tasks: seq<PriorityTask>, i: nat, smallest: nat)
    requires i < |tasks| && SiftingDown(Keys(Jobs(tasks)), i) && Chosen(Keys(Jobs(tasks)), i, smallest)
    ensures smallest < |tasks|
    ensures smallest == i ==> IsHeap(Keys(Jobs(tasks)))
    ensures smallest != i ==> i < smallest && SiftingDown(Keys(Jobs(Swapped(tasks, i, smallest))), smallest)
    ensures multiset(Jobs(Swapped(tasks, i, smallest))) == multiset(Jobs(tasks))
  {
    hide SiftingDown;
    var jobs := Jobs(tasks);
    ChosenIsSmallest(Keys(jobs), i, smallest);
    hide Chosen;
    assert Jobs(Swapped(tasks, i, smallest)) == Swapped(jobs, i, smallest);
    assert Keys(Swapped(jobs, i, smallest)) == Swapped(Keys(jobs), i, smallest);
    SwapKeepsContents(jobs, i, smallest);
    if smallest == i {
      SiftDownDone(Keys(jobs), i);
    } else {
      SiftDownStep(Keys(jobs), i, smallest);
    }
  }

  // ---------- Whole runs ----------

  datatype Step = Push(job: Job) | Pop(job: Job)

  /** The contents before and after every step of a run of successful calls. */
  ghost predicate Run(steps: seq<Step>, contents: seq<multiset<Job>>) {
    |contents| == |steps| + 1 && forall i :: 0 <= i < |steps| ==> StepTo(steps[i], contents[i], contents[i + 1])
  }

  ghost predicate StepTo(s: Step, before: multiset<Job>, after: multiset<Job>) {
    match s
    case Push(job) => Pushed(before, job, after)
    case Pop(job) => Popped(before, job, after)
  }

  function PushedJobs(steps: seq<Step>): multiset<Job> {
    if |steps| == 0 then multiset{}
    else PushedJobs(steps[..|steps| - 1])
         + (if steps[|steps| - 1].Push? then multiset{steps[|steps| - 1].job} else multiset{})
  }

  function PoppedJobs(steps: seq<Step>): multiset<Job> {
    if |steps| == 0 then multiset{}
    else PoppedJobs(steps[..|steps| - 1])
         + (if steps[|steps| - 1].Pop? then multiset{steps[|steps| - 1].job} else multiset{})
  }

  /** No task is lost, duplicated or changed by any run. */
  lemma {:induction false} RunConserves(steps: seq<Step>, contents: seq<multiset<Job>>)
    requires Run(steps, contents)
    ensures contents[0] + PushedJobs(steps) == contents[|steps|] + PoppedJobs(steps)
  {
    hide StepTo;
    if |steps| > 0 {
      var n := |steps| - 1;
      RunConserves(steps[..n], contents[..n + 1]);
      ConserveStep(contents[0], PushedJobs(steps[..n]), PoppedJobs(steps[..n]), contents[n], contents[n + 1], steps[n]);
    }
  }

  lemma ConserveStep(start: multiset<Job>, pushed: multiset<Job>, popped: multiset<Job>,
                     mid: multiset<Job>, after: multiset<Job>, s: Step)
    requires start + pushed == mid + popped && StepTo(s, mid, after)
    ensures start + (pushed + (if s.Push? then multiset{s.job} else multiset{}))
         == after + (popped + (if s.Pop? then multiset{s.job} else multiset{}))
  {
    if s.Pop? {
      assert mid == after + multiset{s.job};
      assert start + (pushed + multiset{}) == start + pushed;
      assert after + (popped + multiset{s.job}) == after + multiset{s.job} + popped;
    } else {
      assert start + (pushed + multiset{s.job}) == start + pushed + multiset{s.job};
      assert after + (popped + multiset{}) == mid + popped + multiset{s.job};
    }
  }

  /** While only popping, the queue shrinks. */
  lemma {:induction false} DrainShrinks(steps: seq<Step>, contents: seq<multiset<Job>>, i: nat, j: nat)
    requires Run(steps, contents) && i <= j <= |steps|
    requires forall k :: i <= k < j ==> steps[k].Pop?
    ensures contents[j] <= contents[i]
    decreases j - i
  {
    if i < j {
      DrainShrinks(steps, contents, i, j - 1);
      assert StepTo(steps[j - 1], contents[j - 1], contents[j]);
    }
  }

  /** Consecutive pops of any run come out in order of priority. */
  lemma DrainIsSorted(steps: seq<Step>, contents: seq<multiset<Job>>, i: nat, j: nat)
    requires Run(steps, contents) && i <= j < |steps|
    requires forall k :: i <= k <= j ==> steps[k].Pop?
    ensures steps[i].job.priority <= steps[j].job.priority
  {
    DrainShrinks(steps, contents, i, j);
    assert StepTo(steps[i], contents[i], contents[i + 1]) && StepTo(steps[j], contents[j], contents[j + 1]);
    assert steps[j].job in contents[i];
  }
}
