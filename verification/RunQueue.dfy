/** The run queue of the kernel threads: a circular doubly linked list of tasks. */
module RunQueue {
  import opened Bits
  import opened BumpAllocator
  import opened Machine
  import opened RoundRobin
  import opened Sequences

  const STACK_SIZE: nat := 0x1000
  /** `sizeof(struct task_struct)`: 14 registers, `pid` with padding, three addresses, two links. */
  const TASK_SIZE: nat := 14 * 8 + 8 + 3 * 8 + 2 * 8

  class Task {
    var pid: int
    var stack: nat
    var ra: nat
    var sp: nat
    var prev: Task?
    var next: Task?
  }

  /** The links of the tasks form a ring in the order of the sequence. */
  ghost predicate Ring(s: seq<Task>)
    reads s
  {
    && (forall i {:trigger s[i].next} :: 0 <= i < |s| - 1 ==> s[i].next == s[i + 1])
    && (forall i {:trigger s[i].prev} :: 0 < i < |s| ==> s[i].prev == s[i - 1])
    && (s != [] ==> s[|s| - 1].next == s[0] && s[0].prev == s[|s| - 1])
  }

  class Scheduler {
    const heap: Heap
    var runQueue: Task?
    var current: Task?
    var nrThreads: int
    /** The tasks in the order of the ring, starting at the head. */
    ghost var tasks: seq<Task>

    ghost predicate Valid()
      reads this, tasks
    {
      && Distinct(tasks) && Ring(tasks)
      && (if tasks == [] then runQueue == null else runQueue == tasks[0])
      && (current != null ==> current in tasks)
    }

    /** Every created task is in the queue, exactly once: the process IDs in the queue are the
        numbers below `nrThreads`, each once. */
    ghost predicate AllQueued()
      reads this, tasks
    {
      && nrThreads == |tasks|
      && (forall t :: t in tasks ==> 0 <= t.pid < nrThreads)
      && (forall t, u :: t in tasks && u in tasks && t != u ==> t.pid != u.pid)
    }

    /** No two tasks in the queue share a stack page, and all pages lie below the bump pointer. */
    ghost predicate OwnStacks()
      reads this, tasks, heap
    {
      && (forall t :: t in tasks ==> t.stack + STACK_SIZE <= heap.curr)
      && (forall t, u :: t in tasks && u in tasks && t != u ==>
            t.stack + STACK_SIZE <= u.stack || u.stack + STACK_SIZE <= t.stack)
    }

    constructor (h: Heap)
      ensures Valid() && AllQueued() && OwnStacks() && tasks == [] && current == null && heap == h
    {
      heap := h;
      runQueue, current := null, null;
      nrThreads := 0;
      tasks := [];
    }

    /** `enqueue` on the run queue: push to the front. */
    method Enqueue(task: Task)
      requires Valid() && task !in tasks
      modifies this`runQueue, this`tasks, task`prev, task`next, tasks
      ensures Valid() && tasks == [task] + old(tasks) && unchanged(task`pid, task`stack, task`ra, task`sp)
      ensures forall t :: t in old(tasks) ==> t.pid == old(t.pid) && t.ra == old(t.ra)
      ensures forall t :: t in old(tasks) ==> t.stack == old(t.stack) && t.sp == old(t.sp)
    {
      if runQueue == null {
        runQueue := task;
        task.prev := task;
        task.next := task;
      } else {
        task.next := runQueue;
        task.prev := runQueue.prev;
        runQueue.prev.next := task;
        runQueue.prev := task;
        runQueue := task;
      }
      tasks := [task] + tasks;
    }

    /** The allocations of `kthread_create`. */
    method NewTask(threadFn: nat) returns (task: Task, ghost at: nat)
      requires heap.Valid()
      requires heap.curr + 0xf + TASK_SIZE + 2 * PAGE_SIZE < TWO_TO_THE_64
      modifies this`nrThreads, heap
      ensures heap.Valid() && fresh(task) && nrThreads == old(nrThreads) + 1
      ensures task.pid == old(nrThreads) && task.ra == threadFn && task.sp == task.stack + STACK_SIZE
      ensures heap.regions == old(heap.regions) + [Region(at, 160), Region(task.stack, 0x1000)]
      ensures old(heap.curr) <= at && at + TASK_SIZE <= task.stack && heap.curr == task.stack + STACK_SIZE
      ensures heap.curr <= old(heap.curr) + 0xf + TASK_SIZE + 2 * PAGE_SIZE
    {
      hide RoundUp, Aligned, Stacked, Pow2;
      var p := heap.KMalloc(TASK_SIZE);
      at := p;
      task := new Task;
      task.pid := nrThreads;
      nrThreads := nrThreads + 1;
      RoundUpIs(heap.curr, 12);
      Powers();
      RoundUpIs(old(heap.curr), 4);
      task.stack := heap.AllocPage();
      task.ra := threadFn;
      task.sp := task.stack + STACK_SIZE;
    }

    /** `kthread_create`: a task with the next process ID and a stack page of its own. */
    method KthreadCreate(threadFn: nat) returns (task: Task, ghost at: nat)
      requires Valid() && AllQueued() && heap.Valid()
      requires heap.curr + 0xf + TASK_SIZE + 2 * PAGE_SIZE < TWO_TO_THE_64
      modifies this, tasks, heap
      ensures Valid() && AllQueued() && heap.Valid() && fresh(task)
      ensures tasks == [task] + old(tasks) && current == old(current) && nrThreads == old(nrThreads) + 1
      ensures task.pid == old(nrThreads) && task.ra == threadFn && task.sp == task.stack + STACK_SIZE
      ensures heap.regions == old(heap.regions) + [Region(at, 160), Region(task.stack, 0x1000)]
      ensures old(heap.curr) <= at && at + TASK_SIZE <= task.stack && heap.curr == task.stack + STACK_SIZE
      ensures heap.curr <= old(heap.curr) + 0xf + TASK_SIZE + 2 * PAGE_SIZE
      ensures forall t :: t in old(tasks) ==> t.pid == old(t.pid) && t.ra == old(t.ra)
      ensures forall t :: t in old(tasks) ==> t.stack == old(t.stack) && t.sp == old(t.sp)
      ensures old(OwnStacks()) ==> OwnStacks()
    {
      hide Ring, Distinct, Stacked;
      task, at := NewTask(threadFn);
      Enqueue(task);
    }

    lemma QueuedCount()
      requires AllQueued()
      ensures nrThreads == |tasks|
    {
    }

    /** The write to the `tp` register. */
    method SetCurrent(task: Task)
      requires Valid() && task in tasks
      modifies this`current
      ensures Valid() && current == task && (old(AllQueued()) ==> AllQueued())
      ensures old(OwnStacks()) ==> OwnStacks()
    {
      current := task;
    }

    /** `start_kernel` up to its endless loop: the idle task is created and runs, then three
        threads are created. From here on `schedule` can be called. */
    method StartKernel(idle: nat, foo: nat)
      requires Valid() && AllQueued() && OwnStacks() && tasks == [] && current == null && heap.Valid()
      requires heap.curr + 4 * (0xf + TASK_SIZE + 2 * PAGE_SIZE) < TWO_TO_THE_64
      modifies this, heap
      ensures Valid() && AllQueued() && OwnStacks() && |tasks| == 4 && current == tasks[3]
      ensures forall i :: 0 <= i < 4 ==> tasks[i].pid == 3 - i && tasks[i].ra == if i == 3 then idle else foo
      ensures forall i :: 0 <= i < 4 ==> tasks[i].sp == tasks[i].stack + STACK_SIZE
      ensures forall i, j :: 0 <= i < j < 4 ==> tasks[i].stack != tasks[j].stack
    {
      hide Valid, Heap.Valid, AllQueued, OwnStacks;
      QueuedCount();
      ghost var at: nat;
      var task;
      task, at := KthreadCreate(idle);
      SetCurrent(task);
      var i := 0;
      while i < 3
        invariant 0 <= i <= 3 && Valid() && AllQueued() && OwnStacks() && heap.Valid() && fresh(tasks)
        invariant heap.curr + (3 - i) * (0xf + TASK_SIZE + 2 * PAGE_SIZE) < TWO_TO_THE_64
        invariant nrThreads == |tasks| == i + 1 && current == tasks[i]
        invariant forall k :: 0 <= k <= i ==> tasks[k].sp == tasks[k].stack + STACK_SIZE
        invariant forall k :: 0 <= k <= i ==> tasks[k].pid == i - k && tasks[k].ra == if k == i then idle else foo
      {
        task, at := KthreadCreate(foo);
        i := i + 1;
      }
      StacksDiffer();
    }

    lemma StacksDiffer()
      requires Valid() && OwnStacks()
      ensures forall i, j :: 0 <= i < j < |tasks| ==> tasks[i].stack != tasks[j].stack
    {
    }

    /** The running task leaves the ring. */
    method Unlink(task: Task, ghost k: nat)
      requires Distinct(tasks) && Ring(tasks) && 0 < k < |tasks| && tasks[k] == task
      modifies this`tasks, tasks
      ensures tasks == old(tasks)[..k] + old(tasks)[k + 1..]
      ensures Distinct(tasks) && Ring(tasks)
      ensures forall t :: t in old(tasks) ==> t.pid == old(t.pid) && t.ra == old(t.ra)
      ensures forall t :: t in old(tasks) ==> t.stack == old(t.stack) && t.sp == old(t.sp)
    {
      task.next.prev := task.prev;
      task.prev.next := task.next;
      tasks := tasks[..k] + tasks[k + 1..];
    }

    /** A task is linked in before the head, which makes it the last one. */
    method PushBack(task: Task)
      requires Distinct(tasks) && Ring(tasks) && task !in tasks && tasks != [] && runQueue == tasks[0]
      modifies this`tasks, tasks, task`prev, task`next
      ensures tasks == old(tasks) + [task] && runQueue == tasks[0]
      ensures Distinct(tasks) && Ring(tasks)
      ensures forall t :: t in old(tasks) ==> t.pid == old(t.pid) && t.ra == old(t.ra)
      ensures forall t :: t in old(tasks) ==> t.stack == old(t.stack) && t.sp == old(t.sp)
    {
      task.next := runQueue;
      task.prev := runQueue.prev;
      runQueue.prev.next := task;
      runQueue.prev := task;
      tasks := tasks + [task];
    }

    /** The queue part of `schedule`: at the head the queue just moves on by one task,
        elsewhere the running task is unlinked and linked in again at the back. */
    method Requeue(prev: Task)
      requires Valid() && prev in tasks
      modifies this`runQueue, this`tasks, tasks
      ensures tasks == MoveToBack(old(tasks), prev) && tasks != [] && runQueue == tasks[0]
      ensures Distinct(tasks) && Ring(tasks)
      ensures forall t :: t in old(tasks) ==> t.pid == old(t.pid) && t.ra == old(t.ra)
      ensures forall t :: t in old(tasks) ==> t.stack == old(t.stack) && t.sp == old(t.sp)
    {
      hide Without, Distinct, Ring;
      ghost var k :| 0 <= k < |tasks| && tasks[k] == prev;
      ghost var before := tasks;
      WithoutAt(tasks, k);
      HeadIs(before, k);
      if prev == runQueue {
        runQueue := prev.next;
        RotateRing(tasks);
        tasks := tasks[1..] + [prev];
      } else {
        Unlink(prev, k);
        PushBack(prev);
      }
    }

    /** `schedule`: the running task goes to the back and the head of the queue runs next. */
    method Schedule()
      requires Valid() && current != null
      modifies this`runQueue, this`current, this`tasks, tasks
      ensures Valid() && current != null
      ensures Sched(tasks, current as Task) == RoundRobin.Schedule(Sched(old(tasks), old(current) as Task))
      ensures forall t :: t in old(tasks) ==> t.pid == old(t.pid) && t.ra == old(t.ra)
      ensures forall t :: t in old(tasks) ==> t.stack == old(t.stack) && t.sp == old(t.sp)
      ensures old(AllQueued()) ==> AllQueued()
      ensures old(OwnStacks()) ==> OwnStacks()
    {
      hide MoveToBack, Ring, Distinct;
      var prev: Task := current;
      ghost var before := tasks;
      Requeue(prev);
      MoveToBackKeeps(before, prev);
      assert forall t :: t in tasks ==> t in before;
      assert |tasks| == |before|;
      current := runQueue;
    }
  }

  lemma HeadIs(s: seq<Task>, k: nat)
    requires Distinct(s) && k < |s|
    ensures s[k] == s[0] <==> k == 0
    ensures s[k] !in s[..k] + s[k + 1..]
  {
  }

  lemma RotateRing(s: seq<Task>)
    requires Distinct(s) && Ring(s) && s != []
    ensures Distinct(s[1..] + [s[0]]) && Ring(s[1..] + [s[0]])
    ensures s[0].next == (s[1..] + [s[0]])[0]
  {
  }
}
