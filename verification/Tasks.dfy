/** The task list of src/process/task.c: current_task, ready_queue, next_pid and current_directory. */
module Tasks {
  const SENTINEL := 0x12345

  datatype Context = Context(eip: int, esp: int, ebp: int)

  class Task {
    const id: int
    var saved: Context
    const directory: int
    var next: Task?

    /** A task as initialise_tasking and fork make it: no context yet, no successor. */
    constructor (id: int, directory: int)
      ensures this.id == id && this.directory == directory && saved == Context(0, 0, 0) && next == null
    {
      this.id, this.directory, saved, next := id, directory, Context(0, 0, 0), null;
    }
  }

  /** Each task points to the next; the last one to nothing. */
  ghost predicate Linked(q: seq<Task>)
    reads q`next
  {
    && (forall i, j :: 0 <= i < |q| && j == i + 1 < |q| ==> q[i].next == q[j])
    && (|q| > 0 ==> q[|q| - 1].next == null)
  }

  /** Ids go up along the list, so no task is in it twice. */
  ghost predicate Increasing(q: seq<Task>) {
    forall i, j :: 0 <= i < j < |q| ==> q[i].id < q[j].id
  }

  /** Round robin: the next place in a list of `n`, starting over at its end. */
  function NextIndex(i: nat, n: nat): nat {
    if i + 1 == n then 0 else i + 1
  }

  lemma Ring(q: seq<Task>, i: nat)
    requires Linked(q) && Increasing(q) && i < |q|
    ensures q[i].next == if i + 1 < |q| then q[i + 1] else null
    ensures q[i] == q[0] <==> i == 0
    ensures forall j :: 0 <= j < |q| && q[j] == q[i] ==> j == i
  {
  }

  class Scheduler {
    var current: Task
    var readyQueue: Task
    var nextPid: int
    var currentDirectory: int
    /** The list from readyQueue to its end, and where current_task stands in it. */
    ghost var queue: seq<Task>
    ghost var pos: nat

    ghost predicate Valid()
      reads this, queue`next
    {
      && pos < |queue| && queue[0] == readyQueue && queue[pos] == current
      && Linked(queue) && Increasing(queue)
      && (forall i :: 0 <= i < |queue| ==> queue[i].id < nextPid)
      && currentDirectory == current.directory
    }

    /** initialise_tasking, with next_pid and current_directory as it finds them. */
    constructor (pid: int, directory: int)
      ensures Valid() && fresh(current) && queue == [current] && pos == 0
      ensures current.id == pid && nextPid == pid + 1 && currentDirectory == directory
    {
      var root := new Task(pid, directory);
      current, readyQueue := root, root;
      nextPid, currentDirectory := pid + 1, directory;
      queue, pos := [root], 0;
    }

    /**
     * switch_task, called with interrupts off.  `eip` is what read_eip returned: its own return
     * address, or the sentinel when the task has just been resumed.  The result is the context
     * that is jumped to, if one is.
     */
    method SwitchTask(eip: int, esp: int, ebp: int) returns (jump: bool, to: Context)
      requires Valid()
      modifies this`current, this`currentDirectory, this`pos, queue`saved
      ensures Valid() && queue == old(queue)
      ensures jump <==> |queue| > 1 && eip != SENTINEL
      ensures !jump ==> pos == old(pos) && current == old(current) && current.saved == old(current.saved)
      ensures jump ==>
                && pos == NextIndex(old(pos), |queue|)
                && to == current.saved == old(queue[NextIndex(pos, |queue|)].saved)
                && old(current).saved == Context(eip, esp, ebp)
      ensures forall i :: 0 <= i < |queue| && (i != old(pos) || !jump) ==> queue[i].saved == old(queue[i].saved)
    {
      to := current.saved;
      hide Linked, Increasing;
      ghost var target := queue[NextIndex(pos, |queue|)];
      Ring(queue, pos);
      if current == readyQueue && current.next == null {
        return false, to;
      }
      assert |queue| > 1;
      if eip == SENTINEL {
        return false, to;
      }
      current.saved := Context(eip, esp, ebp);
      var next := current.next;
      if next == null {
        current := readyQueue;
        pos := 0;
      } else {
        current := next;
        pos := pos + 1;
      }
      assert current == target;
      to := current.saved;
      currentDirectory := current.directory;
      jump := true;
    }

    /** Lines 168-179 of fork: a new task at the end of the list. */
    method Enqueue(directory: int) returns (task: Task)
      requires Valid()
      modifies this`nextPid, this`queue, queue`next
      ensures Valid() && fresh(task) && queue == old(queue) + [task] && pos == old(pos) && current == old(current)
      ensures task.id == old(nextPid) && nextPid == old(nextPid) + 1 && task.directory == directory
      ensures task.saved == Context(0, 0, 0)
    {
      task := new Task(nextPid, directory);
      nextPid := nextPid + 1;
      var last := readyQueue;
      ghost var i := 0;
      while last.next != null
        invariant i < |queue| && last == queue[i] && Linked(queue)
        invariant i + 1 < |queue| ==> last.next == queue[i + 1]
        decreases |queue| - i
      {
        last := last.next;
        i := i + 1;
      }
      assert i == |queue| - 1;
      last.next := task;
      queue := queue + [task];
      assert forall k :: 0 <= k < i ==> queue[k] != last;
    }

    method GetPid() returns (id: int)
      requires Valid()
      ensures id == queue[pos].id
    {
      id := current.id;
    }
  }
}
