/** Fairness of the task list: who runs between two turns of the same task, in any mix of switches and forks. */
module RoundRobin {
  import opened Tasks

  /** A list of `n` tasks, the one at place `cur` running. */
  datatype Ring = Ring(n: nat, cur: nat)

  /** A timer tick runs switch_task; a fork appends a task. */
  datatype Event = Tick | Fork

  /** What Scheduler.SwitchTask and Scheduler.Enqueue do to the length of the list and the place in it. */
  function Next(s: Ring, e: Event): Ring {
    match e
    case Tick => if s.n <= 1 then s else s.(cur := NextIndex(s.cur, s.n))
    case Fork => s.(n := s.n + 1)
  }

  ghost predicate Run(ss: seq<Ring>, es: seq<Event>) {
    && |ss| == |es| + 1 && ss[0].cur < ss[0].n
    && forall i, j :: 0 <= i < |es| && j == i + 1 ==> ss[j] == Next(ss[i], es[i])
  }

  /** The tick at time `t` switches to another task. */
  predicate Activates(ss: seq<Ring>, es: seq<Event>, t: nat)
    requires |ss| == |es| + 1 && t < |es|
  {
    es[t] == Tick && ss[t].n > 1
  }

  /** How often task `j` is switched to at the times from .. to-1. */
  function Turns(ss: seq<Ring>, es: seq<Event>, from: nat, to: nat, j: nat): nat
    requires |ss| == |es| + 1 && from <= to <= |es|
  {
    if from == to then 0
    else Turns(ss, es, from, to - 1, j) + (if Activates(ss, es, to - 1) && ss[to].cur == j then 1 else 0)
  }

  lemma {:induction false} RunShape(ss: seq<Ring>, es: seq<Event>, i: nat, j: nat)
    requires Run(ss, es) && i <= j < |ss|
    ensures ss[j].cur < ss[j].n && ss[i].n <= ss[j].n
    decreases j
  {
    if i < j {
      RunShape(ss, es, i, j - 1);
    } else if j > 0 {
      RunShape(ss, es, j - 1, j - 1);
    }
    if j > 0 {
      assert ss[j] == Next(ss[j - 1], es[j - 1]);
    }
  }

  /** Turns of task `j` since task `a` was switched to, as long as `a` itself has not had another one. */
  lemma {:induction false} Progress(ss: seq<Ring>, es: seq<Event>, from: nat, a: nat, j: nat, u: nat)
    requires Run(ss, es) && from <= u <= |es| && ss[from].cur == a && j != a
    requires Turns(ss, es, from, u, a) == 0
    ensures var c, k := ss[u].cur, Turns(ss, es, from, u, j);
            if c >= a then k == (if a < j <= c then 1 else 0)
            else if j <= c then k == 1
            else if j < a then k == 0
            else k <= 1 && (j < ss[from].n ==> k == 1)
    decreases u
  {
    if from < u {
      Progress(ss, es, from, a, j, u - 1);
      assert ss[u] == Next(ss[u - 1], es[u - 1]);
      RunShape(ss, es, from, u - 1);
      RunShape(ss, es, 0, from);
    }
  }

  /**
   * Between two successive turns of task `a`, every other task that was in the list at the first of
   * them gets exactly one turn, and no task gets two.
   */
  lemma Fair(ss: seq<Ring>, es: seq<Event>, first: nat, second: nat, a: nat, j: nat)
    requires Run(ss, es) && first < second < |es| && j != a
    requires Activates(ss, es, first) && ss[first + 1].cur == a
    requires Activates(ss, es, second) && ss[second + 1].cur == a
    requires Turns(ss, es, first + 1, second, a) == 0
    ensures Turns(ss, es, first + 1, second, j) <= 1
    ensures j < ss[first].n ==> Turns(ss, es, first + 1, second, j) == 1
  {
    Progress(ss, es, first + 1, a, j, second);
    RunShape(ss, es, first, first + 1);
    RunShape(ss, es, first + 1, second);
    assert ss[second + 1] == Next(ss[second], es[second]);
  }

  ghost function RingOf(s: Scheduler): Ring
    reads s
  {
    Ring(|s.queue|, s.pos)
  }

  /** The task list takes such steps, and keeps the tasks it has in their places. */
  method Perform(s: Scheduler, e: Event, eip: int, esp: int, ebp: int, directory: int)
    requires s.Valid() && eip != SENTINEL
    modifies s, s.queue
    ensures s.Valid() && RingOf(s) == Next(old(RingOf(s)), e) && old(s.queue) <= s.queue
  {
    match e
    case Tick => var jump, to := s.SwitchTask(eip, esp, ebp);
    case Fork => var task := s.Enqueue(directory);
  }
}
