/** The linked list of Tasks and the machine of Interleaving go through the same task lists. */
module TaskSteps {
  import opened Tasks
  import opened Interleaving

  /** Same tasks in the same order, the same one running, the same next id and address space. */
  ghost predicate Mirrors(sch: Scheduler, s: State)
    reads sch, sch.queue
  {
    && |s.tasks| == |sch.queue| && s.cur == sch.pos && s.nextPid == sch.nextPid && s.dir == sch.currentDirectory
    && forall i :: 0 <= i < |s.tasks| ==>
         s.tasks[i].id == sch.queue[i].id && s.tasks[i].saved == sch.queue[i].saved && s.tasks[i].dir == sch.queue[i].directory
  }

  /** The machine's own steps, one after the other. */
  ghost predicate Going(code: Code, ss: seq<State>) {
    forall i, j :: 0 <= i && j == i + 1 < |ss| ==> exists d :: Step(code, ss[i], Go(d), ss[j])
  }

  lemma OneStep(code: Code, ss: seq<State>, i: nat)
    requires Going(code, ss) && i + 1 < |ss|
    ensures exists d :: Step(code, ss[i], Go(d), ss[i + 1])
  {
    var j := i + 1;
    assert exists d :: Step(code, ss[i], Go(d), ss[j]);
  }

  /** Saving the running task: lines 121 to 123. */
  lemma Saves(code: Code, ss: seq<State>, k: nat, f: Frame, got: int)
    requires Going(code, ss) && |ss| > k + 3 && ss[k].at == Switch3(f, got) && got == code.switchEip != SENTINEL
    requires ss[k].cur < |ss[k].tasks|
    ensures var s, t := ss[k], ss[k + 3];
            && t.at == Switch6 && |t.tasks| == |s.tasks| && t.cur == s.cur && t.nextPid == s.nextPid && t.dir == s.dir
            && (forall i :: 0 <= i < |s.tasks| && i != s.cur ==> t.tasks[i] == s.tasks[i])
            && t.tasks[s.cur].id == s.tasks[s.cur].id && t.tasks[s.cur].dir == s.tasks[s.cur].dir
            && t.tasks[s.cur].saved == Context(got, s.regs.esp, s.regs.ebp)
  {
    hide Step, Going;
    SavesField(code, ss, k);
    SavesField(code, ss, k + 1);
    SavesField(code, ss, k + 2);
  }

  /** One of the three fields. */
  lemma SavesField(code: Code, ss: seq<State>, k: nat)
    requires Going(code, ss) && |ss| > k + 1 && ss[k].cur < |ss[k].tasks|
    requires (ss[k].at.Switch3? && ss[k].at.got != SENTINEL) || ss[k].at.Switch4? || ss[k].at.Switch5?
    ensures var s, t := ss[k], ss[k + 1]; var c := s.tasks[s.cur].saved;
            && |t.tasks| == |s.tasks| && t.cur == s.cur && t.nextPid == s.nextPid && t.dir == s.dir && t.regs == s.regs
            && (forall i :: 0 <= i < |s.tasks| && i != s.cur ==> t.tasks[i] == s.tasks[i])
            && t.tasks[s.cur].id == s.tasks[s.cur].id && t.tasks[s.cur].dir == s.tasks[s.cur].dir
            && t.at == (if s.at.Switch3? then Switch4(s.at.back) else if s.at.Switch4? then Switch5(s.at.back) else Switch6)
            && t.tasks[s.cur].saved == (if s.at.Switch3? then c.(eip := s.at.got)
                                        else if s.at.Switch4? then c.(esp := s.regs.esp) else c.(ebp := s.regs.ebp))
  {
    OneStep(code, ss, k);
  }

  /** Going on to the next task: lines 126 and 129. */
  lemma Advances(code: Code, ss: seq<State>, k: nat)
    requires Going(code, ss) && |ss| > k + 2 && ss[k].at == Switch6 && ss[k].cur < |ss[k].tasks|
    ensures ss[k + 2] == ss[k].(at := Switch8, cur := NextIndex(ss[k].cur, |ss[k].tasks|))
  {
    OneStep(code, ss, k);
    OneStep(code, ss, k + 1);
  }

  /** Loading what it has saved: lines 132 to 155. */
  lemma Loads(code: Code, ss: seq<State>, k: nat)
    requires Going(code, ss) && |ss| > k + 2 && ss[k].at == Switch8 && ss[k].cur < |ss[k].tasks|
    ensures var s, t := ss[k], ss[k + 2];
            && t.tasks == s.tasks && t.cur == s.cur && t.nextPid == s.nextPid
            && t.dir == s.tasks[s.cur].dir && t.regs == s.tasks[s.cur].saved
  {
    OneStep(code, ss, k);
    OneStep(code, ss, k + 1);
  }

  lemma SwitchSteps(code: Code, ss: seq<State>, f: Frame, got: int)
    requires Going(code, ss) && |ss| == 8 && ss[0].at == Switch3(f, got) && got == code.switchEip != SENTINEL
    requires ss[0].cur < |ss[0].tasks|
    ensures var s, t := ss[0], ss[7]; var next := NextIndex(s.cur, |s.tasks|);
            && |t.tasks| == |s.tasks| && t.cur == next && t.nextPid == s.nextPid
            && (forall i :: 0 <= i < |s.tasks| && i != s.cur ==> t.tasks[i] == s.tasks[i])
            && t.tasks[s.cur].id == s.tasks[s.cur].id && t.tasks[s.cur].dir == s.tasks[s.cur].dir
            && t.tasks[s.cur].saved == Context(got, s.regs.esp, s.regs.ebp)
            && t.dir == t.tasks[next].dir && t.regs == t.tasks[next].saved
  {
    hide Going;
    Saves(code, ss, 0, f, got);
    Advances(code, ss, 3);
    Loads(code, ss, 5);
  }

  /** switch_task on the list, from read_eip to the jump: the machine's seven steps. */
  method Switch(sch: Scheduler, code: Code, eip: int, esp: int, ebp: int, ghost ss: seq<State>, ghost f: Frame)
    returns (to: Context)
    requires sch.Valid() && |sch.queue| > 1 && |ss| == 8 && Going(code, ss) && Mirrors(sch, ss[0])
    requires ss[0].at == Switch3(f, eip) && eip == code.switchEip != SENTINEL && esp == ss[0].regs.esp && ebp == ss[0].regs.ebp
    modifies sch, sch.queue
    ensures sch.Valid() && sch.queue == old(sch.queue) && Mirrors(sch, ss[7]) && to == ss[7].regs
  {
    hide Going;
    SwitchSteps(code, ss, f, eip);
    ghost var was := sch.current;
    var jump;
    jump, to := sch.SwitchTask(eip, esp, ebp);
    assert sch.queue[old(sch.pos)] == was;
  }

  /** fork on the list: making the child and linking it are two of the machine's steps. */
  method Fork(sch: Scheduler, code: Code, directory: int, ghost ss: seq<State>) returns (task: Task)
    requires sch.Valid() && |ss| == 3 && Going(code, ss) && Mirrors(sch, ss[0]) && ss[0].at == Fork3(directory)
    modifies sch, sch.queue
    ensures sch.Valid() && Mirrors(sch, ss[2]) && ss[2].at == Fork5
  {
    Links(code, ss, directory);
    hide Going;
    task := sch.Enqueue(directory);
  }

  lemma Links(code: Code, ss: seq<State>, directory: int)
    requires Going(code, ss) && |ss| == 3 && ss[0].at == Fork3(directory)
    ensures var s, t := ss[0], ss[2];
            && t.at == Fork5 && t.tasks == s.tasks + [TaskRec(s.nextPid, ZERO, directory, Frame(Lost, ZERO))]
            && t.cur == s.cur && t.nextPid == s.nextPid + 1 && t.dir == s.dir
  {
    OneStep(code, ss, 0);
    OneStep(code, ss, 1);
  }

  /**
   * What the interrupt mask keeps away.  If the timer handler could run while fork is at work on the child behind the
   * running task, switch_task would go on to the child's zero context, and nine steps later the kernel would be lost.
   */
  lemma HalfBuiltIsLost(code: Code, ss: seq<State>, f: Frame)
    requires CodeLinked(code) && Going(code, ss) && |ss| == 10 && ss[0].at == Switch1(f)
    requires var n := |ss[0].tasks|; n > 1 && ss[0].cur == n - 2 && ss[0].tasks[n - 1].saved == ZERO
    ensures ss[9].at == Lost && ss[9].cur == |ss[9].tasks| - 1 && ss[9].regs == ZERO
  {
    hide Going;
    Enters(code, ss, f);
    Saves(code, ss, 2, f, code.switchEip);
    Advances(code, ss, 5);
    Jumps(code, ss, 7);
  }

  lemma Enters(code: Code, ss: seq<State>, f: Frame)
    requires Going(code, ss) && |ss| > 2 && ss[0].at == Switch1(f) && |ss[0].tasks| > 1 && ss[0].cur < |ss[0].tasks|
    ensures ss[2] == ss[0].(at := Switch3(f, code.switchEip))
  {
    OneStep(code, ss, 0);
    OneStep(code, ss, 1);
  }

  lemma Jumps(code: Code, ss: seq<State>, k: nat)
    requires Going(code, ss) && |ss| > k + 2 && ss[k].at == Switch8 && ss[k].cur < |ss[k].tasks|
    ensures var s, t := ss[k], ss[k + 2];
            t.at == Resume(code, s.tasks[s.cur]) && t.tasks == s.tasks && t.cur == s.cur && t.regs == s.tasks[s.cur].saved
  {
    hide Step;
    LastStep(code, ss, k);
    LastStep(code, ss, k + 1);
  }

  lemma LastStep(code: Code, ss: seq<State>, k: nat)
    requires Going(code, ss) && |ss| > k + 1 && (ss[k].at == Switch8 || ss[k].at == Switch9) && ss[k].cur < |ss[k].tasks|
    ensures var s, t := ss[k], ss[k + 1];
            && t.tasks == s.tasks && t.cur == s.cur
            && (s.at == Switch8 ==> t.at == Switch9)
            && (s.at == Switch9 ==> t.at == Resume(code, s.tasks[s.cur]) && t.regs == s.tasks[s.cur].saved)
  {
    OneStep(code, ss, k);
  }
}
