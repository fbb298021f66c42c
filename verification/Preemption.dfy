/** What a timer interrupt does to the task that it strikes: in every run of Interleaving, nothing in the end. */
module Preemption {
  import opened Tasks
  import opened Interleaving

  /** What timer ticks have put on the stack of a task at `p`, the last one first. */
  function Frames(p: Point): seq<Frame> {
    match p
    case Switch1(f) => [f] + Frames(f.at)
    case Switch2(f) => [f] + Frames(f.at)
    case Switch3(f, _) => [f] + Frames(f.at)
    case Switch4(f) => [f] + Frames(f.at)
    case Switch5(f) => [f] + Frames(f.at)
    case _ => []
  }

  /** Inside switch_task, on the stack of the task that the tick has struck. */
  predicate InHandler(p: Point) {
    p.Switch1? || p.Switch2? || p.Switch3? || p.Switch4? || p.Switch5?
  }

  /** The frames that ticks have put on the stack of the task at place `i` of the list, whether it runs or waits. */
  function FramesOf(code: Code, s: State, i: nat): seq<Frame>
    requires i < |s.tasks|
  {
    var t := s.tasks[i];
    if i == s.cur && !Between(s.at) then Frames(s.at)
    else if t.saved.eip == code.switchEip then [t.stack] + Frames(t.stack.at)
    else []
  }

  /** The child that fork is at work on has no place to resume yet. */
  ghost predicate ChildEmpty(s: State) {
    && (s.at == Fork4 ==> |s.made| == 1 && s.made[0].saved == ZERO)
    && (Building(s.at) ==> |s.tasks| > 0 && s.tasks[|s.tasks| - 1].saved.eip == 0)
  }

  /** Outside the tasks' own code interrupts are on at exactly these places. */
  ghost predicate OnExactly(s: State) {
    s.at != Own ==> (s.on <==> MayBeOn(s.at))
  }

  ghost predicate Sound(code: Code, s: State) {
    Inv(code, s) && ChildEmpty(s) && OnExactly(s)
  }

  /** Of the invariant, what the moves of the frames need. */
  ghost predicate Footing(code: Code, s: State) {
    && (s.at != Switch7 ==> s.cur < |s.tasks|)
    && (s.at.Switch1? || s.at.Switch3? ==> MayBeOn(s.at.back.at))
    && (s.at.Switch5? ==> s.tasks[s.cur].saved.eip == code.switchEip)
    && (s.at.Switch9? ==> s.tasks[s.cur].saved.eip == code.switchEip || s.tasks[s.cur].saved.eip == code.forkEip)
    && (s.at.Compare? && (Space(s, s.dir), s.regs.ebp) in s.locals ==>
          (s.locals[(Space(s, s.dir), s.regs.ebp)] == s.tasks[s.cur].id <==> s.at.child != -1))
    && (s.at.Fork5? ==> s.tasks[|s.tasks| - 1].id > 0)
    && (Building(s.at) ==> s.cur < |s.tasks| - 1)
  }

  lemma HasFooting(code: Code, s: State)
    requires Inv(code, s)
    ensures Footing(code, s)
  {
  }

  lemma StepKeepsSound(code: Code, s: State, m: Move, s': State)
    requires CodeLinked(code) && Sound(code, s) && Step(code, s, m, s')
    ensures Sound(code, s')
  {
    hide Inv, ChildEmpty, OnExactly, Step, Footing;
    StepKeepsInv(code, s, m, s');
    HasFooting(code, s);
    match m
    case Go(_) =>
      if GoesInFork(s.at) {
        StepOfFork(code, s, m, s');
        if BuildsContext(s.at) {
          ParentKeeps(code, s, m.dir, s');
        } else {
          ForkKeeps(code, s, m.dir, s');
        }
      } else if s.at == Switch7 {
        TickKeeps(code, s, m, s');
      } else {
        StepOfSwitch(code, s, m, s');
        SwitchKeeps(code, s, s');
      }
    case _ => TickKeeps(code, s, m, s');
  }

  lemma TickKeeps(code: Code, s: State, m: Move, s': State)
    requires ChildEmpty(s) && OnExactly(s) && Step(code, s, m, s') && (m.Go? ==> s.at == Switch7)
    ensures ChildEmpty(s') && OnExactly(s')
  {
  }

  /** Where fork writes the child's context. */
  predicate BuildsContext(p: Point) {
    p.Parent0? || p.Parent1? || p.Parent2?
  }

  lemma ForkKeeps(code: Code, s: State, d: int, s': State)
    requires Footing(code, s) && ChildEmpty(s) && OnExactly(s) && s.cur < |s.tasks| && ForkStep(code, s, d, s')
    requires !BuildsContext(s.at)
    ensures ChildEmpty(s') && OnExactly(s')
  {
    hide CopyLocals, FreshDir;
  }

  lemma ParentKeeps(code: Code, s: State, d: int, s': State)
    requires ChildEmpty(s) && OnExactly(s) && s.cur < |s.tasks| && ForkStep(code, s, d, s') && BuildsContext(s.at)
    ensures ChildEmpty(s') && OnExactly(s')
  {
  }

  lemma SwitchKeeps(code: Code, s: State, s': State)
    requires CodeLinked(code) && Footing(code, s) && OnExactly(s) && s.cur < |s.tasks| && SwitchStep(code, s, s')
    ensures ChildEmpty(s') && OnExactly(s')
  {
    hide SwitchStep;
    SwitchPlaces(code, s, s');
  }

  /** Back to the interrupted place, on within the handler, or a jump. */
  lemma SwitchPlaces(code: Code, s: State, s': State)
    requires CodeLinked(code) && s.cur < |s.tasks| && SwitchStep(code, s, s')
    ensures || ((s.at.Switch1? || s.at.Switch3?) && s'.at == s.at.back.at && s'.on)
            || (s'.on == s.on && !MayBeOn(s.at) && !MayBeOn(s'.at) && s.at != Own && (InHandler(s'.at) || Between(s'.at)))
            || (s.at == Switch9 && s'.at == Resume(code, Cur(s)) && s'.on)
  {
  }

  /** The two ways out of switch_task that lead back into the handler: a lone task, and the sentinel. */
  predicate HandlerReturns(s: State, m: Move) {
    m.Go? && ((s.at.Switch1? && |s.tasks| == 1) || (s.at.Switch3? && s.at.got == SENTINEL))
  }

  /** What a step does to the frames of task `i`: only a tick adds one, and only a return takes that one away. */
  ghost predicate FramesMove(code: Code, s: State, m: Move, s': State, i: nat)
    requires i < |s.tasks| && i < |s'.tasks|
  {
    if i == s.cur && m.Tick? then
      FramesOf(code, s', i) == [Frame(s.at, s.regs)] + FramesOf(code, s, i)
    else if i == s.cur && HandlerReturns(s, m) then
      s'.cur == i && s'.on && s'.dir == s.dir && FramesOf(code, s, i) == [Frame(s'.at, s'.regs)] + FramesOf(code, s', i)
    else
      FramesOf(code, s', i) == FramesOf(code, s, i)
  }

  ghost predicate SameTask(s: State, s': State, i: nat)
    requires i < |s.tasks|
  {
    i < |s'.tasks| && s'.tasks[i].id == s.tasks[i].id && s'.tasks[i].dir == s.tasks[i].dir
  }

  lemma StepFrames(code: Code, s: State, m: Move, s': State, i: nat)
    requires CodeLinked(code) && Sound(code, s) && Step(code, s, m, s') && i < |s.tasks|
    ensures SameTask(s, s', i) && FramesMove(code, s, m, s', i)
  {
    hide Inv, ChildEmpty, Step, Footing, FramesMove;
    HasFooting(code, s);
    match m
    case Go(_) =>
      if GoesInFork(s.at) {
        ForkFrames(code, s, m, s', i);
      } else {
        SwitchFrames(code, s, m, s', i);
      }
    case _ => TickFrames(code, s, m, s', i);
  }

  predicate GoesInFork(p: Point) {
    || p.Fork1? || p.Fork2? || p.Fork3? || p.Fork4? || p.Fork5? || p.Compare?
    || p.Parent0? || p.Parent1? || p.Parent2? || p.Parent3? || p.ForkDone?
  }

  lemma TickFrames(code: Code, s: State, m: Move, s': State, i: nat)
    requires Footing(code, s) && OnExactly(s) && !m.Go? && Step(code, s, m, s') && i < |s.tasks|
    ensures SameTask(s, s', i) && FramesMove(code, s, m, s', i)
  {
  }

  lemma ForkFrames(code: Code, s: State, m: Move, s': State, i: nat)
    requires CodeLinked(code) && Footing(code, s) && ChildEmpty(s) && m.Go? && Step(code, s, m, s')
    requires i < |s.tasks| && GoesInFork(s.at)
    ensures SameTask(s, s', i) && FramesMove(code, s, m, s', i)
  {
    hide Frames, FramesOf, Step, ForkStep;
    StepOfFork(code, s, m, s');
    if BuildsContext(s.at) {
      ParentStays(code, s, m.dir, s', i);
    } else {
      ForkStays(code, s, m.dir, s', i);
    }
    if i == s.cur {
      NoFrames(code, s, i);
      NoFrames(code, s', i);
    } else {
      OtherFrames(code, s, s', i);
    }
  }

  lemma StepOfFork(code: Code, s: State, m: Move, s': State)
    requires m.Go? && Step(code, s, m, s') && GoesInFork(s.at)
    ensures s.cur < |s.tasks| && ForkStep(code, s, m.dir, s')
  {
    hide ForkStep;
  }

  lemma ForkStays(code: Code, s: State, d: int, s': State, i: nat)
    requires s.cur < |s.tasks| && ForkStep(code, s, d, s') && i < |s.tasks| && !BuildsContext(s.at)
    ensures i < |s'.tasks| && s.tasks[i] == s'.tasks[i] && s'.cur == s.cur && (GoesInFork(s'.at) || s'.at == Own)
  {
    hide CopyLocals, FreshDir;
  }

  lemma ParentStays(code: Code, s: State, d: int, s': State, i: nat)
    requires CodeLinked(code) && Footing(code, s) && ChildEmpty(s) && s.cur < |s.tasks| && ForkStep(code, s, d, s')
    requires i < |s.tasks| && BuildsContext(s.at)
    ensures SameTask(s, s', i) && s'.cur == s.cur && GoesInFork(s'.at)
    ensures s.tasks[i] == s'.tasks[i] || (s.tasks[i].saved.eip != code.switchEip && s'.tasks[i].saved.eip != code.switchEip)
  {
  }

  lemma NoFrames(code: Code, s: State, i: nat)
    requires i == s.cur < |s.tasks| && (GoesInFork(s.at) || s.at == Own)
    ensures FramesOf(code, s, i) == []
  {
  }

  lemma OtherFrames(code: Code, s: State, s': State, i: nat)
    requires i < |s.tasks| && i < |s'.tasks|
    requires (i != s.cur || Between(s.at)) && (i != s'.cur || Between(s'.at))
    requires s.tasks[i] == s'.tasks[i] || (s.tasks[i].saved.eip != code.switchEip && s'.tasks[i].saved.eip != code.switchEip)
    ensures FramesOf(code, s, i) == FramesOf(code, s', i)
  {
  }

  lemma SwitchFrames(code: Code, s: State, m: Move, s': State, i: nat)
    requires CodeLinked(code) && Footing(code, s) && m.Go? && Step(code, s, m, s') && i < |s.tasks| && !GoesInFork(s.at)
    ensures SameTask(s, s', i) && FramesMove(code, s, m, s', i)
  {
    hide Frames, FramesOf, Step, FramesMove, Footing;
    if s.at.Switch6? || s.at.Switch7? || s.at.Switch8? {
      PassFrames(code, s, m, s', i);
    } else {
      StepOfSwitch(code, s, m, s');
      if s.at.Switch9? {
        JumpFrames(code, s, m, s', i);
      } else {
        HandlerFrames(code, s, m, s', i);
      }
    }
  }

  lemma StepOfSwitch(code: Code, s: State, m: Move, s': State)
    requires m.Go? && Step(code, s, m, s') && !GoesInFork(s.at) && s.at != Switch7
    ensures s.cur < |s.tasks| && SwitchStep(code, s, s') && (InHandler(s.at) || Between(s.at))
  {
  }

  /** With nobody running, nothing happens to any stack. */
  lemma PassFrames(code: Code, s: State, m: Move, s': State, i: nat)
    requires m.Go? && Step(code, s, m, s') && i < |s.tasks| && (s.at.Switch6? || s.at.Switch7? || s.at.Switch8?)
    ensures SameTask(s, s', i) && FramesMove(code, s, m, s', i)
  {
    hide FramesOf;
    OtherFrames(code, s, s', i);
  }

  lemma JumpFrames(code: Code, s: State, m: Move, s': State, i: nat)
    requires Footing(code, s) && m.Go? && s.cur < |s.tasks| && SwitchStep(code, s, s') && i < |s.tasks| && s.at.Switch9?
    ensures SameTask(s, s', i) && FramesMove(code, s, m, s', i)
  {
    if i != s.cur {
      OtherFrames(code, s, s', i);
    }
  }

  lemma HandlerFrames(code: Code, s: State, m: Move, s': State, i: nat)
    requires CodeLinked(code) && Footing(code, s) && m.Go? && s.cur < |s.tasks| && SwitchStep(code, s, s') && i < |s.tasks|
    requires InHandler(s.at)
    ensures SameTask(s, s', i) && FramesMove(code, s, m, s', i)
  {
    if i != s.cur {
      HandlerElsewhere(code, s, m, s', i);
    } else {
      HandlerHere(code, s, m, s');
    }
  }

  lemma HandlerElsewhere(code: Code, s: State, m: Move, s': State, i: nat)
    requires s.cur < |s.tasks| && SwitchStep(code, s, s') && i < |s.tasks| && i != s.cur && m.Go?
    requires InHandler(s.at)
    ensures SameTask(s, s', i) && FramesMove(code, s, m, s', i)
  {
    hide FramesOf, SwitchStep;
    SavesOnlyItself(code, s, s', i);
    OtherFrames(code, s, s', i);
  }

  lemma SavesOnlyItself(code: Code, s: State, s': State, i: nat)
    requires s.cur < |s.tasks| && SwitchStep(code, s, s') && i < |s.tasks| && i != s.cur && InHandler(s.at)
    ensures i < |s'.tasks| && s'.tasks[i] == s.tasks[i] && s'.cur == s.cur
  {
    match s.at
    case Switch1(_) =>
    case Switch2(_) =>
    case Switch3(_, _) =>
    case Switch4(_) =>
    case Switch5(_) =>
  }

  lemma HandlerHere(code: Code, s: State, m: Move, s': State)
    requires CodeLinked(code) && Footing(code, s) && m.Go? && s.cur < |s.tasks| && SwitchStep(code, s, s')
    requires InHandler(s.at)
    ensures SameTask(s, s', s.cur) && FramesMove(code, s, m, s', s.cur)
  {
    hide FramesOf, SwitchStep;
    if HandlerReturns(s, m) {
      GoesBack(code, s, s');
    } else {
      StaysInHandler(code, s, s');
    }
    RunningFrames(code, s, s.cur);
    RunningFrames(code, s', s.cur);
  }

  lemma GoesBack(code: Code, s: State, s': State)
    requires s.cur < |s.tasks| && SwitchStep(code, s, s') && HandlerReturns(s, Go(0))
    ensures s' == s.(at := s.at.back.at, regs := s.at.back.regs, on := true)
  {
  }

  lemma StaysInHandler(code: Code, s: State, s': State)
    requires CodeLinked(code) && Footing(code, s) && s.cur < |s.tasks| && SwitchStep(code, s, s')
    requires InHandler(s.at) && !HandlerReturns(s, Go(0))
    ensures SameTask(s, s', s.cur) && s'.cur == s.cur
    ensures if s.at.Switch5?
            then s'.at == Switch6 && s'.tasks[s.cur].stack == s.at.back && s'.tasks[s.cur].saved.eip == code.switchEip
            else (s'.at.Switch2? || s'.at.Switch3? || s'.at.Switch4? || s'.at.Switch5?) && s'.at.back == s.at.back
  {
  }

  /** Of the task that runs, and of the one that has just been saved. */
  lemma RunningFrames(code: Code, s: State, i: nat)
    requires i == s.cur < |s.tasks|
    ensures !Between(s.at) ==> FramesOf(code, s, i) == Frames(s.at)
    ensures s.at.Switch6? && s.tasks[i].saved.eip == code.switchEip ==>
              FramesOf(code, s, i) == [s.tasks[i].stack] + Frames(s.tasks[i].stack.at)
  {
  }

  // ---------------------------------------------------------------- whole runs

  lemma {:induction false} RunSound(code: Code, ss: seq<State>, ms: seq<Move>, i: nat)
    requires CodeLinked(code) && Run(code, ss, ms) && ss[0].private && i < |ss|
    ensures Sound(code, ss[i])
  {
    hide Step, Inv, ChildEmpty, OnExactly;
    if i > 0 {
      RunSound(code, ss, ms, i - 1);
      StepKeepsSound(code, ss[i - 1], ms[i - 1], ss[i]);
    } else {
      RunKeepsInv(code, ss, ms, 0);
      InitSound(ss[0]);
    }
  }

  lemma InitSound(s: State)
    requires Init(s)
    ensures ChildEmpty(s) && OnExactly(s)
  {
  }

  /** Tasks are only added at the end of the list. */
  lemma {:induction false} TaskStays(code: Code, ss: seq<State>, ms: seq<Move>, i: nat, j: nat, c: nat)
    requires CodeLinked(code) && Run(code, ss, ms) && ss[0].private && i <= j < |ss| && c < |ss[i].tasks|
    ensures SameTask(ss[i], ss[j], c)
    decreases j
  {
    hide Step, Sound, Init, FramesMove;
    if i < j {
      TaskStays(code, ss, ms, i, j - 1, c);
      RunSound(code, ss, ms, j - 1);
      StepFrames(code, ss[j - 1], ms[j - 1], ss[j], c);
    }
  }

  /** How many ticks of task `c` the handler has still to come back from. */
  function Depth(code: Code, s: State, c: nat): nat {
    if c < |s.tasks| then |FramesOf(code, s, c)| else 0
  }

  /** The frame that the tick at `i` has put on the stack of its task stays below all later ones. */
  lemma {:induction false} FrameKept(code: Code, ss: seq<State>, ms: seq<Move>, i: nat, j: nat)
    requires CodeLinked(code) && Run(code, ss, ms) && ss[0].private && i < j < |ss| && ms[i].Tick?
    requires ss[i].cur < |ss[i].tasks|
    requires forall k :: i < k <= j ==> Depth(code, ss[k], ss[i].cur) > Depth(code, ss[i], ss[i].cur)
    ensures SameTask(ss[i], ss[j], ss[i].cur)
    ensures exists later: seq<Frame> ::
              FramesOf(code, ss[j], ss[i].cur) == later + [Frame(ss[i].at, ss[i].regs)] + FramesOf(code, ss[i], ss[i].cur)
    decreases j
  {
    hide Step, Sound, Init, FramesOf;
    var c := ss[i].cur;
    TaskStays(code, ss, ms, i, j, c);
    TaskStays(code, ss, ms, i, j - 1, c);
    RunSound(code, ss, ms, j - 1);
    StepFrames(code, ss[j - 1], ms[j - 1], ss[j], c);
    var now := FramesOf(code, ss[j], c);
    if j == i + 1 {
      assert now == [] + [Frame(ss[i].at, ss[i].regs)] + FramesOf(code, ss[i], c);
    } else {
      FrameKept(code, ss, ms, i, j - 1);
      var was := FramesOf(code, ss[j - 1], c);
      var later: seq<Frame> :| was == later + [Frame(ss[i].at, ss[i].regs)] + FramesOf(code, ss[i], c);
      if c == ss[j - 1].cur && ms[j - 1].Tick? {
        var f := Frame(ss[j - 1].at, ss[j - 1].regs);
        assert now == ([f] + later) + [Frame(ss[i].at, ss[i].regs)] + FramesOf(code, ss[i], c);
      } else if c == ss[j - 1].cur && HandlerReturns(ss[j - 1], ms[j - 1]) {
        assert now == was[1..];
        assert |later| > 0;
        assert now == later[1..] + [Frame(ss[i].at, ss[i].regs)] + FramesOf(code, ss[i], c);
      } else {
        assert now == was;
      }
    }
  }

  /**
   * The timer is not to be seen by the task it strikes.  Between a tick and the moment the handler has come back from
   * it there may be any number of other tasks, calls of fork and further ticks, also of the handler itself.  Then the
   * task runs again at the place where it was, with its registers, in its address space, with the same locals in its
   * memory, and with interrupts on.
   */
  lemma InterruptedGoesOn(code: Code, ss: seq<State>, ms: seq<Move>, i: nat, j: nat)
    requires CodeLinked(code) && Run(code, ss, ms) && ss[0].private && i < j < |ss| && ms[i].Tick?
    requires Depth(code, ss[j], ss[i].cur) == Depth(code, ss[i], ss[i].cur)
    requires forall k :: i < k < j ==> Depth(code, ss[k], ss[i].cur) > Depth(code, ss[i], ss[i].cur)
    ensures ss[j].cur == ss[i].cur && ss[j].at == ss[i].at && ss[j].regs == ss[i].regs
    ensures ss[j].dir == ss[i].dir && ss[j].on && ss[i].on
    ensures forall e :: ((ss[i].dir, e) in ss[j].locals <==> (ss[i].dir, e) in ss[i].locals)
                     && ((ss[i].dir, e) in ss[i].locals ==> ss[j].locals[(ss[i].dir, e)] == ss[i].locals[(ss[i].dir, e)])
  {
    hide Sound, Init, FramesOf, Step, SameTask;
    var c := ss[i].cur;
    RunSound(code, ss, ms, i);
    TickOfTask(code, ss[i], ms[i], ss[i + 1]);
    LastStepReturns(code, ss, ms, i, j);
    MemoryKept(code, ss, ms, i, j);
  }

  /** The step that ends it is a return of the handler, and to the very frame of the tick. */
  lemma LastStepReturns(code: Code, ss: seq<State>, ms: seq<Move>, i: nat, j: nat)
    requires CodeLinked(code) && Run(code, ss, ms) && ss[0].private && i < j < |ss| && ms[i].Tick?
    requires ss[i].cur < |ss[i].tasks| && ss[i].dir == ss[i].tasks[ss[i].cur].dir
    requires Depth(code, ss[j], ss[i].cur) == Depth(code, ss[i], ss[i].cur)
    requires forall k :: i < k < j ==> Depth(code, ss[k], ss[i].cur) > Depth(code, ss[i], ss[i].cur)
    ensures ss[j].cur == ss[i].cur && Frame(ss[j].at, ss[j].regs) == Frame(ss[i].at, ss[i].regs)
    ensures ss[j].dir == ss[i].dir && ss[j].on
  {
    hide Sound, Init, FramesOf, Step;
    var c := ss[i].cur;
    TaskStays(code, ss, ms, i, j, c);
    TaskStays(code, ss, ms, i, j - 1, c);
    RunSound(code, ss, ms, j - 1);
    StepFrames(code, ss[j - 1], ms[j - 1], ss[j], c);
    if j == i + 1 {
      assert false;
    }
    FrameKept(code, ss, ms, i, j - 1);
    var base, f := FramesOf(code, ss[i], c), Frame(ss[i].at, ss[i].regs);
    var later: seq<Frame> :| FramesOf(code, ss[j - 1], c) == later + [f] + base;
    assert c == ss[j - 1].cur && HandlerReturns(ss[j - 1], ms[j - 1]);
    LastOne(later, f, base, Frame(ss[j].at, ss[j].regs), FramesOf(code, ss[j], c));
    DirOfTask(code, ss[j - 1]);
  }

  lemma LastOne(later: seq<Frame>, f: Frame, base: seq<Frame>, top: Frame, rest: seq<Frame>)
    requires later + [f] + base == [top] + rest && |rest| == |base|
    ensures top == f
  {
    assert ([top] + rest)[0] == top;
  }

  lemma TickOfTask(code: Code, s: State, m: Move, s': State)
    requires Sound(code, s) && m.Tick? && Step(code, s, m, s')
    ensures s.on && s.cur < |s.tasks| && s.dir == s.tasks[s.cur].dir && s'.locals == s.locals
  {
  }

  lemma DirOfTask(code: Code, s: State)
    requires Sound(code, s)
    ensures s.at != Switch7 && s.at != Switch8 ==> s.cur < |s.tasks| && s.dir == s.tasks[s.cur].dir
  {
  }

  /** The locals in address space `dir`. */
  ghost predicate SameLocals(m: map<(int, int), int>, m': map<(int, int), int>, dir: int) {
    forall e :: ((dir, e) in m <==> (dir, e) in m') && ((dir, e) in m ==> m'[(dir, e)] == m[(dir, e)])
  }

  /** A task with a frame on its stack does not run its own code, and no other task writes into its memory. */
  lemma StepKeepsMemory(code: Code, s: State, m: Move, s': State, c: nat)
    requires CodeLinked(code) && Sound(code, s) && Step(code, s, m, s') && c < |s.tasks| && |FramesOf(code, s, c)| > 0
    ensures SameLocals(s.locals, s'.locals, s.tasks[c].dir)
  {
    hide ChildEmpty, OnExactly, Frames, FramesOf, Inv, SameLocals, FreshDir, OnlyChanges, ForkStep, SwitchStep;
    if s.at == Own || GoesInFork(s.at) {
      OthersMemory(code, s, c);
      assert !FreshDir(s, s.tasks[c].dir) by { TaskDir(s, c); }
      WritesOwn(code, s, m, s', s.tasks[c].dir);
    } else {
      OtherStep(code, s, m, s');
      SameLocalsAgain(s.locals, s.tasks[c].dir);
    }
  }

  lemma OthersMemory(code: Code, s: State, c: nat)
    requires Inv(code, s) && (s.at == Own || GoesInFork(s.at)) && c < |s.tasks| && |FramesOf(code, s, c)| > 0
    ensures s.private && s.cur < |s.tasks| && s.tasks[c].dir != s.dir
  {
    hide AtOk, Frames, FramesOf;
    if c == s.cur {
      NoFrames(code, s, c);
    }
  }

  lemma WritesOwn(code: Code, s: State, m: Move, s': State, dir: int)
    requires Step(code, s, m, s') && s.private && dir != s.dir && !FreshDir(s, dir)
    ensures SameLocals(s.locals, s'.locals, dir)
  {
    hide FreshDir, SwitchStep, CopyLocals;
    if m.Go? && s.at == Fork2 {
      StepOfFork(code, s, m, s');
      forall e
        ensures ((dir, e) in s.locals <==> (dir, e) in s'.locals)
             && ((dir, e) in s.locals ==> s'.locals[(dir, e)] == s.locals[(dir, e)])
      {
        CopiedLocals(s.locals, s.dir, m.dir, dir, e);
      }
    } else if m.Go? && s.at == Fork1 {
      StepOfFork(code, s, m, s');
    } else if !m.Work? {
      OtherStep(code, s, m, s');
    }
  }

  lemma OtherStep(code: Code, s: State, m: Move, s': State)
    requires Step(code, s, m, s') && !m.Work? && (m.Go? ==> s.at != Fork1 && s.at != Fork2)
    ensures s'.locals == s.locals
  {
    hide OnlyChanges, FreshDir, CopyLocals, ForkStep, SwitchStep;
    if m.Go? && GoesInFork(s.at) {
      StepOfFork(code, s, m, s');
      ForkLocals(code, s, m.dir, s');
    } else if m.Go? && s.at != Switch7 {
      StepOfSwitch(code, s, m, s');
      SwitchLocals(code, s, s');
    }
  }

  lemma ForkLocals(code: Code, s: State, d: int, s': State)
    requires s.cur < |s.tasks| && ForkStep(code, s, d, s') && s.at != Fork1 && s.at != Fork2
    ensures s'.locals == s.locals
  {
    hide FreshDir, CopyLocals;
  }

  lemma SwitchLocals(code: Code, s: State, s': State)
    requires s.cur < |s.tasks| && SwitchStep(code, s, s')
    ensures s'.locals == s.locals && |s'.tasks| == |s.tasks|
  {
  }

  lemma TaskDir(s: State, c: nat)
    requires c < |s.tasks|
    ensures !FreshDir(s, s.tasks[c].dir)
  {
  }

  lemma SameLocalsAgain(m: map<(int, int), int>, dir: int)
    ensures SameLocals(m, m, dir)
  {
  }

  lemma OneMore(code: Code, ss: seq<State>, ms: seq<Move>, i: nat, c: nat)
    requires CodeLinked(code) && Run(code, ss, ms) && ss[0].private && i < |ms| && c < |ss[i].tasks|
    requires Depth(code, ss[i], c) > 0
    ensures SameLocals(ss[i].locals, ss[i + 1].locals, ss[i].tasks[c].dir)
  {
    hide Sound, Init, FramesOf, Step, SameLocals;
    RunSound(code, ss, ms, i);
    StepKeepsMemory(code, ss[i], ms[i], ss[i + 1], c);
  }

  lemma SameLocalsChain(m: map<(int, int), int>, m': map<(int, int), int>, m'': map<(int, int), int>, dir: int)
    requires SameLocals(m, m', dir) && SameLocals(m', m'', dir)
    ensures SameLocals(m, m'', dir)
  {
    forall e
      ensures ((dir, e) in m <==> (dir, e) in m'') && ((dir, e) in m ==> m''[(dir, e)] == m[(dir, e)])
    {
      assert (dir, e) in m <==> (dir, e) in m';
    }
  }

  lemma {:induction false} MemoryKept(code: Code, ss: seq<State>, ms: seq<Move>, i: nat, j: nat)
    requires CodeLinked(code) && Run(code, ss, ms) && ss[0].private && i < j < |ss| && ms[i].Tick?
    requires ss[i].cur < |ss[i].tasks|
    requires forall k :: i < k < j ==> Depth(code, ss[k], ss[i].cur) > 0
    ensures SameLocals(ss[i].locals, ss[j].locals, ss[i].tasks[ss[i].cur].dir)
    decreases j
  {
    hide Sound, Init, FramesOf, Step, SameLocals;
    var c := ss[i].cur;
    TaskStays(code, ss, ms, i, j - 1, c);
    if j == i + 1 {
      RunSound(code, ss, ms, i);
      TickOfTask(code, ss[i], ms[i], ss[j]);
      SameLocalsAgain(ss[i].locals, ss[i].tasks[c].dir);
    } else {
      MemoryKept(code, ss, ms, i, j - 1);
      OneMore(code, ss, ms, j - 1, c);
      SameLocalsChain(ss[i].locals, ss[j - 1].locals, ss[j].locals, ss[i].tasks[c].dir);
    }
  }

  // ---------------------------------------------------------------- the plain cases

  /** With one task a tick comes to nothing: one step of the handler later the state is what it was, in all its parts. */
  lemma LoneTick(code: Code, ss: seq<State>, ms: seq<Move>, i: nat)
    requires Run(code, ss, ms) && i + 1 < |ms| && ms[i].Tick? && |ss[i].tasks| == 1
    ensures ss[i + 2] == ss[i]
  {
    assert Step(code, ss[i], ms[i], ss[i + 1]);
    assert Step(code, ss[i + 1], ms[i + 1], ss[i + 2]);
  }

  /**
   * Every step that leads out of the handler: back to the place and the registers the tick has found, or into the
   * task that is switched to.  Interrupts are on after each.
   */
  lemma HandlerEndsOn(code: Code, ss: seq<State>, ms: seq<Move>, i: nat)
    requires CodeLinked(code) && Run(code, ss, ms) && ss[0].private && i < |ms| && ms[i].Go?
    ensures ss[i].at.Switch1? ==>
              if |ss[i].tasks| > 1 then ss[i + 1].at == Switch2(ss[i].at.back)
              else ss[i + 1] == ss[i].(at := ss[i].at.back.at, regs := ss[i].at.back.regs, on := true)
    ensures ss[i].at.Switch3? ==>
              if ss[i].at.got != 0x12345 then ss[i + 1].at == Switch4(ss[i].at.back)
              else ss[i + 1] == ss[i].(at := ss[i].at.back.at, regs := ss[i].at.back.regs, on := true)
    ensures ss[i].at.Switch9? ==>
              && ss[i + 1].on && ss[i].cur < |ss[i].tasks|
              && ss[i + 1] == ss[i].(at := ss[i + 1].at, regs := ss[i].tasks[ss[i].cur].saved, on := true)
              && ss[i + 1].at == if ss[i].tasks[ss[i].cur].saved.eip == code.switchEip
                                 then Switch3(ss[i].tasks[ss[i].cur].stack, 0x12345) else Compare(-1)
  {
    RunKeepsInv(code, ss, ms, i);
    assert Step(code, ss[i], ms[i], ss[i + 1]);
  }

  /** Outside the tasks' own code interrupts are on exactly where fork is about to return and where a jump has led. */
  lemma InterruptsOnExactly(code: Code, ss: seq<State>, ms: seq<Move>, i: nat)
    requires CodeLinked(code) && Run(code, ss, ms) && ss[0].private && i < |ss| && ss[i].at != Own
    ensures ss[i].on <==>
              ss[i].at.ForkDone? || ss[i].at == Compare(-1) || (ss[i].at.Switch3? && ss[i].at.got == 0x12345)
  {
    RunSound(code, ss, ms, i);
  }

  /** Every return of the handler is the return from one tick that has struck the same task. */
  lemma ReturnsFromTick(code: Code, ss: seq<State>, ms: seq<Move>, j: nat) returns (i: nat)
    requires CodeLinked(code) && Run(code, ss, ms) && ss[0].private && j < |ms| && HandlerReturns(ss[j], ms[j])
    ensures i <= j && ms[i].Tick? && ss[i].cur == ss[j].cur == ss[j + 1].cur
    ensures Depth(code, ss[i], ss[i].cur) == Depth(code, ss[j + 1], ss[i].cur)
    ensures forall k :: i < k <= j ==> Depth(code, ss[k], ss[i].cur) > Depth(code, ss[i], ss[i].cur)
    ensures ss[j + 1].at == ss[i].at && ss[j + 1].regs == ss[i].regs && ss[j + 1].on
  {
    hide Step, Sound, Init, FramesOf;
    var c := ss[j].cur;
    RunSound(code, ss, ms, j);
    ReturnsInTask(code, ss[j], ms[j]);
    StepFrames(code, ss[j], ms[j], ss[j + 1], c);
    i := LastAt(code, ss, ms, j, c, Depth(code, ss[j + 1], c));
    InterruptedGoesOn(code, ss, ms, i, j + 1);
  }

  lemma ReturnsInTask(code: Code, s: State, m: Move)
    requires Sound(code, s) && HandlerReturns(s, m)
    ensures s.cur < |s.tasks|
  {
  }

  /** The last tick that found task `c` at depth `d`. */
  lemma {:induction false} LastAt(code: Code, ss: seq<State>, ms: seq<Move>, j: nat, c: nat, d: nat) returns (i: nat)
    requires CodeLinked(code) && Run(code, ss, ms) && ss[0].private && j < |ms| && Depth(code, ss[j], c) > d
    ensures i < j && ms[i].Tick? && ss[i].cur == c && Depth(code, ss[i], c) == d
    ensures forall k :: i < k <= j ==> Depth(code, ss[k], c) > d
    decreases j
  {
    hide Step, Sound, Init, FramesOf;
    if j == 0 {
      StartsFlat(code, ss[0], c);
      assert false;
    } else {
      DepthMoves(code, ss, ms, j - 1, c);
      if Depth(code, ss[j - 1], c) > d {
        i := LastAt(code, ss, ms, j - 1, c, d);
      } else {
        i := j - 1;
      }
    }
  }

  lemma StartsFlat(code: Code, s: State, c: nat)
    requires Init(s)
    ensures Depth(code, s, c) == 0
  {
  }

  /** A depth grows by a tick alone, and by one. */
  lemma DepthMoves(code: Code, ss: seq<State>, ms: seq<Move>, i: nat, c: nat)
    requires CodeLinked(code) && Run(code, ss, ms) && ss[0].private && i < |ms|
    ensures Depth(code, ss[i + 1], c) <= Depth(code, ss[i], c)
         || (ms[i].Tick? && ss[i].cur == c && Depth(code, ss[i + 1], c) == Depth(code, ss[i], c) + 1)
  {
    hide Step, Sound, Init, FramesOf;
    RunSound(code, ss, ms, i);
    if c < |ss[i].tasks| {
      StepFrames(code, ss[i], ms[i], ss[i + 1], c);
    } else {
      NewTask(code, ss[i], ms[i], ss[i + 1], c);
    }
  }

  /** A child begins without frames. */
  lemma NewTask(code: Code, s: State, m: Move, s': State, c: nat)
    requires CodeLinked(code) && Sound(code, s) && Step(code, s, m, s') && c >= |s.tasks|
    ensures Depth(code, s', c) == 0
  {
    hide Frames, Step, OnExactly, FramesOf;
    HasFooting(code, s);
    hide Inv;
    if c < |s'.tasks| {
      AddsTask(code, s, m, s');
      NotSaved(code, s', c);
    }
  }

  lemma AddsTask(code: Code, s: State, m: Move, s': State)
    requires Footing(code, s) && Step(code, s, m, s') && |s'.tasks| > |s.tasks|
    ensures s.at == Fork4 && s'.tasks == s.tasks + s.made && s'.cur == s.cur < |s.tasks|
  {
    hide ForkStep, SwitchStep, FreshDir, OnlyChanges, CopyLocals;
    if m.Go? && GoesInFork(s.at) {
      StepOfFork(code, s, m, s');
      ForkAdds(code, s, m.dir, s');
    } else if m.Go? && s.at != Switch7 {
      StepOfSwitch(code, s, m, s');
      SwitchLocals(code, s, s');
    }
  }

  lemma ForkAdds(code: Code, s: State, d: int, s': State)
    requires s.cur < |s.tasks| && ForkStep(code, s, d, s') && |s'.tasks| > |s.tasks|
    ensures s.at == Fork4 && s'.tasks == s.tasks + s.made && s'.cur == s.cur
  {
    hide FreshDir, CopyLocals;
  }

  lemma NotSaved(code: Code, s: State, c: nat)
    requires c < |s.tasks| && c != s.cur && s.tasks[c].saved.eip != code.switchEip
    ensures Depth(code, s, c) == 0
  {
  }
}
