/** What fork returns, over whole interleavings: 0 to each child, once and first, and each child's id to its parent once. */
module ForkResults {
  import opened Tasks
  import opened Interleaving

  // ---------------------------------------------------------------- where a task stands

  /** Beneath the timer handler: the place that was interrupted. */
  function Bottom(p: Point): Point
    decreases p
  {
    match p
    case Switch1(f) => Bottom(f.at)
    case Switch2(f) => Bottom(f.at)
    case Switch3(f, _) => Bottom(f.at)
    case Switch4(f) => Bottom(f.at)
    case Switch5(f) => Bottom(f.at)
    case _ => p
  }

  /** Where a task goes on once it is resumed; a child starts at the comparison in fork. */
  function Resumes(code: Code, t: TaskRec): Point {
    if t.saved.eip == code.switchEip then Bottom(t.stack.at) else Compare(-1)
  }

  /** The place of task `i` in its own code and in fork, whether it runs or not.  Switching does not change it. */
  function Place(code: Code, s: State, i: nat): Point
    requires i < |s.tasks|
  {
    if i == s.cur && !Between(s.at) then Bottom(s.at) else Resumes(code, s.tasks[i])
  }

  /** A child that fork has not returned to yet. */
  predicate Unreturned(p: Point) {
    p == Compare(-1) || p == ForkDone(0)
  }

  /** The child id that fork is about to return; 0 when there is none. */
  function Promised(p: Point): int {
    match p
    case Compare(c) => if c == -1 then 0 else c
    case Parent0(c) => c
    case Parent1(c) => c
    case Parent2(c) => c
    case Parent3(c) => c
    case ForkDone(v) => v
    case _ => 0
  }

  predicate LoggedTask(s: State, id: int) {
    exists k :: 0 <= k < |s.log| && s.log[k].0 == id
  }

  predicate LoggedValue(s: State, v: int) {
    exists k :: 0 <= k < |s.log| && s.log[k].1 == v
  }

  // ---------------------------------------------------------------- the invariant

  /** What fork has returned so far. */
  ghost predicate Returns(s: State) {
    && (forall k :: 0 <= k < |s.log| ==> 0 < s.log[k].0 < s.nextPid)
    && (forall k :: 0 <= k < |s.log| && s.log[k].1 == 0 ==> s.log[k].0 in s.parent)
    // a child's first result is 0
    && (forall k :: 0 <= k < |s.log| && s.log[k].0 in s.parent && (forall j :: 0 <= j < k ==> s.log[j].0 != s.log[k].0) ==>
          s.log[k].1 == 0)
    // and no later one is
    && (forall j, k :: 0 <= j < k < |s.log| && s.log[k].1 == 0 ==> s.log[j].0 != s.log[k].0)
    // no id is returned twice
    && (forall j, k :: 0 <= j < k < |s.log| && s.log[k].1 != 0 ==> s.log[j].1 != s.log[k].1)
  }

  /** A task at place `p`. */
  ghost predicate Told(s: State, id: int, p: Point) {
    && (Unreturned(p) <==> id in s.parent && !LoggedTask(s, id))
    && (Promised(p) != 0 ==>
          Promised(p) in s.parent && s.parent[Promised(p)] == id && !LoggedValue(s, Promised(p)))
  }

  /** Where fork has the child's id at hand, that is a proper one. */
  predicate Named(p: Point) {
    match p
    case Compare(c) => c == -1 || c > 0
    case Parent0(c) => c > 0
    case Parent1(c) => c > 0
    case Parent2(c) => c > 0
    case Parent3(c) => c > 0
    case _ => true
  }

  ghost predicate Untold(s: State, id: int) {
    !LoggedTask(s, id) && !LoggedValue(s, id)
  }

  ghost predicate History(code: Code, s: State) {
    && Returns(s) && Named(s.at)
    && (forall i :: 0 <= i < |s.tasks| ==> Told(s, s.tasks[i].id, Place(code, s, i)))
    && (s.at == Fork4 ==> forall k :: 0 <= k < |s.made| ==> Untold(s, s.made[k].id) && s.made[k].saved == ZERO)
    && (Building(s.at) ==> |s.tasks| > 0 && s.tasks[|s.tasks| - 1].saved.eip == 0)
    && (s.at == Fork5 ==> |s.tasks| > 0 && Untold(s, s.tasks[|s.tasks| - 1].id))
  }

  // ---------------------------------------------------------------- steps

  /** A step that returns nothing, makes no child and leaves every task where it is. */
  ghost predicate Unmoved(code: Code, s: State, s': State) {
    && s'.log == s.log && s'.parent == s.parent && s'.nextPid == s.nextPid
    && |s'.tasks| == |s.tasks| && s'.at != Fork4 && s'.at != Fork5 && Named(s'.at)
    && (forall i :: 0 <= i < |s.tasks| ==> s'.tasks[i].id == s.tasks[i].id)
    && (Building(s'.at) ==>
          Building(s.at) && |s.tasks| > 0 && s'.tasks[|s.tasks| - 1].saved.eip == s.tasks[|s.tasks| - 1].saved.eip)
    && (forall i :: 0 <= i < |s.tasks| ==>
          && (Unreturned(Place(code, s', i)) <==> Unreturned(Place(code, s, i)))
          && (Promised(Place(code, s', i)) == 0 || Promised(Place(code, s', i)) == Promised(Place(code, s, i))))
  }

  lemma SamePlaces(code: Code, s: State, s': State)
    requires History(code, s) && Unmoved(code, s, s')
    ensures History(code, s')
  {
    hide Place, Told;
    ReturnsStay(s, s');
    forall i | 0 <= i < |s'.tasks| ensures Told(s', s'.tasks[i].id, Place(code, s', i)) {
      ToldStays(s, s', s.tasks[i].id, Place(code, s, i), Place(code, s', i));
    }
  }

  lemma WorkKeeps(code: Code, s: State, m: Move, s': State)
    requires CodeLinked(code) && Inv(code, s) && History(code, s) && !m.Go? && Step(code, s, m, s')
    ensures History(code, s')
  {
    hide AtOk, Shape, History;
    assert Unmoved(code, s, s');
    SamePlaces(code, s, s');
  }

  lemma Assemble(code: Code, s: State)
    requires Returns(s) && s.at != Fork4 && s.at != Fork5 && Named(s.at)
    requires Building(s.at) ==> |s.tasks| > 0 && s.tasks[|s.tasks| - 1].saved.eip == 0
    requires forall i :: 0 <= i < |s.tasks| ==> Told(s, s.tasks[i].id, Place(code, s, i))
    ensures History(code, s)
  {
    hide Told, Returns, Place;
  }

  lemma Parts(code: Code, s: State)
    requires History(code, s)
    ensures Returns(s) && forall i :: 0 <= i < |s.tasks| ==> Told(s, s.tasks[i].id, Place(code, s, i))
    ensures s.at == Fork5 ==> |s.tasks| > 0 && Untold(s, s.tasks[|s.tasks| - 1].id) && s.tasks[|s.tasks| - 1].saved.eip == 0
  {
    hide Told, Returns, Place, Untold;
  }

  // What the invariant of the machine says at the places where it is needed.

  lemma Running(code: Code, s: State)
    requires Inv(code, s) && s.at != Switch7
    ensures s.cur < |s.tasks|
  {
  }

  lemma AtSwitch5(code: Code, s: State)
    requires Inv(code, s) && s.at.Switch5?
    ensures s.cur < |s.tasks| && Cur(s).saved.eip == code.switchEip
  {
  }

  lemma AtSwitch9(code: Code, s: State)
    requires Inv(code, s) && s.at == Switch9
    ensures s.cur < |s.tasks| && (Cur(s).saved.eip == code.switchEip || Cur(s).saved.eip == code.forkEip)
  {
    assert Waiting(code, s.tasks[s.cur], s.last, s.locals, s.parent);
  }

  lemma AtCompare(code: Code, s: State)
    requires Inv(code, s) && s.at.Compare?
    ensures s.cur < |s.tasks| && (Space(s, s.dir), s.regs.ebp) in s.locals
    ensures s.locals[(Space(s, s.dir), s.regs.ebp)] == Cur(s).id <==> s.at.child != -1
  {
  }

  lemma AtFork5(code: Code, s: State)
    requires Inv(code, s) && s.at == Fork5
    ensures var n := |s.tasks|;
            && s.cur < n - 1 && 0 < s.tasks[n - 1].id
            && s.tasks[n - 1].id in s.parent && s.parent[s.tasks[n - 1].id] == Cur(s).id
  {
  }

  lemma AtFork4(code: Code, s: State)
    requires Inv(code, s) && s.at == Fork4
    ensures s.cur < |s.tasks| && |s.made| == 1 && s.made[0].id in s.parent
  {
  }

  lemma Ids(code: Code, s: State)
    requires Inv(code, s)
    ensures 0 < s.nextPid && forall i :: 0 <= i < |s.tasks| ==> 0 < s.tasks[i].id < s.nextPid
    ensures forall i, j :: 0 <= i < j < |s.tasks| ==> s.tasks[i].id < s.tasks[j].id
    ensures forall v :: v in s.parent ==> 0 < v < s.nextPid
    ensures forall k :: 0 <= k < |s.log| ==> s.log[k].1 < s.nextPid && (s.log[k].1 == 0 ==> s.log[k].0 in s.parent)
  {
  }

  lemma AtForkDone(code: Code, s: State)
    requires Inv(code, s) && s.at.ForkDone?
    ensures s.cur < |s.tasks| && (s.at.value == 0 ==> Cur(s).id in s.parent)
  {
  }

  /** The timer handler before anything is saved, and its return. */
  lemma HandlerKeeps(code: Code, s: State, d: int, s': State)
    requires CodeLinked(code) && Inv(code, s) && History(code, s) && Step(code, s, Go(d), s')
    requires s.at.Switch1? || s.at.Switch2? || s.at.Switch3?
    ensures History(code, s')
  {
    hide Inv, History, Step, Unmoved;
    Running(code, s);
    NotBuilding(code, s, s.at.back);
    HandlerEffect(code, s, d, s');
    SamePlaces(code, s, s');
  }

  lemma HandlerEffect(code: Code, s: State, d: int, s': State)
    requires Step(code, s, Go(d), s')
    requires s.at.Switch1? || s.at.Switch2? || s.at.Switch3?
    requires s.cur < |s.tasks| && Named(s.at.back.at) && !Building(s.at.back.at) && s.at.back.at != Fork4 && s.at.back.at != Fork5 && !Between(s.at.back.at)
    ensures Unmoved(code, s, s')
  {
    HandlerCases(code, s, d, s');
    hide Step;
    if s.at.Switch3? && s.at.got != SENTINEL {
      EipSaved(code, s, s');
    } else {
      CurMoved(code, s, s');
    }
  }

  lemma HandlerCases(code: Code, s: State, d: int, s': State)
    requires Step(code, s, Go(d), s') && s.cur < |s.tasks|
    requires s.at.Switch1? || s.at.Switch2? || s.at.Switch3?
    ensures if s.at.Switch3? && s.at.got != SENTINEL
            then s' == SetSaved(s, s.cur, Cur(s).saved.(eip := s.at.got)).(at := Switch4(s.at.back))
            else s' == s.(at := s'.at, regs := s'.regs, on := s'.on)
                 && (s'.at == s.at.back.at || s'.at == Switch2(s.at.back) || s'.at == Switch3(s.at.back, code.switchEip))
  {
    GoSwitches(code, s, d, s');
    hide Step, ForkStep;
  }

  lemma GoSwitches(code: Code, s: State, d: int, s': State)
    requires Step(code, s, Go(d), s') && s.cur < |s.tasks|
    requires s.at.Switch1? || s.at.Switch2? || s.at.Switch3? || s.at.Switch4? || s.at.Switch5?
    ensures SwitchStep(code, s, s')
  {
    hide SwitchStep;
  }

  lemma EipSaved(code: Code, s: State, s': State)
    requires s.at.Switch3? && s.cur < |s.tasks|
    requires s' == SetSaved(s, s.cur, Cur(s).saved.(eip := s.at.got)).(at := Switch4(s.at.back))
    ensures Unmoved(code, s, s')
  {
  }

  /** What is interrupted is not fork at work on a child. */
  lemma NotBuilding(code: Code, s: State, f: Frame)
    requires Inv(code, s) && ((s.at.Switch1? && s.at.back == f) || (s.at.Switch2? && s.at.back == f) || (s.at.Switch3? && s.at.back == f))
    ensures Named(f.at) && !Building(f.at) && f.at != Fork4 && f.at != Fork5 && !Between(f.at)
  {
  }

  lemma SavingKeeps(code: Code, s: State, d: int, s': State)
    requires CodeLinked(code) && Inv(code, s) && History(code, s) && Step(code, s, Go(d), s')
    requires s.at.Switch4? || s.at.Switch5?
    ensures History(code, s')
  {
    hide Inv, History, Step, Unmoved;
    Running(code, s);
    if s.at.Switch5? {
      AtSwitch5(code, s);
    }
    SavingEffect(code, s, d, s');
    SamePlaces(code, s, s');
  }

  lemma SavingEffect(code: Code, s: State, d: int, s': State)
    requires Step(code, s, Go(d), s')
    requires s.at.Switch4? || s.at.Switch5?
    requires s.cur < |s.tasks| && (s.at.Switch5? ==> Cur(s).saved.eip == code.switchEip)
    ensures Unmoved(code, s, s')
  {
    hide CopyLocals;
  }

  lemma AdvanceKeeps(code: Code, s: State, d: int, s': State)
    requires CodeLinked(code) && Inv(code, s) && History(code, s) && Step(code, s, Go(d), s')
    requires s.at == Switch6 || s.at == Switch7 || s.at == Switch8
    ensures History(code, s')
  {
    hide Inv, History, Step, Unmoved;
    AdvanceEffect(code, s, d, s');
    SamePlaces(code, s, s');
  }

  lemma AdvanceEffect(code: Code, s: State, d: int, s': State)
    requires Step(code, s, Go(d), s')
    requires s.at == Switch6 || s.at == Switch7 || s.at == Switch8
    ensures Unmoved(code, s, s')
  {
    hide CopyLocals;
  }

  lemma JumpKeeps(code: Code, s: State, d: int, s': State)
    requires CodeLinked(code) && Inv(code, s) && History(code, s) && Step(code, s, Go(d), s')
    requires s.at == Switch9
    ensures History(code, s')
  {
    hide Inv, History, Step, Unmoved;
    AtSwitch9(code, s);
    JumpEffect(code, s, d, s');
    SamePlaces(code, s, s');
  }

  lemma JumpEffect(code: Code, s: State, d: int, s': State)
    requires Step(code, s, Go(d), s')
    requires s.at == Switch9
    requires s.cur < |s.tasks| && (Cur(s).saved.eip == code.switchEip || Cur(s).saved.eip == code.forkEip)
    requires CodeLinked(code)
    ensures Unmoved(code, s, s')
  {
    hide CopyLocals;
  }

  lemma ChildBuilding(code: Code, s: State)
    requires History(code, s)
    ensures Building(s.at) ==> |s.tasks| > 0 && s.tasks[|s.tasks| - 1].saved.eip == 0
    ensures Named(s.at)
  {
  }

  lemma ForkStartKeeps(code: Code, s: State, d: int, s': State)
    requires CodeLinked(code) && Inv(code, s) && History(code, s) && Step(code, s, Go(d), s')
    requires s.at.Fork1? || s.at.Fork2? || s.at.Parent3?
    ensures History(code, s')
  {
    hide Inv, History, Step, Unmoved;
    Running(code, s);
    ChildBuilding(code, s);
    ForkStartEffect(code, s, d, s');
    SamePlaces(code, s, s');
  }

  lemma ForkStartEffect(code: Code, s: State, d: int, s': State)
    requires Step(code, s, Go(d), s') && Named(s.at)
    requires s.at.Fork1? || s.at.Fork2? || s.at.Parent3?
    requires s.cur < |s.tasks|
    ensures Unmoved(code, s, s')
  {
    hide CopyLocals;
  }

  lemma ParentKeeps(code: Code, s: State, d: int, s': State)
    requires CodeLinked(code) && Inv(code, s) && History(code, s) && Step(code, s, Go(d), s')
    requires s.at.Parent0? || s.at.Parent1? || s.at.Parent2?
    ensures History(code, s')
  {
    hide Inv, History, Step, Unmoved;
    NotLast(code, s);
    ChildBuilding(code, s);
    ParentEffect(code, s, d, s');
    SamePlaces(code, s, s');
  }

  lemma ParentEffect(code: Code, s: State, d: int, s': State)
    requires Step(code, s, Go(d), s')
    requires s.at.Parent0? || s.at.Parent1? || s.at.Parent2?
    requires s.cur < |s.tasks| - 1 && Named(s.at) && s.tasks[|s.tasks| - 1].saved.eip == 0 && CodeLinked(code)
    ensures Unmoved(code, s, s')
  {
    hide Step, Unmoved;
    var eip := ParentCases(code, s, d, s');
    ParentUnmoved(code, s, s', eip);
  }

  /** Only the saved context of the child changes. */
  lemma ParentCases(code: Code, s: State, d: int, s': State) returns (eip: int)
    requires Step(code, s, Go(d), s') && s.cur < |s.tasks| - 1 && s.tasks[|s.tasks| - 1].saved.eip == 0
    requires s.at.Parent0? || s.at.Parent1? || s.at.Parent2?
    ensures eip == if s.at.Parent2? then code.forkEip else 0
    ensures s' == s.(at := s'.at, tasks := s'.tasks, last := s'.last)
    ensures s'.tasks == s.tasks[|s.tasks| - 1 := s.tasks[|s.tasks| - 1].(saved := s'.tasks[|s.tasks| - 1].saved)]
    ensures s'.tasks[|s.tasks| - 1].saved.eip == eip
    ensures s'.at == (if s.at.Parent0? then Parent1(s.at.child) else if s.at.Parent1? then Parent2(s.at.child) else Parent3(s.at.child))
  {
    eip := if s.at.Parent2? then code.forkEip else 0;
  }

  lemma ParentUnmoved(code: Code, s: State, s': State, eip: int)
    requires s.cur < |s.tasks| - 1 && Named(s.at) && s.tasks[|s.tasks| - 1].saved.eip == 0 && CodeLinked(code)
    requires s.at.Parent0? || s.at.Parent1? || s.at.Parent2?
    requires s' == s.(at := s'.at, tasks := s'.tasks, last := s'.last) && |s'.tasks| == |s.tasks|
    requires s'.tasks == s.tasks[|s.tasks| - 1 := s.tasks[|s.tasks| - 1].(saved := s'.tasks[|s.tasks| - 1].saved)]
    requires s'.tasks[|s.tasks| - 1].saved.eip == eip == if s.at.Parent2? then code.forkEip else 0
    requires s'.at == (if s.at.Parent0? then Parent1(s.at.child) else if s.at.Parent1? then Parent2(s.at.child) else Parent3(s.at.child))
    ensures Unmoved(code, s, s')
  {
  }

  lemma NotLast(code: Code, s: State)
    requires Inv(code, s) && (s.at.Parent0? || s.at.Parent1? || s.at.Parent2?)
    ensures s.cur < |s.tasks| - 1
  {
  }

  lemma CompareKeeps(code: Code, s: State, d: int, s': State)
    requires CodeLinked(code) && Inv(code, s) && History(code, s) && Step(code, s, Go(d), s') && s.at.Compare?
    ensures History(code, s') && (s.at == Compare(-1) ==> s'.at == ForkDone(0) && s'.cur == s.cur)
  {
    hide Inv, History, Step, Unmoved;
    AtCompare(code, s);
    ChildBuilding(code, s);
    CompareEffect(code, s, d, s');
    SamePlaces(code, s, s');
  }

  lemma CompareEffect(code: Code, s: State, d: int, s': State)
    requires Step(code, s, Go(d), s') && s.at.Compare? && Named(s.at) && s.cur < |s.tasks| && (Space(s, s.dir), s.regs.ebp) in s.locals
    requires s.locals[(Space(s, s.dir), s.regs.ebp)] == Cur(s).id <==> s.at.child != -1
    ensures Unmoved(code, s, s') && (s.at == Compare(-1) ==> s'.at == ForkDone(0) && s'.cur == s.cur)
  {
    var c := s.at.child;
    assert s' == s.(at := if c != -1 then Parent0(c) else ForkDone(0));
    CurMoved(code, s, s');
  }

  /** Only the running task goes on, to a place that means the same for fork. */
  lemma CurMoved(code: Code, s: State, s': State)
    requires s.cur < |s.tasks| && s' == s.(at := s'.at, regs := s'.regs, on := s'.on) && !Between(s.at) && !Between(s'.at)
    requires Unreturned(Bottom(s'.at)) <==> Unreturned(Bottom(s.at))
    requires Promised(Bottom(s'.at)) == 0 || Promised(Bottom(s'.at)) == Promised(Bottom(s.at))
    requires s'.at != Fork4 && s'.at != Fork5 && Named(s'.at) && (Building(s'.at) ==> Building(s.at))
    ensures Unmoved(code, s, s')
  {
  }

  lemma ReturnsStay(s: State, s': State)
    requires Returns(s) && s'.log == s.log && (s'.nextPid > s.nextPid || s'.nextPid == s.nextPid)
    requires forall v :: v < s.nextPid ==> (v in s.parent <==> v in s'.parent)
    ensures Returns(s')
  {
  }

  /** Telling depends on the log, and on the parents of the ids involved. */
  lemma ToldStays(s: State, s': State, id: int, p: Point, p': Point)
    requires Told(s, id, p) && s'.log == s.log
    requires (Unreturned(p') <==> Unreturned(p)) && (Promised(p') == 0 || Promised(p') == Promised(p))
    requires (id in s.parent <==> id in s'.parent) && forall v :: v in s.parent ==> v in s'.parent && s'.parent[v] == s.parent[v]
    ensures Told(s', id, p')
  {
  }

  /** A new child: its id has not been returned to anyone, nor anything to it. */
  lemma Fork3Keeps(code: Code, s: State, d: int, s': State)
    requires CodeLinked(code) && Inv(code, s) && History(code, s) && Step(code, s, Go(d), s') && s.at.Fork3?
    ensures History(code, s')
  {
    hide Inv, Told, Returns, Place, Step;
    Running(code, s);
    Ids(code, s);
    Fork3Effect(code, s, d, s');
    ReturnsStay(s, s');
    LogBelow(s);
    forall i | 0 <= i < |s'.tasks| ensures Told(s', s'.tasks[i].id, Place(code, s', i)) {
      Fork3Place(code, s, s', i);
      ToldStays(s, s', s.tasks[i].id, Place(code, s, i), Place(code, s', i));
    }
  }

  lemma Fork3Effect(code: Code, s: State, d: int, s': State)
    requires Step(code, s, Go(d), s') && s.at.Fork3? && s.cur < |s.tasks|
    ensures s' == s.(at := Fork4, made := [TaskRec(s.nextPid, ZERO, s.at.dir, Frame(Lost, ZERO))], nextPid := s.nextPid + 1,
                     parent := s.parent[s.nextPid := Cur(s).id])
  {
  }

  lemma LogBelow(s: State)
    requires Returns(s)
    ensures forall k :: 0 <= k < |s.log| ==> s.log[k].0 < s.nextPid
  {
  }

  lemma Fork3Place(code: Code, s: State, s': State, i: nat)
    requires i < |s.tasks| && s.at.Fork3? && s'.at == Fork4 && s'.tasks == s.tasks && s'.cur == s.cur
    ensures Place(code, s', i) == if i == s.cur then Fork4 else Place(code, s, i)
    ensures i == s.cur ==> !Unreturned(Place(code, s, i)) && Promised(Place(code, s, i)) == 0
  {
  }

  lemma Fork4Keeps(code: Code, s: State, d: int, s': State)
    requires CodeLinked(code) && Inv(code, s) && History(code, s) && Step(code, s, Go(d), s') && s.at == Fork4
    ensures History(code, s')
  {
    hide Inv, Told, Returns, Place, Step;
    AtFork4(code, s);
    Fork45Effect(code, s, d, s');
    var n := |s.tasks|;
    ReturnsStay(s, s');
    forall i | 0 <= i < |s'.tasks| ensures Told(s', s'.tasks[i].id, Place(code, s', i)) {
      if i < n {
        Fork4Place(code, s, s', i);
        ToldStays(s, s', s.tasks[i].id, Place(code, s, i), Place(code, s', i));
      } else {
        ChildTold(code, s, s');
      }
    }
  }

  lemma Fork45Effect(code: Code, s: State, d: int, s': State)
    requires Step(code, s, Go(d), s') && s.cur < |s.tasks|
    ensures s.at == Fork4 ==> s' == s.(at := Fork5, tasks := s.tasks + s.made, made := [])
    ensures s.at == Fork5 ==> s' == s.(at := Compare(s.tasks[|s.tasks| - 1].id))
    ensures s.at.ForkDone? ==> s' == s.(at := Own, log := s.log + [(Cur(s).id, s.at.value)])
  {
  }

  lemma Fork4Place(code: Code, s: State, s': State, i: nat)
    requires i < |s.tasks| && s.at.Fork4? && s'.at == Fork5 && s'.tasks == s.tasks + s.made && s'.cur == s.cur
    ensures Place(code, s', i) == if i == s.cur then Fork5 else Place(code, s, i)
    ensures i == s.cur ==> !Unreturned(Place(code, s, i)) && Promised(Place(code, s, i)) == 0
  {
  }

  lemma ChildTold(code: Code, s: State, s': State)
    requires CodeLinked(code) && |s.made| == 1 && s.made[0].saved == ZERO && s.made[0].id in s.parent && s.cur < |s.tasks|
    requires s' == s.(at := Fork5, tasks := s.tasks + s.made, made := []) && Untold(s, s.made[0].id)
    ensures s'.tasks[|s.tasks|] == s.made[0] && Told(s', s.made[0].id, Place(code, s', |s.tasks|))
  {
    assert Place(code, s', |s.tasks|) == Compare(-1);
  }

  lemma Fork5Keeps(code: Code, s: State, d: int, s': State)
    requires CodeLinked(code) && Inv(code, s) && History(code, s) && Step(code, s, Go(d), s') && s.at == Fork5
    ensures History(code, s')
  {
    hide Inv, Told, Returns, Place, Step, History, Untold, Unreturned, Promised;
    AtFork5(code, s);
    Fork45Effect(code, s, d, s');
    Parts(code, s);
    ReturnsStay(s, s');
    forall i | 0 <= i < |s'.tasks| ensures Told(s', s'.tasks[i].id, Place(code, s', i)) {
      Fork5Place(code, s, s', i);
      if i == s.cur {
        ParentTold(s, s', s.tasks[i].id, s.tasks[|s.tasks| - 1].id);
      } else {
        ToldStays(s, s', s.tasks[i].id, Place(code, s, i), Place(code, s', i));
      }
    }
    Assemble(code, s');
  }

  lemma Fork5Place(code: Code, s: State, s': State, i: nat)
    requires i < |s.tasks| && s.at.Fork5? && s'.at.Compare? && s'.tasks == s.tasks && s'.cur == s.cur
    ensures Place(code, s', i) == if i == s.cur then s'.at else Place(code, s, i)
    ensures i == s.cur ==> Place(code, s, i) == Fork5
  {
  }

  lemma ParentTold(s: State, s': State, id: int, child: int)
    requires Told(s, id, Fork5) && Untold(s, child) && child > 0 && child in s.parent && s.parent[child] == id
    requires s'.log == s.log && s'.parent == s.parent
    ensures Told(s', id, Compare(child))
  {
  }

  /** fork returns. */
  lemma ForkDoneKeeps(code: Code, s: State, d: int, s': State)
    requires CodeLinked(code) && Inv(code, s) && History(code, s) && Step(code, s, Go(d), s') && s.at.ForkDone?
    ensures History(code, s')
  {
    hide Inv, Told, Returns, Place, Step, History, Untold, Unreturned, Promised;
    AtForkDone(code, s);
    Ids(code, s);
    Fork45Effect(code, s, d, s');
    Parts(code, s);
    assert Place(code, s, s.cur) == s.at by { ForkDonePlace(code, s, s', s.cur); }
    LogGrows(s, s', Cur(s).id, s.at.value);
    forall i | 0 <= i < |s'.tasks| ensures Told(s', s'.tasks[i].id, Place(code, s', i)) {
      ForkDonePlace(code, s, s', i);
      LogTells(s, s', Cur(s).id, s.at.value, s.tasks[i].id, Place(code, s, i), i == s.cur);
    }
    Assemble(code, s');
  }

  lemma ForkDonePlace(code: Code, s: State, s': State, i: nat)
    requires i < |s.tasks| && s.at.ForkDone? && s'.at == Own && s'.tasks == s.tasks && s'.cur == s.cur
    ensures Place(code, s', i) == if i == s.cur then Own else Place(code, s, i)
    ensures i == s.cur ==> Place(code, s, i) == s.at
  {
  }

  lemma LogGrows(s: State, s': State, id: int, v: int)
    requires Returns(s) && Told(s, id, ForkDone(v)) && 0 < id < s.nextPid
    requires s'.log == s.log + [(id, v)] && s'.parent == s.parent && s'.nextPid == s.nextPid
    ensures Returns(s')
  {
    var n := |s.log|;
    assert Promised(ForkDone(v)) == v;
    assert v == 0 ==> id in s.parent && forall k :: 0 <= k < n ==> s.log[k].0 != id;
    assert v != 0 && id in s.parent ==> LoggedTask(s, id);
    assert v != 0 ==> forall k :: 0 <= k < n ==> s.log[k].1 != v;
    hide Told;
    FirstsGrow(s, s', id, v);
    forall j, k | 0 <= j < k < |s'.log|
      ensures s'.log[k].1 == 0 ==> s'.log[j].0 != s'.log[k].0
      ensures s'.log[k].1 != 0 ==> s'.log[j].1 != s'.log[k].1
    {
      assert s'.log[j] == s.log[j];
      assert s'.log[k] == if k < n then s.log[k] else (id, v);
    }
    forall k | 0 <= k < |s'.log|
      ensures 0 < s'.log[k].0 < s'.nextPid && (s'.log[k].1 == 0 ==> s'.log[k].0 in s'.parent)
    {
      assert s'.log[k] == if k < n then s.log[k] else (id, v);
    }
  }

  lemma FirstsGrow(s: State, s': State, id: int, v: int)
    requires Returns(s) && (v != 0 && id in s.parent ==> LoggedTask(s, id))
    requires s'.log == s.log + [(id, v)] && s'.parent == s.parent
    ensures forall k :: 0 <= k < |s'.log| && s'.log[k].0 in s'.parent && (forall j :: 0 <= j < k ==> s'.log[j].0 != s'.log[k].0) ==>
              s'.log[k].1 == 0
  {
    var n := |s.log|;
    assert forall k :: 0 <= k < n ==> s'.log[k] == s.log[k];
    assert s'.log[n] == (id, v);
  }

  lemma LogTells(s: State, s': State, id: int, v: int, other: int, p: Point, same: bool)
    requires Told(s, id, ForkDone(v)) && Told(s, other, p) && (same <==> other == id) && (same ==> p == ForkDone(v))
    requires s'.log == s.log + [(id, v)] && s'.parent == s.parent
    ensures Told(s', other, if same then Own else p)
  {
    var n := |s.log|;
    assert s'.log[n] == (id, v) && forall k :: 0 <= k < n ==> s'.log[k] == s.log[k];
    assert LoggedTask(s', other) <==> LoggedTask(s, other) || same;
    assert Promised(p) != 0 ==> (LoggedValue(s', Promised(p)) <==> LoggedValue(s, Promised(p)) || v == Promised(p));
    assert Promised(ForkDone(v)) == v;
  }

  lemma StepKeepsHistory(code: Code, s: State, m: Move, s': State)
    requires CodeLinked(code) && Inv(code, s) && History(code, s) && Step(code, s, m, s')
    ensures History(code, s')
  {
    hide Inv, History, Place;
    if !m.Go? {
      WorkKeeps(code, s, m, s');
    } else {
      var d := m.dir;
      match s.at
      case Fork1 => ForkStartKeeps(code, s, d, s');
      case Fork2 => ForkStartKeeps(code, s, d, s');
      case Fork3(_) => Fork3Keeps(code, s, d, s');
      case Fork4 => Fork4Keeps(code, s, d, s');
      case Fork5 => Fork5Keeps(code, s, d, s');
      case Compare(_) => CompareKeeps(code, s, d, s');
      case Parent0(_) => ParentKeeps(code, s, d, s');
      case Parent1(_) => ParentKeeps(code, s, d, s');
      case Parent2(_) => ParentKeeps(code, s, d, s');
      case Parent3(_) => ForkStartKeeps(code, s, d, s');
      case ForkDone(_) => ForkDoneKeeps(code, s, d, s');
      case Switch1(_) => HandlerKeeps(code, s, d, s');
      case Switch2(_) => HandlerKeeps(code, s, d, s');
      case Switch3(_, _) => HandlerKeeps(code, s, d, s');
      case Switch4(_) => SavingKeeps(code, s, d, s');
      case Switch5(_) => SavingKeeps(code, s, d, s');
      case Switch6 => AdvanceKeeps(code, s, d, s');
      case Switch7 => AdvanceKeeps(code, s, d, s');
      case Switch8 => AdvanceKeeps(code, s, d, s');
      case Switch9 => JumpKeeps(code, s, d, s');
      case _ =>
    }
  }

  // ---------------------------------------------------------------- whole runs

  lemma StartsHistory(code: Code, s: State)
    requires Init(s)
    ensures History(code, s)
  {
  }

  lemma {:induction false} RunKeepsHistory(code: Code, ss: seq<State>, ms: seq<Move>, i: nat)
    requires CodeLinked(code) && Run(code, ss, ms) && ss[0].private && i < |ss|
    ensures History(code, ss[i])
  {
    hide Inv, Step, History;
    if i == 0 {
      StartsHistory(code, ss[0]);
    } else {
      RunKeepsHistory(code, ss, ms, i - 1);
      RunKeepsInv(code, ss, ms, i - 1);
      StepKeepsHistory(code, ss[i - 1], ms[i - 1], ss[i]);
    }
  }

  /**
   * In every run the first thing fork returns to a child is 0, and it returns 0 to it only once and to nobody
   * else; every id it returns, it returns once, to the parent of that child.
   */
  lemma ForkReturns(code: Code, ss: seq<State>, ms: seq<Move>, i: nat, k: nat)
    requires CodeLinked(code) && Run(code, ss, ms) && ss[0].private && i < |ss| && k < |ss[i].log|
    ensures var s := ss[i]; var (task, value) := s.log[k]; var first := forall j :: 0 <= j < k ==> s.log[j].0 != task;
            && (value == 0 <==> task in s.parent && first)
            && (value != 0 ==> value in s.parent && s.parent[value] == task && forall j :: 0 <= j < k ==> s.log[j].1 != value)
  {
    RunKeepsHistory(code, ss, ms, i);
    RunKeepsInv(code, ss, ms, i);
  }

  /** A child that runs its own code, or fork for a child of its own, has been told 0 before. */
  lemma ChildWasTold(code: Code, ss: seq<State>, ms: seq<Move>, i: nat)
    requires CodeLinked(code) && Run(code, ss, ms) && ss[0].private && i < |ss|
    requires ss[i].cur < |ss[i].tasks| && Cur(ss[i]).id in ss[i].parent
    requires ss[i].at == Own || ss[i].at == Fork1 || (ss[i].at.ForkDone? && ss[i].at.value != 0)
    ensures LoggedTask(ss[i], Cur(ss[i]).id)
  {
    RunKeepsHistory(code, ss, ms, i);
    assert Told(ss[i], Cur(ss[i]).id, Place(code, ss[i], ss[i].cur));
  }

  /** A child that is resumed for the first time goes on to return 0. */
  lemma ChildReturnsZero(code: Code, ss: seq<State>, ms: seq<Move>, i: nat)
    requires CodeLinked(code) && Run(code, ss, ms) && ss[0].private && i < |ms| && ss[i].at == Compare(-1) && ms[i].Go?
    ensures ss[i + 1].at == ForkDone(0) && ss[i + 1].cur == ss[i].cur
  {
    RunKeepsInv(code, ss, ms, i);
    RunKeepsHistory(code, ss, ms, i);
    assert Step(code, ss[i], ms[i], ss[i + 1]);
    CompareKeeps(code, ss[i], ms[i].dir, ss[i + 1]);
  }
}
