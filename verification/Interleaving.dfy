/**
 * fork and switch_task of src/process/task.c as a machine of small steps, with the timer interrupt
 * free to strike whenever interrupts are on.
 */
module Interleaving {
  import opened Tasks

  /** Code is linked from here up (src/link.ld); the two places read_eip returns to lie above it. */
  const CODE_BASE := 0x100000

  const ZERO := Context(0, 0, 0)

  /** What the stack of an interrupted task goes back to: a place in the code, and the registers there. */
  datatype Frame = Frame(at: Point, regs: Context)

  /** Places in the code.  The numbers in the comments are lines of src/process/task.c. */
  datatype Point =
    | Own                                  // not in fork or switch_task
    | Fork1 | Fork2 | Fork3(dir: int)      // after 160, 163, 165
    | Fork4 | Fork5                        // after 173, 179
    | Compare(child: int)                  // 186, with the local new_task; -1 stands for whatever a child's stack holds
    | Parent0(child: int) | Parent1(child: int) | Parent2(child: int) | Parent3(child: int) // before 191, after 191, 192, 193
    | ForkDone(value: int)                 // 199 or 202
    | Switch1(back: Frame) | Switch2(back: Frame)   // 98, 104
    | Switch3(back: Frame, got: int)       // 114, with what read_eip returned
    | Switch4(back: Frame) | Switch5(back: Frame) | Switch6 // after 121, 122, 123
    | Switch7 | Switch8 | Switch9          // after 126, 129, 136
    | Lost                                 // a jump to no known place

  /** task_t, and the part of the task's stack that its saved context needs. */
  datatype TaskRec = TaskRec(id: int, saved: Context, dir: int, stack: Frame)

  datatype State = State(
    tasks: seq<TaskRec>,            // the list, from ready_queue on
    cur: nat,                       // place of current_task; |tasks| is the null pointer
    nextPid: int,
    on: bool,                       // interrupt flag
    at: Point, regs: Context,
    dir: int,                       // current_directory
    private: bool,                  // the running stack lies in tables of the task's own, not in the kernel directory's
    made: seq<TaskRec>,             // the task fork has made but not linked yet
    locals: map<(int, int), int>,   // fork's local parent_task, by stack memory and frame
    last: map<int, Context>,        // the context last saved for a task, as a whole
    parent: map<int, int>,
    log: seq<(int, int)>)           // values returned by fork: (task, value)

  datatype Move =
    | Work(regs: Context, locals: map<(int, int), int>, on: bool) // the task's own code, whatever it does
    | CallFork
    | Tick(regs: Context)                                         // a timer interrupt; registers in the handler
    | Go(dir: int)                                                // the next step of fork or switch_task

  /** Return addresses of read_eip in switch_task and in fork. */
  datatype Code = Code(switchEip: int, forkEip: int)

  ghost predicate CodeLinked(code: Code) {
    CODE_BASE <= code.switchEip && CODE_BASE <= code.forkEip && code.switchEip != code.forkEip
  }

  // ---------------------------------------------------------------- the steps

  const SHARED_STACK := -1

  /** The memory behind the stack of an address space: its own, or the one all of them share. */
  function Space(s: State, dir: int): int {
    if s.private then dir else SHARED_STACK
  }

  function Cur(s: State): TaskRec
    requires s.cur < |s.tasks|
  {
    s.tasks[s.cur]
  }

  function SetSaved(s: State, i: nat, c: Context): State
    requires i < |s.tasks|
  {
    s.(tasks := s.tasks[i := s.tasks[i].(saved := c)])
  }

  /** The copied address space holds a copy of every local. */
  function CopyLocals(m: map<(int, int), int>, from: int, to: int): map<(int, int), int> {
    map k | k in CopyKeys(m, from, to) :: if k.0 == to then m[(from, k.1)] else m[k]
  }

  function CopyKeys(m: map<(int, int), int>, from: int, to: int): set<(int, int)> {
    (set k | k in m && k.0 != to) + (set k | k in m && k.0 == from :: (to, k.1))
  }

  ghost predicate FreshDir(s: State, d: int) {
    forall i :: 0 <= i < |s.tasks| ==> s.tasks[i].dir != d
  }

  /** One step of fork (CallFork starts it). */
  ghost predicate ForkStep(code: Code, s: State, d: int, s': State)
    requires s.cur < |s.tasks|
  {
    var n := |s.tasks|;
    match s.at
    case Fork1 => s' == s.(at := Fork2, locals := s.locals[(Space(s, s.dir), s.regs.ebp) := Cur(s).id])
    case Fork2 =>
      // clone_directory copies the stack if its tables are not those of the kernel directory; otherwise it shares it
      && d != s.dir && FreshDir(s, d)
      && s' == s.(at := Fork3(d), locals := if s.private then CopyLocals(s.locals, s.dir, d) else s.locals)
    case Fork3(d') =>
      s' == s.(at := Fork4, made := [TaskRec(s.nextPid, ZERO, d', Frame(Lost, ZERO))], nextPid := s.nextPid + 1,
               parent := s.parent[s.nextPid := Cur(s).id])
    case Fork4 => |s.made| == 1 && s' == s.(at := Fork5, tasks := s.tasks + s.made, made := [])
    case Fork5 => s' == s.(at := Compare(s.tasks[n - 1].id))
    case Compare(c) =>
      && (Space(s, s.dir), s.regs.ebp) in s.locals
      && s' == s.(at := if s.locals[(Space(s, s.dir), s.regs.ebp)] == Cur(s).id then Parent0(c) else ForkDone(0))
    case Parent0(c) => s' == SetSaved(s, n - 1, s.tasks[n - 1].saved.(esp := s.regs.esp)).(at := Parent1(c))
    case Parent1(c) => s' == SetSaved(s, n - 1, s.tasks[n - 1].saved.(ebp := s.regs.ebp)).(at := Parent2(c))
    case Parent2(c) =>
      s' == SetSaved(s, n - 1, s.tasks[n - 1].saved.(eip := code.forkEip))
            .(at := Parent3(c), last := s.last[c := Context(code.forkEip, s.regs.esp, s.regs.ebp)])
    case Parent3(c) => s' == s.(at := ForkDone(c), on := true)
    case ForkDone(v) => s' == s.(at := Own, log := s.log + [(Cur(s).id, v)])
    case _ => false
  }

  /** One step of switch_task inside the timer handler, up to the jump. */
  ghost predicate SwitchStep(code: Code, s: State, s': State)
    requires s.cur < |s.tasks|
  {
    match s.at
    case Switch1(f) => s' == if |s.tasks| == 1 then s.(at := f.at, regs := f.regs, on := true) else s.(at := Switch2(f))
    case Switch2(f) => s' == s.(at := Switch3(f, code.switchEip))
    case Switch3(f, got) =>
      s' == if got == SENTINEL then s.(at := f.at, regs := f.regs, on := true)
            else SetSaved(s, s.cur, Cur(s).saved.(eip := got)).(at := Switch4(f))
    case Switch4(f) => s' == SetSaved(s, s.cur, Cur(s).saved.(esp := s.regs.esp)).(at := Switch5(f))
    case Switch5(f) =>
      s' == SetSaved(s, s.cur, Cur(s).saved.(ebp := s.regs.ebp))
            .(at := Switch6, last := s.last[Cur(s).id := Context(code.switchEip, s.regs.esp, s.regs.ebp)],
              tasks := s.tasks[s.cur := Cur(s).(saved := Cur(s).saved.(ebp := s.regs.ebp), stack := f)])
    case Switch6 => s' == s.(at := Switch7, cur := s.cur + 1)
    case Switch8 => s' == s.(at := Switch9, dir := Cur(s).dir)
    case Switch9 => s' == s.(at := Resume(code, Cur(s)), regs := Cur(s).saved, on := true)
    case _ => false
  }

  /** Where a jump to the saved eip of a task ends up, with the sentinel in eax. */
  function Resume(code: Code, t: TaskRec): Point {
    if t.saved.eip == code.switchEip then Switch3(t.stack, SENTINEL)
    else if t.saved.eip == code.forkEip then Compare(-1)
    else Lost
  }

  /** Nothing outside this address space has changed. */
  ghost predicate OnlyChanges(dir: int, m: map<(int, int), int>, m': map<(int, int), int>) {
    forall d: int, e: int :: d != dir ==> ((d, e) in m <==> (d, e) in m') && ((d, e) in m ==> m'[(d, e)] == m[(d, e)])
  }

  ghost predicate Step(code: Code, s: State, m: Move, s': State) {
    match m
    case Work(regs, locals, on) =>
      && s.at == Own && OnlyChanges(Space(s, s.dir), s.locals, locals)
      && s' == s.(regs := regs, locals := locals, on := on)
    case CallFork => s.at == Own && s' == s.(at := Fork1, on := false)
    case Tick(regs) => s.on && s' == s.(at := Switch1(Frame(s.at, s.regs)), regs := regs, on := false)
    case Go(d) =>
      if s.at == Switch7 then s' == s.(at := Switch8, cur := if s.cur >= |s.tasks| then 0 else s.cur)
      else s.cur < |s.tasks| && (ForkStep(code, s, d, s') || SwitchStep(code, s, s'))
  }

  // ---------------------------------------------------------------- the invariant

  /** Interrupts can only be on at these places. */
  predicate MayBeOn(p: Point) {
    p == Own || p.ForkDone? || p == Compare(-1) || (p.Switch3? && p.got == SENTINEL)
  }

  /** The current task's context has been saved, or another task's is about to be loaded. */
  predicate Between(p: Point) {
    p == Switch6 || p == Switch7 || p == Switch8 || p == Switch9
  }

  /** The last task is a child without a place to resume. */
  predicate Building(p: Point) {
    p == Fork5 || (p.Compare? && p.child != -1) || p.Parent0? || p.Parent1? || p.Parent2?
  }

  /** A place that a task with this id and address space can go on from. */
  ghost predicate GoodFrame(f: Frame, id: int, dir: int, locals: map<(int, int), int>, parent: map<int, int>)
    decreases f
  {
    match f.at
    case Own => true
    case ForkDone(v) => ReturnOk(parent, id, v)
    case Compare(c) => c == -1 && (dir, f.regs.ebp) in locals && locals[(dir, f.regs.ebp)] != id && id in parent
    case Switch3(g, got) => got == SENTINEL && GoodFrame(g, id, dir, locals, parent)
    case _ => false
  }

  /** fork returns 0 to a child, and to a parent the id of one of its children. */
  ghost predicate ReturnOk(parent: map<int, int>, id: int, v: int) {
    if v == 0 then id in parent else v in parent && parent[v] == id
  }

  /** A task that is not running: its context is the one last saved, and can be resumed. */
  ghost predicate Waiting(code: Code, t: TaskRec, last: map<int, Context>, locals: map<(int, int), int>, parent: map<int, int>) {
    && t.id in last && t.saved == last[t.id]
    && if t.saved.eip == code.switchEip then GoodFrame(t.stack, t.id, t.dir, locals, parent)
       else t.saved.eip == code.forkEip && GoodFrame(Frame(Compare(-1), t.saved), t.id, t.dir, locals, parent)
  }

  ghost predicate AllWaiting(code: Code, s: State, a: int, b: int) {
    forall i :: 0 <= i < |s.tasks| && i != a && i != b ==> Waiting(code, s.tasks[i], s.last, s.locals, s.parent)
  }

  /** Ids go up, address spaces differ, and every id is positive and below next_pid. */
  ghost predicate Shape(s: State) {
    && |s.tasks| > 0 && s.nextPid > 0
    && (forall i :: 0 <= i < |s.tasks| ==> 0 < s.tasks[i].id < s.nextPid)
    && (forall i, j :: 0 <= i < j < |s.tasks| ==> s.tasks[i].id < s.tasks[j].id)
    && (forall i, j :: 0 <= i < j < |s.tasks| ==> s.tasks[i].dir != s.tasks[j].dir)
    && (forall v :: v in s.parent ==> 0 < v < s.nextPid)
    && (forall k :: 0 <= k < |s.log| ==> ReturnOk(s.parent, s.log[k].0, s.log[k].1))
  }

  /** The child fork is building: last in the list, behind the running parent, with a copy of parent_task. */
  ghost predicate ChildReady(s: State) {
    var n := |s.tasks|;
    && 0 < n && s.cur < n - 1
    && s.tasks[n - 1].id in s.parent && s.parent[s.tasks[n - 1].id] == s.tasks[s.cur].id
    && (s.tasks[n - 1].dir, s.regs.ebp) in s.locals
    && s.locals[(s.tasks[n - 1].dir, s.regs.ebp)] == s.tasks[s.cur].id
  }

  /** fork's local parent_task in the running task's own frame. */
  ghost predicate OwnLocal(s: State)
    requires s.cur < |s.tasks|
  {
    (s.dir, s.regs.ebp) in s.locals && s.locals[(s.dir, s.regs.ebp)] == Cur(s).id
  }

  ghost predicate MadeReady(s: State)
    requires s.cur < |s.tasks|
  {
    && |s.made| == 1 && s.made[0].id == s.nextPid - 1 && s.made[0].id in s.parent && s.parent[s.made[0].id] == Cur(s).id
    && (forall i :: 0 <= i < |s.tasks| ==> s.tasks[i].id < s.made[0].id)
    && FreshDir(s, s.made[0].dir)
    && (s.made[0].dir, s.regs.ebp) in s.locals && s.locals[(s.made[0].dir, s.regs.ebp)] == Cur(s).id
  }

  /** What holds at each place. */
  ghost predicate AtOk(code: Code, s: State)
    requires s.at != Switch7 ==> s.cur < |s.tasks|
  {
    var n := |s.tasks|;
    match s.at
    case Own => AllWaiting(code, s, s.cur, s.cur)
    case Fork1 => AllWaiting(code, s, s.cur, s.cur)
    case Fork2 => OwnLocal(s) && AllWaiting(code, s, s.cur, s.cur)
    case Fork3(d) =>
      && OwnLocal(s) && AllWaiting(code, s, s.cur, s.cur) && FreshDir(s, d)
      && (d, s.regs.ebp) in s.locals && s.locals[(d, s.regs.ebp)] == Cur(s).id
    case Fork4 => OwnLocal(s) && MadeReady(s) && AllWaiting(code, s, s.cur, s.cur)
    case Fork5 => OwnLocal(s) && ChildReady(s) && AllWaiting(code, s, s.cur, n - 1)
    case Compare(c) =>
      if c == -1 then GoodFrame(Frame(s.at, s.regs), Cur(s).id, s.dir, s.locals, s.parent) && AllWaiting(code, s, s.cur, s.cur)
      else OwnLocal(s) && ChildReady(s) && s.tasks[n - 1].id == c && AllWaiting(code, s, s.cur, n - 1)
    case Parent0(c) => ChildReady(s) && s.tasks[n - 1].id == c && AllWaiting(code, s, s.cur, n - 1)
    case Parent1(c) =>
      && ChildReady(s) && s.tasks[n - 1].id == c && AllWaiting(code, s, s.cur, n - 1)
      && s.tasks[n - 1].saved.esp == s.regs.esp
    case Parent2(c) =>
      && ChildReady(s) && s.tasks[n - 1].id == c && AllWaiting(code, s, s.cur, n - 1)
      && s.tasks[n - 1].saved.esp == s.regs.esp && s.tasks[n - 1].saved.ebp == s.regs.ebp
    case Parent3(c) => ReturnOk(s.parent, Cur(s).id, c) && AllWaiting(code, s, s.cur, s.cur)
    case ForkDone(v) => ReturnOk(s.parent, Cur(s).id, v) && AllWaiting(code, s, s.cur, s.cur)
    case Switch1(f) => Handling(code, s, f)
    case Switch2(f) => Handling(code, s, f)
    case Switch3(f, got) => Handling(code, s, f) && (got == SENTINEL || got == code.switchEip)
    case Switch4(f) => Handling(code, s, f) && Cur(s).saved.eip == code.switchEip
    case Switch5(f) => Handling(code, s, f) && Cur(s).saved.eip == code.switchEip && Cur(s).saved.esp == s.regs.esp
    case Switch6 => AllWaiting(code, s, -1, -1)
    case Switch7 => AllWaiting(code, s, -1, -1)
    case Switch8 => AllWaiting(code, s, -1, -1)
    case Switch9 => AllWaiting(code, s, -1, -1)
    case Lost => false
  }

  ghost predicate Handling(code: Code, s: State, f: Frame)
    requires s.cur < |s.tasks|
  {
    && GoodFrame(f, Cur(s).id, s.dir, s.locals, s.parent) && MayBeOn(f.at)
    && AllWaiting(code, s, s.cur, s.cur)
  }

  ghost predicate Inv(code: Code, s: State) {
    && Shape(s) && s.private
    && (s.on ==> MayBeOn(s.at))
    && (s.at != Switch7 ==> s.cur < |s.tasks|)
    && (s.at != Switch7 && s.at != Switch8 ==> s.dir == Cur(s).dir)
    && AtOk(code, s)
  }

  /** After initialise_tasking: one task, running its own code. */
  ghost predicate Init(s: State) {
    && |s.tasks| == 1 && s.cur == 0 && s.tasks[0].id == 1 && s.nextPid == 2 && s.dir == s.tasks[0].dir
    && s.on && s.at == Own && s.made == [] && s.parent == map[] && s.log == []
  }

  // ---------------------------------------------------------------- every step keeps it

  /** More children, and the same locals in the task's own address space. */
  ghost predicate Extends(dir: int, locals: map<(int, int), int>, parent: map<int, int>,
                          locals': map<(int, int), int>, parent': map<int, int>)
  {
    && (forall v :: v in parent ==> v in parent' && parent'[v] == parent[v])
    && (forall e :: (dir, e) in locals ==> (dir, e) in locals' && locals'[(dir, e)] == locals[(dir, e)])
  }

  lemma {:induction false} FrameStays(f: Frame, id: int, dir: int, locals: map<(int, int), int>, parent: map<int, int>,
                                      locals': map<(int, int), int>, parent': map<int, int>)
    requires GoodFrame(f, id, dir, locals, parent) && Extends(dir, locals, parent, locals', parent')
    ensures GoodFrame(f, id, dir, locals', parent')
    decreases f
  {
    if f.at.Switch3? {
      FrameStays(f.at.back, id, dir, locals, parent, locals', parent');
    }
  }

  lemma WaitingStays(code: Code, t: TaskRec, last: map<int, Context>, locals: map<(int, int), int>, parent: map<int, int>,
                     last': map<int, Context>, locals': map<(int, int), int>, parent': map<int, int>)
    requires Waiting(code, t, last, locals, parent) && Extends(t.dir, locals, parent, locals', parent')
    requires t.id in last ==> t.id in last' && last'[t.id] == last[t.id]
    ensures Waiting(code, t, last', locals', parent')
  {
    if t.saved.eip == code.switchEip {
      FrameStays(t.stack, t.id, t.dir, locals, parent, locals', parent');
    } else {
      FrameStays(Frame(Compare(-1), t.saved), t.id, t.dir, locals, parent, locals', parent');
    }
  }

  /** Tasks that a step does not touch go on waiting. */
  lemma OthersWait(code: Code, s: State, s': State, a: int, b: int)
    requires AllWaiting(code, s, a, b) && |s.tasks| <= |s'.tasks|
    requires forall i :: 0 <= i < |s.tasks| && i != a && i != b ==>
               && s'.tasks[i] == s.tasks[i]
               && Extends(s.tasks[i].dir, s.locals, s.parent, s'.locals, s'.parent)
               && (s.tasks[i].id in s.last ==> s.tasks[i].id in s'.last && s'.last[s.tasks[i].id] == s.last[s.tasks[i].id])
    ensures forall i :: 0 <= i < |s.tasks| && i != a && i != b ==>
              Waiting(code, s'.tasks[i], s'.last, s'.locals, s'.parent)
  {
    hide Waiting, Extends;
    forall i | 0 <= i < |s.tasks| && i != a && i != b
      ensures Waiting(code, s'.tasks[i], s'.last, s'.locals, s'.parent)
    {
      WaitingStays(code, s.tasks[i], s.last, s.locals, s.parent, s'.last, s'.locals, s'.parent);
    }
  }

  lemma OthersWaitAll(code: Code, s: State, s': State, a: int, b: int)
    requires AllWaiting(code, s, a, b) && |s.tasks| == |s'.tasks|
    requires forall i :: 0 <= i < |s.tasks| && i != a && i != b ==>
               && s'.tasks[i] == s.tasks[i]
               && Extends(s.tasks[i].dir, s.locals, s.parent, s'.locals, s'.parent)
               && (s.tasks[i].id in s.last ==> s.tasks[i].id in s'.last && s'.last[s.tasks[i].id] == s.last[s.tasks[i].id])
    ensures AllWaiting(code, s', a, b)
  {
    hide Waiting, Extends;
    OthersWait(code, s, s', a, b);
  }

  lemma WorkKeepsInv(code: Code, s: State, m: Move, s': State)
    requires CodeLinked(code) && Inv(code, s) && m.Work? && Step(code, s, m, s')
    ensures Inv(code, s')
  {
    hide Waiting;
    forall i | 0 <= i < |s.tasks| && i != s.cur
      ensures Extends(s.tasks[i].dir, s.locals, s.parent, s'.locals, s'.parent)
    {
      assert s.tasks[i].dir != s.dir;
    }
    OthersWait(code, s, s', s.cur, s.cur);
  }

  lemma TickKeepsInv(code: Code, s: State, m: Move, s': State)
    requires CodeLinked(code) && Inv(code, s) && (m.Tick? || m.CallFork?) && Step(code, s, m, s')
    ensures Inv(code, s')
  {
    hide Waiting;
  }

  lemma Fork1KeepsInv(code: Code, s: State, d: int, s': State)
    requires CodeLinked(code) && Inv(code, s) && s.at == Fork1 && Step(code, s, Go(d), s')
    ensures Inv(code, s')
  {
    hide Waiting;
    forall i | 0 <= i < |s.tasks| && i != s.cur
      ensures Extends(s.tasks[i].dir, s.locals, s.parent, s'.locals, s'.parent)
    {
      assert s.tasks[i].dir != s.dir;
    }
    OthersWait(code, s, s', s.cur, s.cur);
  }

  lemma CopiedLocals(m: map<(int, int), int>, from: int, to: int, d: int, e: int)
    requires from != to
    ensures d != to ==>
              && ((d, e) in CopyLocals(m, from, to) <==> (d, e) in m)
              && ((d, e) in m ==> CopyLocals(m, from, to)[(d, e)] == m[(d, e)])
    ensures (from, e) in m ==> (to, e) in CopyLocals(m, from, to) && CopyLocals(m, from, to)[(to, e)] == m[(from, e)]
  {
  }

  lemma Fork2KeepsInv(code: Code, s: State, d: int, s': State)
    requires CodeLinked(code) && Inv(code, s) && s.at == Fork2 && Step(code, s, Go(d), s')
    ensures Inv(code, s')
  {
    hide Waiting, CopyLocals;
    forall i | 0 <= i < |s.tasks| && i != s.cur
      ensures Extends(s.tasks[i].dir, s.locals, s.parent, s'.locals, s'.parent)
    {
      forall e | (s.tasks[i].dir, e) in s.locals
        ensures (s.tasks[i].dir, e) in s'.locals && s'.locals[(s.tasks[i].dir, e)] == s.locals[(s.tasks[i].dir, e)]
      {
        CopiedLocals(s.locals, s.dir, d, s.tasks[i].dir, e);
      }
    }
    OthersWait(code, s, s', s.cur, s.cur);
    CopiedLocals(s.locals, s.dir, d, s.dir, s.regs.ebp);
  }

  /** A new child: only its own id is added to the parents. */
  lemma ShapeWithChild(s: State, s': State, p: int)
    requires Shape(s) && s'.tasks == s.tasks && s'.nextPid == s.nextPid + 1 && s'.log == s.log
    requires s'.parent == s.parent[s.nextPid := p]
    ensures Shape(s') && s.nextPid !in s.parent
  {
  }

  lemma Fork3KeepsInv(code: Code, s: State, d: int, s': State)
    requires CodeLinked(code) && Inv(code, s) && s.at.Fork3? && Step(code, s, Go(d), s')
    ensures Inv(code, s')
  {
    hide Waiting, GoodFrame, AllWaiting, Shape;
    ShapeWithChild(s, s', Cur(s).id);
    IdsBelow(s);
    OthersWaitAll(code, s, s', s.cur, s.cur);
  }

  lemma IdsBelow(s: State)
    requires Shape(s)
    ensures forall i :: 0 <= i < |s.tasks| ==> s.tasks[i].id < s.nextPid
  {
  }

  lemma ShapeAppended(s: State, s': State, t: TaskRec)
    requires Shape(s) && s'.tasks == s.tasks + [t] && s'.nextPid == s.nextPid && s'.parent == s.parent && s'.log == s.log
    requires 0 < t.id < s.nextPid && FreshDir(s, t.dir) && forall i :: 0 <= i < |s.tasks| ==> s.tasks[i].id < t.id
    ensures Shape(s')
  {
  }

  lemma Fork4KeepsInv(code: Code, s: State, d: int, s': State)
    requires CodeLinked(code) && Inv(code, s) && s.at == Fork4 && Step(code, s, Go(d), s')
    ensures Inv(code, s')
  {
    hide Waiting, GoodFrame, Shape;
    assert s.made[0].id > 0 by { ChildIds(s); }
    ShapeAppended(s, s', s.made[0]);
  }

  lemma ChildIds(s: State)
    requires Shape(s)
    ensures forall v :: v in s.parent ==> v > 0
  {
  }

  lemma ForkDoneKeepsInv(code: Code, s: State, d: int, s': State)
    requires CodeLinked(code) && Inv(code, s) && s.at.ForkDone? && Step(code, s, Go(d), s')
    ensures Inv(code, s')
  {
    hide Waiting;
  }

  lemma ForkRestKeepsInv(code: Code, s: State, d: int, s': State)
    requires CodeLinked(code) && Inv(code, s) && (s.at.Fork5? || s.at.Compare? || s.at.Parent3?)
    requires Step(code, s, Go(d), s')
    ensures Inv(code, s')
  {
    hide Waiting, Shape;
    ShapeStays(s, s');
    IdsPositive(s);
  }

  lemma IdsPositive(s: State)
    requires Shape(s)
    ensures forall i :: 0 <= i < |s.tasks| ==> s.tasks[i].id > 0
  {
  }

  lemma ParentKeepsInv(code: Code, s: State, d: int, s': State)
    requires CodeLinked(code) && Inv(code, s) && (s.at.Parent0? || s.at.Parent1?) && Step(code, s, Go(d), s')
    ensures Inv(code, s')
  {
    hide Waiting;
    OthersWait(code, s, s', s.cur, |s.tasks| - 1);
  }

  lemma Parent2KeepsInv(code: Code, s: State, d: int, s': State)
    requires CodeLinked(code) && Inv(code, s) && s.at.Parent2? && Step(code, s, Go(d), s')
    ensures Inv(code, s')
  {
    var n := |s.tasks|;
    assert Waiting(code, s'.tasks[n - 1], s'.last, s'.locals, s'.parent);
    hide Waiting;
    OthersWait(code, s, s', s.cur, n - 1);
  }

  /** A step that adds no task, makes no child and returns nothing. */
  lemma ShapeStays(s: State, s': State)
    requires Shape(s) && |s'.tasks| == |s.tasks| && s'.nextPid == s.nextPid && s'.parent == s.parent && s'.log == s.log
    requires forall i :: 0 <= i < |s.tasks| ==> s'.tasks[i].id == s.tasks[i].id && s'.tasks[i].dir == s.tasks[i].dir
    ensures Shape(s')
  {
  }

  /** Going back to the interrupted place. */
  lemma ReturnKeepsInv(code: Code, s: State, f: Frame)
    requires Inv(code, s) && s.at != Switch7 && s.at != Switch8 && Handling(code, s, f)
    ensures Inv(code, s.(at := f.at, regs := f.regs, on := true))
  {
    hide Waiting, Shape;
    var s' := s.(at := f.at, regs := f.regs, on := true);
    ShapeStays(s, s');
    FrameMayBeOn(f.at, s, Cur(s));
    assert f == Frame(f.at, f.regs);
  }

  lemma SwitchKeepsInv(code: Code, s: State, d: int, s': State)
    requires CodeLinked(code) && Inv(code, s) && (s.at.Switch1? || s.at.Switch2?)
    requires Step(code, s, Go(d), s')
    ensures Inv(code, s')
  {
    hide Waiting, Shape;
    if s.at.Switch1? && |s.tasks| == 1 {
      ReturnKeepsInv(code, s, s.at.back);
    } else {
      ShapeStays(s, s');
    }
  }

  lemma Switch3KeepsInv(code: Code, s: State, d: int, s': State)
    requires CodeLinked(code) && Inv(code, s) && s.at.Switch3? && Step(code, s, Go(d), s')
    ensures Inv(code, s')
  {
    hide Waiting, Shape;
    if s.at.got == SENTINEL {
      ReturnKeepsInv(code, s, s.at.back);
    } else {
      ShapeStays(s, s');
    }
  }

  lemma Switch4KeepsInv(code: Code, s: State, d: int, s': State)
    requires CodeLinked(code) && Inv(code, s) && s.at.Switch4? && Step(code, s, Go(d), s')
    ensures Inv(code, s')
  {
    hide Waiting, Shape;
    ShapeStays(s, s');
  }

  lemma Switch5KeepsInv(code: Code, s: State, d: int, s': State)
    requires CodeLinked(code) && Inv(code, s) && s.at.Switch5? && Step(code, s, Go(d), s')
    ensures Inv(code, s')
  {
    assert Waiting(code, s'.tasks[s.cur], s'.last, s'.locals, s'.parent);
    hide Waiting;
    OthersWait(code, s, s', s.cur, s.cur);
  }

  lemma AdvanceKeepsInv(code: Code, s: State, d: int, s': State)
    requires CodeLinked(code) && Inv(code, s) && (s.at.Switch6? || s.at.Switch7? || s.at.Switch8?)
    requires Step(code, s, Go(d), s')
    ensures Inv(code, s')
  {
    hide Waiting, Shape;
    assert |s.tasks| > 0 by { NotEmpty(s); }
    ShapeStays(s, s');
  }

  lemma NotEmpty(s: State)
    requires Shape(s)
    ensures |s.tasks| > 0
  {
  }

  lemma JumpKeepsInv(code: Code, s: State, d: int, s': State)
    requires CodeLinked(code) && Inv(code, s) && s.at.Switch9? && Step(code, s, Go(d), s')
    ensures Inv(code, s')
  {
    hide Shape;
    assert Waiting(code, Cur(s), s.last, s.locals, s.parent);
    assert s'.at.Switch3? || s'.at == Compare(-1);
    assert s'.at.Switch3? ==> s'.at.got == SENTINEL && GoodFrame(s'.at.back, Cur(s).id, s.dir, s.locals, s.parent);
    hide Waiting;
    FrameMayBeOn(s'.at, s', Cur(s));
    ShapeStays(s, s');
  }

  lemma FrameMayBeOn(p: Point, s: State, t: TaskRec)
    requires p.Switch3? ==> GoodFrame(p.back, t.id, t.dir, s.locals, s.parent)
    ensures p.Switch3? ==> MayBeOn(p.back.at)
  {
  }

  /** Every step of every interleaving keeps the invariant. */
  lemma StepKeepsInv(code: Code, s: State, m: Move, s': State)
    requires CodeLinked(code) && Inv(code, s) && Step(code, s, m, s')
    ensures Inv(code, s')
  {
    hide Inv, AtOk, Shape;
    match m
    case Work(_, _, _) => WorkKeepsInv(code, s, m, s');
    case CallFork => TickKeepsInv(code, s, m, s');
    case Tick(_) => TickKeepsInv(code, s, m, s');
    case Go(d) =>
      match s.at
      case Fork1 => Fork1KeepsInv(code, s, d, s');
      case Fork2 => Fork2KeepsInv(code, s, d, s');
      case Fork3(_) => Fork3KeepsInv(code, s, d, s');
      case Fork4 => Fork4KeepsInv(code, s, d, s');
      case Fork5 => ForkRestKeepsInv(code, s, d, s');
      case Compare(_) => ForkRestKeepsInv(code, s, d, s');
      case ForkDone(_) => ForkDoneKeepsInv(code, s, d, s');
      case Parent3(_) => ForkRestKeepsInv(code, s, d, s');
      case Parent0(_) => ParentKeepsInv(code, s, d, s');
      case Parent1(_) => ParentKeepsInv(code, s, d, s');
      case Parent2(_) => Parent2KeepsInv(code, s, d, s');
      case Switch1(_) => SwitchKeepsInv(code, s, d, s');
      case Switch2(_) => SwitchKeepsInv(code, s, d, s');
      case Switch3(_, _) => Switch3KeepsInv(code, s, d, s');
      case Switch4(_) => Switch4KeepsInv(code, s, d, s');
      case Switch5(_) => Switch5KeepsInv(code, s, d, s');
      case Switch6 => AdvanceKeepsInv(code, s, d, s');
      case Switch7 => AdvanceKeepsInv(code, s, d, s');
      case Switch8 => AdvanceKeepsInv(code, s, d, s');
      case Switch9 => JumpKeepsInv(code, s, d, s');
      case _ =>
  }

  // ---------------------------------------------------------------- whole runs

  ghost predicate Run(code: Code, ss: seq<State>, ms: seq<Move>) {
    && |ss| == |ms| + 1 && Init(ss[0])
    && forall i, j :: 0 <= i < |ms| && j == i + 1 ==> Step(code, ss[i], ms[i], ss[j])
  }

  lemma {:induction false} RunKeepsInv(code: Code, ss: seq<State>, ms: seq<Move>, i: nat)
    requires CodeLinked(code) && Run(code, ss, ms) && ss[0].private && i < |ss|
    ensures Inv(code, ss[i])
  {
    hide Step, Waiting;
    if i > 0 {
      RunKeepsInv(code, ss, ms, i - 1);
      StepKeepsInv(code, ss[i - 1], ms[i - 1], ss[i]);
    }
  }

  /**
   * In every run a switch resumes a task with exactly the context last saved for it: never the zero
   * context of a child that fork has not finished, and always at one of the two known places.
   */
  lemma ResumesLastSaved(code: Code, ss: seq<State>, ms: seq<Move>, i: nat)
    requires CodeLinked(code) && Run(code, ss, ms) && ss[0].private && i < |ms| && ss[i].at == Switch9 && ms[i].Go?
    ensures var s, s' := ss[i], ss[i + 1];
            && s.cur < |s.tasks| && Cur(s).id in s.last && s'.regs == s.last[Cur(s).id] && s'.regs != ZERO
            && s'.cur == s.cur && s'.dir == Cur(s).dir && s'.at != Lost
  {
    RunKeepsInv(code, ss, ms, i);
    RunKeepsInv(code, ss, ms, i + 1);
    var s := ss[i];
    assert Step(code, ss[i], ms[i], ss[i + 1]);
    assert Waiting(code, Cur(s), s.last, s.locals, s.parent);
  }

  /** With interrupts off and the task inside fork, only fork itself can move. */
  lemma OnlyForkMoves(code: Code, s: State, m: Move, s': State)
    requires Step(code, s, m, s') && !s.on && s.at != Own
    requires s.at.Fork3? || s.at.Fork4? || s.at.Fork5? || s.at.Compare? || s.at.Parent0? || s.at.Parent1? || s.at.Parent2? || s.at.Parent3?
    ensures m.Go? && s.cur < |s.tasks| && ForkStep(code, s, m.dir, s')
  {
  }

  /**
   * Once fork has its new directory, nothing can come between: eight steps later the child is in the
   * list with its context saved, interrupts are on again, and fork is about to return the child's id.
   */
  lemma ForkIsAtomic(code: Code, ss: seq<State>, ms: seq<Move>, i: nat)
    requires CodeLinked(code) && Run(code, ss, ms) && ss[0].private && i + 8 < |ss| && ss[i].at.Fork3?
    ensures var s, t := ss[i], ss[i + 8];
            && t.at == ForkDone(s.nextPid) && t.on && t.cur == s.cur < |s.tasks| && t.dir == s.dir
            && |t.tasks| == |s.tasks| + 1 && t.tasks[..|s.tasks|] == s.tasks
            && t.tasks[|s.tasks|].id == s.nextPid && t.nextPid == s.nextPid + 1
            && t.tasks[|s.tasks|].saved == Context(code.forkEip, s.regs.esp, s.regs.ebp)
            && t.tasks[|s.tasks|].dir == s.at.dir
  {
    hide Inv, Step, ForkStep;
    RunKeepsInv(code, ss, ms, i);
    ForkBegins(code, ss[i]);
    MadeAndLinked(code, ss, ms, i);
    ContextStored(code, ss, ms, i + 3, ss[i].nextPid);
  }

  lemma ForkBegins(code: Code, s: State)
    requires Inv(code, s) && s.at.Fork3?
    ensures !s.on && s.cur < |s.tasks| && s.private && OwnLocal(s)
  {
  }

  lemma MadeAndLinked(code: Code, ss: seq<State>, ms: seq<Move>, i: nat)
    requires Run(code, ss, ms) && i + 3 < |ss|
    requires ss[i].at.Fork3? && !ss[i].on && ss[i].cur < |ss[i].tasks|
    ensures var s, t, c := ss[i], ss[i + 3], TaskRec(ss[i].nextPid, ZERO, ss[i].at.dir, Frame(Lost, ZERO));
            && t.at == Compare(s.nextPid) && !t.on && t.cur == s.cur && t.regs == s.regs && t.dir == s.dir
            && t.tasks == s.tasks + [c] && t.nextPid == s.nextPid + 1 && t.locals == s.locals && t.private == s.private
  {
    hide Step, Init;
    OnlyForkMoves(code, ss[i], ms[i], ss[i + 1]);
    OnlyForkMoves(code, ss[i + 1], ms[i + 1], ss[i + 2]);
    OnlyForkMoves(code, ss[i + 2], ms[i + 2], ss[i + 3]);
  }

  lemma ContextStored(code: Code, ss: seq<State>, ms: seq<Move>, i: nat, c: int)
    requires Run(code, ss, ms) && i + 5 < |ss| && ss[i].at == Compare(c) && !ss[i].on
    requires ss[i].cur < |ss[i].tasks| - 1 && ss[i].private && OwnLocal(ss[i])
    ensures var s, t, n := ss[i], ss[i + 5], |ss[i].tasks| - 1;
            && t.at == ForkDone(c) && t.on && t.cur == s.cur && t.dir == s.dir && t.nextPid == s.nextPid
            && t.tasks == s.tasks[n := s.tasks[n].(saved := Context(code.forkEip, s.regs.esp, s.regs.ebp))]
  {
    hide Step, Init;
    FieldsStored(code, ss, ms, i, c);
    OnlyForkMoves(code, ss[i + 3], ms[i + 3], ss[i + 4]);
    OnlyForkMoves(code, ss[i + 4], ms[i + 4], ss[i + 5]);
  }

  lemma FieldsStored(code: Code, ss: seq<State>, ms: seq<Move>, i: nat, c: int)
    requires Run(code, ss, ms) && i + 3 < |ss| && ss[i].at == Compare(c) && !ss[i].on
    requires ss[i].cur < |ss[i].tasks| - 1 && ss[i].private && OwnLocal(ss[i])
    ensures var s, t, n := ss[i], ss[i + 3], |ss[i].tasks| - 1;
            t == s.(at := Parent2(c),
                    tasks := s.tasks[n := s.tasks[n].(saved := s.tasks[n].saved.(esp := s.regs.esp, ebp := s.regs.ebp))])
  {
    hide Step, Init;
    OnlyForkMoves(code, ss[i], ms[i], ss[i + 1]);
    OnlyForkMoves(code, ss[i + 1], ms[i + 1], ss[i + 2]);
    OnlyForkMoves(code, ss[i + 2], ms[i + 2], ss[i + 3]);
  }

  /** In every run read_eip's own return address is told apart from the sentinel, and no jump goes astray. */
  lemma SentinelIsNoAddress(code: Code, ss: seq<State>, ms: seq<Move>, i: nat)
    requires CodeLinked(code) && Run(code, ss, ms) && ss[0].private && i < |ss|
    ensures ss[i].at != Lost && code.switchEip != SENTINEL && code.forkEip != SENTINEL
    ensures ss[i].at.Switch3? && !ss[i].on && ss[i].at.got != SENTINEL ==> ss[i].at.got == code.switchEip
    ensures ss[i].on ==> MayBeOn(ss[i].at)
  {
    RunKeepsInv(code, ss, ms, i);
  }
}
