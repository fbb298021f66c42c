/**
 * fork when the running stack lies in tables of the kernel directory, as booting leaves it: parent and child run on
 * one stack.  A run in which the child takes the branch of the parent.
 */
module SharedStack {
  import opened Tasks
  import opened Interleaving

  const REGS := Context(1, 2, 3)
  const CHILD_DIR := 7

  ghost predicate Reaches(code: Code, ss: seq<State>, ms: seq<Move>, s: State) {
    Run(code, ss, ms) && ss[|ms|] == s
  }

  /** One more step of the run. */
  lemma Extended(code: Code, ss: seq<State>, ms: seq<Move>, s: State, m: Move, s': State)
    requires Reaches(code, ss, ms, s) && Step(code, s, m, s')
    ensures Reaches(code, ss + [s'], ms + [m], s')
  {
    hide Step, Init;
    var ss', ms' := ss + [s'], ms + [m];
    forall i, j | 0 <= i < |ms'| && j == i + 1 ensures Step(code, ss'[i], ms'[i], ss'[j]) {
      if i < |ms| {
        assert Step(code, ss[i], ms[i], ss[j]);
      }
    }
  }

  /** One task on a shared stack, before it forks. */
  function Booted(): State {
    State([TaskRec(1, ZERO, 0, Frame(Lost, ZERO))], 0, 2, true, Own, REGS, 0, false, [], map[], map[], map[], [])
  }

  /** The parent after fork: its local has been read, the child's context is complete. */
  function Forked(code: Code): State {
    Booted().(tasks := [TaskRec(1, ZERO, 0, Frame(Lost, ZERO)),
                        TaskRec(2, Context(code.forkEip, 2, 3), CHILD_DIR, Frame(Lost, ZERO))],
              nextPid := 3, locals := map[(SHARED_STACK, 3) := 1], last := map[2 := Context(code.forkEip, 2, 3)],
              parent := map[2 := 1], log := [(1, 2)])
  }

  /** Back in its own code the parent has reused the place of the local; then the child is resumed. */
  function Resumed(code: Code): State {
    var f := Frame(Own, REGS);
    Forked(code).(tasks := [TaskRec(1, Context(code.switchEip, 2, 3), 0, f), Forked(code).tasks[1]], cur := 1,
                  locals := map[(SHARED_STACK, 3) := 2],
                  last := map[2 := Context(code.forkEip, 2, 3), 1 := Context(code.switchEip, 2, 3)],
                  at := Compare(-1), regs := Context(code.forkEip, 2, 3), dir := CHILD_DIR)
  }

  lemma Starts(code: Code)
    ensures Reaches(code, [Booted()], [], Booted())
  {
  }

  /** Lines 160 to 183. */
  lemma Makes(code: Code) returns (s: State, ss: seq<State>, ms: seq<Move>)
    requires CodeLinked(code)
    ensures Reaches(code, ss, ms, s) && |ss| > 0 && ss[0] == Booted()
    ensures s == Booted().(tasks := Booted().tasks + [TaskRec(2, ZERO, CHILD_DIR, Frame(Lost, ZERO))], nextPid := 3,
                           locals := map[(SHARED_STACK, 3) := 1], parent := map[2 := 1], on := false, at := Compare(2))
  {
    Starts(code);
    hide Reaches;
    var s0 := Booted();
    var s1 := s0.(at := Fork1, on := false);
    var s2 := s1.(at := Fork2, locals := map[(SHARED_STACK, 3) := 1]);
    var s3 := s2.(at := Fork3(CHILD_DIR));
    var s4 := s3.(at := Fork4, made := [TaskRec(2, ZERO, CHILD_DIR, Frame(Lost, ZERO))], nextPid := 3, parent := map[2 := 1]);
    var s5 := s4.(at := Fork5, tasks := s4.tasks + s4.made, made := []);
    s := s5.(at := Compare(2));
    ss, ms := [s0], [];
    ss, ms := Then(code, ss, ms, s0, CallFork, s1);
    ss, ms := Then(code, ss, ms, s1, Go(0), s2);
    ss, ms := Then(code, ss, ms, s2, Go(CHILD_DIR), s3);
    ss, ms := Then(code, ss, ms, s3, Go(0), s4);
    ss, ms := Then(code, ss, ms, s4, Go(0), s5);
    ss, ms := Then(code, ss, ms, s5, Go(0), s);
  }

  lemma Then(code: Code, ss: seq<State>, ms: seq<Move>, s: State, m: Move, s': State) returns (ss': seq<State>, ms': seq<Move>)
    requires Reaches(code, ss, ms, s) && Step(code, s, m, s') && |ss| > 0
    ensures Reaches(code, ss', ms', s') && |ss'| > 0 && ss'[0] == ss[0]
  {
    hide Reaches, Step;
    ss', ms' := ss + [s'], ms + [m];
    Extended(code, ss, ms, s, m, s');
  }

  function Made(): State {
    Booted().(tasks := [TaskRec(1, ZERO, 0, Frame(Lost, ZERO)), TaskRec(2, ZERO, CHILD_DIR, Frame(Lost, ZERO))], nextPid := 3,
              locals := map[(SHARED_STACK, 3) := 1], parent := map[2 := 1], on := false, at := Parent0(2))
  }

  /** Line 186: the parent finds its own local. */
  lemma Reads(code: Code) returns (ss: seq<State>, ms: seq<Move>)
    requires CodeLinked(code)
    ensures Reaches(code, ss, ms, Made()) && |ss| > 0 && ss[0] == Booted()
  {
    var s6;
    s6, ss, ms := Makes(code);
    hide Reaches;
    ss, ms := Then(code, ss, ms, s6, Go(0), s6.(at := Parent0(2)));
  }

  /** Lines 190 to 192: the child's stack pointers. */
  lemma Stores(code: Code) returns (s: State, ss: seq<State>, ms: seq<Move>)
    requires CodeLinked(code)
    ensures Reaches(code, ss, ms, s) && |ss| > 0 && ss[0] == Booted()
    ensures s == Made().(tasks := [Made().tasks[0], TaskRec(2, Context(0, 2, 3), CHILD_DIR, Frame(Lost, ZERO))], at := Parent2(2))
  {
    ss, ms := Reads(code);
    hide Reaches;
    var s8 := Made().(tasks := [Made().tasks[0], TaskRec(2, Context(0, 2, 0), CHILD_DIR, Frame(Lost, ZERO))], at := Parent1(2));
    s := Made().(tasks := [Made().tasks[0], TaskRec(2, Context(0, 2, 3), CHILD_DIR, Frame(Lost, ZERO))], at := Parent2(2));
    ss, ms := Then(code, ss, ms, Made(), Go(0), s8);
    ss, ms := Then(code, ss, ms, s8, Go(0), s);
  }

  /** Lines 193 to 199: the child is complete and the parent returns. */
  lemma Completes(code: Code) returns (ss: seq<State>, ms: seq<Move>)
    requires CodeLinked(code)
    ensures Reaches(code, ss, ms, Forked(code)) && |ss| > 0 && ss[0] == Booted()
  {
    var s9;
    s9, ss, ms := Stores(code);
    hide Reaches;
    var s10 := SetSaved(s9, 1, Context(code.forkEip, 2, 3)).(at := Parent3(2), last := map[2 := Context(code.forkEip, 2, 3)]);
    var s11 := s10.(at := ForkDone(2), on := true);
    var s12 := s11.(at := Own, log := [(1, 2)]);
    ss, ms := Then(code, ss, ms, s9, Go(0), s10);
    ss, ms := Then(code, ss, ms, s10, Go(0), s11);
    ss, ms := Then(code, ss, ms, s11, Go(0), s12);
    assert s12 == Forked(code);
  }

  /** The parent goes on, and the timer strikes. */
  lemma Strikes(code: Code) returns (s: State, ss: seq<State>, ms: seq<Move>)
    requires CodeLinked(code)
    ensures Reaches(code, ss, ms, s) && |ss| > 0 && ss[0] == Booted()
    ensures s == Forked(code).(locals := map[(SHARED_STACK, 3) := 2], at := Switch3(Frame(Own, REGS), code.switchEip), on := false)
  {
    ss, ms := Completes(code);
    hide Reaches;
    var f := Frame(Own, REGS);
    var s13 := Forked(code).(locals := map[(SHARED_STACK, 3) := 2]);
    var s14 := s13.(at := Switch1(f), on := false);
    var s15 := s14.(at := Switch2(f));
    s := s15.(at := Switch3(f, code.switchEip));
    ss, ms := Then(code, ss, ms, Forked(code), Work(REGS, s13.locals, true), s13);
    ss, ms := Then(code, ss, ms, s13, Tick(REGS), s14);
    ss, ms := Then(code, ss, ms, s14, Go(0), s15);
    ss, ms := Then(code, ss, ms, s15, Go(0), s);
  }

  /** switch_task saves it. */
  lemma Saves(code: Code) returns (s: State, ss: seq<State>, ms: seq<Move>)
    requires CodeLinked(code)
    ensures Reaches(code, ss, ms, s) && |ss| > 0 && ss[0] == Booted()
    ensures s == Resumed(code).(cur := 0, at := Switch6, regs := REGS, dir := 0, on := false)
  {
    var s16;
    s16, ss, ms := Strikes(code);
    hide Reaches;
    var f := Frame(Own, REGS);
    var s17 := SetSaved(s16, 0, Context(code.switchEip, 0, 0)).(at := Switch4(f));
    var s18 := SetSaved(s17, 0, Context(code.switchEip, 2, 0)).(at := Switch5(f));
    s := Resumed(code).(cur := 0, at := Switch6, regs := REGS, dir := 0, on := false);
    ss, ms := Then(code, ss, ms, s16, Go(0), s17);
    ss, ms := Then(code, ss, ms, s17, Go(0), s18);
    ss, ms := Then(code, ss, ms, s18, Go(0), s);
  }

  /** switch_task jumps to the child. */
  lemma Resumes(code: Code) returns (ss: seq<State>, ms: seq<Move>)
    requires CodeLinked(code)
    ensures Reaches(code, ss, ms, Resumed(code)) && |ss| > 0 && ss[0] == Booted()
  {
    var s;
    s, ss, ms := Saves(code);
    hide Reaches;
    var s20 := s.(cur := 1, at := Switch7);
    var s21 := s20.(at := Switch8);
    var s22 := s21.(dir := CHILD_DIR, at := Switch9);
    ss, ms := Then(code, ss, ms, s, Go(0), s20);
    ss, ms := Then(code, ss, ms, s20, Go(0), s21);
    ss, ms := Then(code, ss, ms, s21, Go(0), s22);
    ss, ms := Then(code, ss, ms, s22, Go(0), Resumed(code));
  }

  /** The child compares what the parent has left in the local they share. */
  lemma Compares(code: Code) returns (s: State, ss: seq<State>, ms: seq<Move>)
    requires CodeLinked(code)
    ensures Reaches(code, ss, ms, s) && |ss| > 0 && ss[0] == Booted() && s == Resumed(code).(at := Parent0(-1))
  {
    ss, ms := Resumes(code);
    hide Reaches;
    s := Resumed(code).(at := Parent0(-1));
    ss, ms := Then(code, ss, ms, Resumed(code), Go(0), s);
  }

  /** It goes the parent's way. */
  lemma Mistakes(code: Code) returns (s: State, ss: seq<State>, ms: seq<Move>)
    requires CodeLinked(code)
    ensures Reaches(code, ss, ms, s) && |ss| > 0 && ss[0] == Booted() && s == Resumed(code).(at := Parent2(-1))
  {
    var s24;
    s24, ss, ms := Compares(code);
    hide Reaches;
    var s25 := s24.(at := Parent1(-1));
    s := s25.(at := Parent2(-1));
    assert SetSaved(s24, 1, Cur(s24).saved.(esp := 2)) == s24 && SetSaved(s25, 1, Cur(s25).saved.(ebp := 3)) == s25;
    ss, ms := Then(code, ss, ms, s24, Go(0), s25);
    ss, ms := Then(code, ss, ms, s25, Go(0), s);
  }

  /** On a stack that parent and child share, the first thing fork returns to a child need not be 0. */
  lemma ChildTakesParentsBranch(code: Code) returns (ss: seq<State>, ms: seq<Move>)
    requires CodeLinked(code)
    ensures Run(code, ss, ms) && !ss[0].private && ss[|ms|].log == [(1, 2), (2, -1)] && ss[|ms|].parent == map[2 := 1]
  {
    var s26;
    s26, ss, ms := Mistakes(code);
    hide Reaches;
    var s27 := s26.(at := Parent3(-1), last := s26.last[-1 := Context(code.forkEip, 2, 3)]);
    var s28 := s27.(at := ForkDone(-1), on := true);
    var s29 := s28.(at := Own, log := [(1, 2), (2, -1)]);
    assert SetSaved(s26, 1, Cur(s26).saved.(eip := code.forkEip)) == s26;
    ss, ms := Then(code, ss, ms, s26, Go(0), s27);
    ss, ms := Then(code, ss, ms, s27, Go(0), s28);
    ss, ms := Then(code, ss, ms, s28, Go(0), s29);
    Ends(code, ss, ms, s29);
  }

  lemma Ends(code: Code, ss: seq<State>, ms: seq<Move>, s: State)
    requires Reaches(code, ss, ms, s)
    ensures Run(code, ss, ms) && |ss| == |ms| + 1 && ss[|ms|] == s
  {
  }
}
