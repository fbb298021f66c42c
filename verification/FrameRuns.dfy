/** Whole sequences of alloc_frame and free_frame over the pages of existing tables. */
module FrameRuns {
  import opened Frames
  import opened Paging

  /** The page tables, and the frames whose bits are set. */
  datatype Held = Held(tables: Tables, used: set<int>)

  datatype Event = Take(t: int, i: nat, isKernel: bool, isWriteable: bool) | GiveBack(t: int, i: nat)

  predicate Exists(s: Held, e: Event) {
    e.t in s.tables && e.i < ENTRIES
  }

  /** alloc_frame finds the page without a frame and looks for one. */
  predicate Looks(s: Held, e: Event)
    requires Exists(s, e)
  {
    e.Take? && s.tables[e.t][e.i].frame == 0
  }

  ghost predicate Step(s: Held, e: Event, s': Held) {
    && Exists(s, e) && Exists(s', e) && 0 <= s.tables[e.t][e.i].frame < FRAME_COUNT
    && s'.tables == s.tables[e.t := s.tables[e.t][e.i := s'.tables[e.t][e.i]]]
    && var was, now := s.tables[e.t][e.i], s'.tables[e.t][e.i];
       match e
       case Take(_, _, isKernel, isWriteable) =>
         if was.frame != 0 then s' == s
         else
           && 0 <= now.frame < FRAME_COUNT && now.frame !in s.used && (forall f :: 0 <= f < now.frame ==> f in s.used)
           && now == was.(present := true, rw := isWriteable, user := !isKernel, frame := now.frame)
           && s'.used == s.used + {now.frame}
       case GiveBack(_, _) =>
         now == was.(frame := 0) && s'.used == if was.frame == 0 then s.used else s.used - {0}
  }

  ghost predicate Run(ss: seq<Held>, es: seq<Event>) {
    && |ss| == |es| + 1 && Sound(ss[0].tables, ss[0].used)
    && forall i :: 0 <= i < |es| ==> Step(ss[i], es[i], ss[i + 1])
  }

  lemma StepKeepsSound(s: Held, e: Event, s': Held)
    requires Step(s, e, s') && Sound(s.tables, s.used)
    ensures Sound(s'.tables, s'.used)
    ensures s.used - {0} <= s'.used
  {
  }

  /** In every run every frame held has its bit set and no two pages hold the same one. */
  lemma {:induction false} RunKeepsSound(ss: seq<Held>, es: seq<Event>, i: nat, j: nat)
    requires Run(ss, es) && i <= j < |ss|
    ensures Sound(ss[j].tables, ss[j].used)
    ensures ss[i].used - {0} <= ss[j].used
    decreases j
  {
    hide Sound, Step;
    if i < j {
      RunKeepsSound(ss, es, i, j - 1);
      StepKeepsSound(ss[j - 1], es[j - 1], ss[j]);
    } else if 0 < j {
      RunKeepsSound(ss, es, 0, j - 1);
      StepKeepsSound(ss[j - 1], es[j - 1], ss[j]);
    }
  }

  /** As written, free_frame gives nothing back: in a whole run no frame but 0 is handed out a second time. */
  lemma NoFrameTwice(ss: seq<Held>, es: seq<Event>, i: nat, j: nat)
    requires Run(ss, es) && i < j < |es|
    requires Exists(ss[i], es[i]) && Looks(ss[i], es[i]) && Exists(ss[j], es[j]) && Looks(ss[j], es[j])
    ensures Step(ss[i], es[i], ss[i + 1]) && Step(ss[j], es[j], ss[j + 1])
    ensures var f, g := ss[i + 1].tables[es[i].t][es[i].i].frame, ss[j + 1].tables[es[j].t][es[j].i].frame;
            f == g ==> f == 0
  {
    hide Sound;
    RunKeepsSound(ss, es, i + 1, j);
  }

  /**
   * What is given out after a free_frame that cleared something is frame 0, the number that means "no
   * frame": the page is marked present and stays without a frame of its own.
   */
  lemma ZeroAfterFree(s: Held, e: Event, s': Held, e': Event, s'': Held)
    requires Step(s, e, s') && e.GiveBack? && s.tables[e.t][e.i].frame != 0
    requires Step(s', e', s'') && Looks(s', e')
    ensures s''.tables[e'.t][e'.i].frame == 0 && s''.tables[e'.t][e'.i].present
    ensures s''.used == s.used + {0}
  {
  }

  ghost function Snapshot(m: Memory): Held
    requires m.Valid()
    reads m, m.frames, m.frames.words
  {
    Held(m.tables, m.frames.Used())
  }

  /** The code takes such steps. */
  method Perform(m: Memory, e: Event)
    requires m.Valid() && Exists(Snapshot(m), e) && 0 <= m.tables[e.t][e.i].frame < FRAME_COUNT
    requires Looks(Snapshot(m), e) ==> exists f :: 0 <= f < FRAME_COUNT && f !in m.frames.Used()
    modifies m`tables, m.frames.words
    ensures m.Valid() && Step(old(Snapshot(m)), e, Snapshot(m))
  {
    hide Sound, FrameSet.Used, Memory.FreshAddresses;
    ghost var s := Snapshot(m);
    assert s.tables[e.t := s.tables[e.t][e.i := s.tables[e.t][e.i]]] == s.tables by {
      assert s.tables[e.t][e.i := s.tables[e.t][e.i]] == s.tables[e.t];
    }
    match e
    case Take(t, i, isKernel, isWriteable) =>
      m.AllocFrame(t, i, isKernel, isWriteable);
    case GiveBack(t, i) => m.FreeFrame(t, i);
  }
}
