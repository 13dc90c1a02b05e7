/** When two workers hold one fiber, and concrete runs of the worker loop. */
module SchedulingRuns {
  import opened Scheduling

  // ------------------------------------------------------------------ two workers, one fiber

  /** Worker `w` is on the stack of fiber `f`: it runs it, or has not yet saved its context. */
  predicate Holds(s: State, w: Thread, f: Fiber) {
    w in s.workers && (s.workers[w] == Running(f) || s.workers[w] == Yielded(f))
  }

  ghost predicate Doubled(s: State, f: Fiber) {
    exists v, w :: v != w && Holds(s, v, f) && Holds(s, w, f)
  }

  predicate Enters(s: State, w: Thread, f: Fiber) { w in s.workers && s.workers[w] == Entering(f) }

  /** A worker that had given `f` up wrote Holding over its state while `v` was running it,
      and `v` has been since. */
  ghost predicate Overwritten(states: seq<State>, steps: seq<Step>, k: nat, v: Thread, f: Fiber)
    requires k < |states| && k <= |steps|
  {
    exists j: nat :: j < k && LateWrite(states[j], steps[j], f) && forall m :: j <= m <= k ==> Runs(states[m], v, f)
  }

  predicate LateWrite(s: State, step: Step, f: Fiber) {
    step.WriteHolding? && At(s, step.w) && s.workers[step.w] == Hold(f)
  }

  /** Why the test of `w` let it through although `v` holds `f`: when `w` made it, `v` had
      written its state but not switched back, or ran `f` with its state overwritten; or `v`
      switched to `f` after it. */
  ghost predicate LetIn(states: seq<State>, steps: seq<Step>, k: nat, v: Thread, w: Thread, f: Fiber)
    requires k < |states| && k <= |steps|
  {
    exists j: nat :: j < k
      && (EarlyTest(states, steps, j, v, w, f) || (Enters(states[j], v, f) && steps[j] == SwitchIn(v)))
      && forall m :: j < m <= k ==> Enters(states[m], w, f)
  }

  ghost predicate EarlyTest(states: seq<State>, steps: seq<Step>, j: nat, v: Thread, w: Thread, f: Fiber)
    requires j < |states| && j < |steps|
  {
    && steps[j] == Test(w) && v in states[j].workers
    && (states[j].workers[v] == Yielded(f) || Overwritten(states, steps, j, v, f))
  }

  /** Step `i` switches to `f` while another worker holds it, for one of these reasons. */
  ghost predicate Overlaps(states: seq<State>, steps: seq<Step>, i: nat, f: Fiber)
    requires i < |states| && i < |steps|
  {
    && steps[i].SwitchIn? && Enters(states[i], steps[i].w, f)
    && exists v :: v != steps[i].w && Holds(states[i], v, f) && LetIn(states, steps, i, v, steps[i].w, f)
  }

  /** In every run two workers hold a fiber at some time exactly when one of them switched to
      it like that. */
  lemma TwoWorkersIff(states: seq<State>, steps: seq<Step>, k: nat, f: Fiber)
    requires IsRun(states, steps) && k < |states|
    ensures (exists i: nat :: i <= k && Doubled(states[i], f)) <==>
      exists i: nat :: i < k && Overlaps(states, steps, i, f)
  {
    hide Next, Enabled, Doubled, Overlaps, Sole;
    if i: nat :| i < k && Overlaps(states, steps, i, f) {
      OverlapDoubles(states, steps, i, f);
    } else {
      forall i: nat | i <= k
        ensures !Doubled(states[i], f)
      {
        SoleHolder(states, steps, i, f);
        SoleIs(states, steps, i, f);
      }
    }
  }

  lemma OverlapDoubles(states: seq<State>, steps: seq<Step>, i: nat, f: Fiber)
    requires IsRun(states, steps) && i < |steps| && Overlaps(states, steps, i, f)
    ensures Doubled(states[i + 1], f)
  {
    hide LetIn;
    var v :| v != steps[i].w && Holds(states[i], v, f) && LetIn(states, steps, i, v, steps[i].w, f);
    assert Holds(states[i + 1], v, f) && Holds(states[i + 1], steps[i].w, f);
  }

  /** As long as nobody switches to `f` like that, one worker at most holds it, its state is
      Execute while it runs unless it was overwritten, and who is about to enter had a reason. */
  ghost predicate Sole(states: seq<State>, steps: seq<Step>, k: nat, f: Fiber)
    requires k < |states| && k <= |steps|
  {
    && !Doubled(states[k], f)
    && (forall v :: Runs(states[k], v, f) && !Executes(states[k], f) ==> Overwritten(states, steps, k, v, f))
    && (forall v, w :: v != w && Holds(states[k], v, f) && Enters(states[k], w, f) ==>
          LetIn(states, steps, k, v, w, f))
  }

  lemma SoleIs(states: seq<State>, steps: seq<Step>, k: nat, f: Fiber)
    requires k < |states| && k <= |steps| && Sole(states, steps, k, f)
    ensures !Doubled(states[k], f)
  {}

  lemma {:induction false} SoleHolder(states: seq<State>, steps: seq<Step>, k: nat, f: Fiber)
    requires IsRun(states, steps) && k < |states|
    requires forall i: nat :: i < k ==> !Overlaps(states, steps, i, f)
    ensures Sole(states, steps, k, f)
  {
    hide Next, Enabled, Overlaps, Sole, Inv;
    if k == 0 {
      SoleAtFirst(states, steps, f);
    } else {
      SoleHolder(states, steps, k - 1, f);
      RunInv(states, steps, k - 1);
      NobodyElse(states, steps, k - 1, f);
      SoleStep(states, steps, k - 1, f);
    }
  }

  lemma SoleAtFirst(states: seq<State>, steps: seq<Step>, f: Fiber)
    requires IsRun(states, steps)
    ensures Sole(states, steps, 0, f)
  {}

  /** Who switches to `f` while another holds it overlaps. */
  lemma NobodyElse(states: seq<State>, steps: seq<Step>, k: nat, f: Fiber)
    requires IsRun(states, steps) && k < |steps| && Sole(states, steps, k, f)
    ensures steps[k].SwitchIn? && Enters(states[k], steps[k].w, f) && (exists v :: Holds(states[k], v, f)) ==>
      Overlaps(states, steps, k, f)
  {
    hide Next, Enabled, Doubled, Overwritten, LetIn;
  }

  lemma SoleStep(states: seq<State>, steps: seq<Step>, k: nat, f: Fiber)
    requires IsRun(states, steps) && k < |steps| && Sole(states, steps, k, f) && Inv(states[k])
    requires steps[k].SwitchIn? && Enters(states[k], steps[k].w, f) ==> forall v :: !Holds(states[k], v, f)
    ensures Sole(states, steps, k + 1, f)
  {
    hide Next, Enabled, Inv, Doubled, Overwritten, LetIn;
    var s, t, step := states[k], states[k + 1], steps[k];
    OneHolder(s, step, f);
    forall v | Runs(t, v, f) && !Executes(t, f)
      ensures Overwritten(states, steps, k + 1, v, f)
    {
      StateLost(s, step, v, f);
      if LateWrite(s, step, f) {
        WrittenNow(states, steps, k, v, f);
      } else {
        WrittenBefore(states, steps, k, v, f);
      }
    }
    forall v, w | v != w && Holds(t, v, f) && Enters(t, w, f)
      ensures LetIn(states, steps, k + 1, v, w, f)
    {
      EntersFrom(s, step, v, w, f);
      if !Enters(s, w, f) {
        LetInByTest(states, steps, k, v, w, f);
      } else if Holds(s, v, f) {
        LetInBefore(states, steps, k, v, w, f);
      } else {
        LetInAfter(states, steps, k, v, w, f);
      }
    }
  }

  /** A worker is about to enter from its test on, and a new holder comes by a switch. */
  lemma EntersFrom(s: State, step: Step, v: Thread, w: Thread, f: Fiber)
    requires Inv(s) && Enabled(s, step) && v != w && Holds(Next(s, step), v, f) && Enters(Next(s, step), w, f)
    ensures Enters(s, w, f) || (step == Test(w) && Holds(s, v, f) && !Executes(s, f))
    ensures Holds(s, v, f) || (step == SwitchIn(v) && Enters(s, v, f))
  {
    hide Counted, ExecuteIsRun, Ticketed, LeavesWhenStopping;
    if !Holds(s, v, f) {
      FromEntering(s, step, v, f);
      NotYet(s);
      assert Concerns(s.workers[w], f);
    }
  }

  lemma LetInByTest(states: seq<State>, steps: seq<Step>, k: nat, v: Thread, w: Thread, f: Fiber)
    requires k + 1 < |states| && k < |steps| && steps[k] == Test(w) && Enters(states[k + 1], w, f)
    requires Holds(states[k], v, f) && !Executes(states[k], f)
    requires Runs(states[k], v, f) && !Executes(states[k], f) ==> Overwritten(states, steps, k, v, f)
    ensures LetIn(states, steps, k + 1, v, w, f)
  {
    hide Overwritten;
    assert EarlyTest(states, steps, k, v, w, f);
  }

  lemma LetInBefore(states: seq<State>, steps: seq<Step>, k: nat, v: Thread, w: Thread, f: Fiber)
    requires k + 1 < |states| && k < |steps| && LetIn(states, steps, k, v, w, f) && Enters(states[k + 1], w, f)
    ensures LetIn(states, steps, k + 1, v, w, f)
  {
    hide EarlyTest;
    var j: nat :| j < k
      && (EarlyTest(states, steps, j, v, w, f) || (Enters(states[j], v, f) && steps[j] == SwitchIn(v)))
      && forall m :: j < m <= k ==> Enters(states[m], w, f);
    assert forall m :: j < m <= k + 1 ==> Enters(states[m], w, f);
  }

  lemma LetInAfter(states: seq<State>, steps: seq<Step>, k: nat, v: Thread, w: Thread, f: Fiber)
    requires k + 1 < |states| && k < |steps| && steps[k] == SwitchIn(v) && Enters(states[k], v, f)
    requires Enters(states[k + 1], w, f)
    ensures LetIn(states, steps, k + 1, v, w, f)
  {
    hide EarlyTest;
  }

  lemma WrittenNow(states: seq<State>, steps: seq<Step>, k: nat, v: Thread, f: Fiber)
    requires k + 1 < |states| && k < |steps| && LateWrite(states[k], steps[k], f)
    requires Runs(states[k], v, f) && Runs(states[k + 1], v, f)
    ensures Overwritten(states, steps, k + 1, v, f)
  {
    assert forall m :: k <= m <= k + 1 ==> Runs(states[m], v, f);
  }

  lemma WrittenBefore(states: seq<State>, steps: seq<Step>, k: nat, v: Thread, f: Fiber)
    requires k + 1 < |states| && k < |steps| && Overwritten(states, steps, k, v, f) && Runs(states[k + 1], v, f)
    ensures Overwritten(states, steps, k + 1, v, f)
  {
    var j: nat :| j < k && LateWrite(states[j], steps[j], f) && forall m :: j <= m <= k ==> Runs(states[m], v, f);
    assert forall m :: j <= m <= k + 1 ==> Runs(states[m], v, f);
  }

  /** Only a switch to `f` makes a new holder. */
  lemma OneHolder(s: State, step: Step, f: Fiber)
    requires Inv(s) && Enabled(s, step) && !Doubled(s, f)
    requires step.SwitchIn? && Enters(s, step.w, f) ==> forall v :: !Holds(s, v, f)
    ensures !Doubled(Next(s, step), f)
  {
    hide Next, Enabled, Inv;
    forall v | Holds(Next(s, step), v, f)
      ensures Holds(s, v, f) || (!step.Schedule? && !step.Stop? && step.w == v && forall u :: !Holds(s, u, f))
    {
      NewHolder(s, step, v, f);
    }
  }

  lemma NewHolder(s: State, step: Step, v: Thread, f: Fiber)
    requires Inv(s) && Enabled(s, step) && Holds(Next(s, step), v, f)
    requires step.SwitchIn? && Enters(s, step.w, f) ==> forall u :: !Holds(s, u, f)
    ensures Holds(s, v, f) || (!step.Schedule? && !step.Stop? && step.w == v && forall u :: !Holds(s, u, f))
  {
    hide Counted, ExecuteIsRun, Ticketed, LeavesWhenStopping;
    if !Holds(s, v, f) {
      FromEntering(s, step, v, f);
      NotYet(s);
    }
  }

  lemma NotYet(s: State)
    requires Known(s)
    ensures s.nextFiber !in s.fibers && forall u :: !Holds(s, u, s.nextFiber)
  {
    assert s.nextFiber !in s.fibers;
    assert forall u :: Holds(s, u, s.nextFiber) ==> Concerns(s.workers[u], s.nextFiber);
  }

  lemma FromEntering(s: State, step: Step, v: Thread, f: Fiber)
    requires Enabled(s, step) && Holds(Next(s, step), v, f) && !Holds(s, v, f)
    ensures (step == SwitchIn(v) && Enters(s, v, f)) || (step == Check(v) && f == s.nextFiber)
  {}

  /** The state of a fiber that goes on running changes only by a late write, as long as one
      worker holds it. */
  lemma StateLost(s: State, step: Step, v: Thread, f: Fiber)
    requires Inv(s) && Enabled(s, step) && !Doubled(s, f)
    requires Runs(Next(s, step), v, f) && !Executes(Next(s, step), f)
    ensures Runs(s, v, f) && (LateWrite(s, step, f) || !Executes(s, f))
  {
    hide Counted, ExecuteIsRun, Ticketed, LeavesWhenStopping;
    OneRuns(s, f);
    assert step.Yield? ==> Runs(s, step.w, s.workers[step.w].fiber);
  }

  lemma OneRuns(s: State, f: Fiber)
    requires !Doubled(s, f)
    ensures forall v, w :: Runs(s, v, f) && Runs(s, w, f) ==> v == w
  {
    assert forall v :: Runs(s, v, f) ==> Holds(s, v, f);
  }

  /** The assertion of `swapIn` fails only while another worker runs the fiber. */
  lemma SwapInFailsIff(states: seq<State>, steps: seq<Step>, k: nat)
    requires IsRun(states, steps) && k < |steps| && steps[k].Test?
    ensures var s, w := states[k], steps[k].w;
      && (states[k + 1].failed <==> Executes(s, s.workers[w].fiber))
      && (states[k + 1].failed ==> exists v :: v != w && Runs(s, v, s.workers[w].fiber))
  {
    RunInv(states, steps, k);
    hide Counted, Known, Ticketed, LeavesWhenStopping;
    var s, w := states[k], steps[k].w;
    if states[k + 1].failed {
      var v :| Runs(s, v, s.workers[w].fiber);
      assert v != w;
    }
  }

  // ----------------------------------------------------------------------- concrete runs

  ghost predicate Moves(s: State, step: Step, t: State) {
    Enabled(s, step) && t == Next(s, step)
  }

  /** A fiber that was scheduled while it ran is taken between the write of its state and the
      switch back. */
  lemma EarlyResume() returns (states: seq<State>, steps: seq<Step>)
    ensures IsRun(states, steps) && Doubled(states[|steps|], 0)
  {
    hide Next, Enabled, Race, RaceStep, Doubled;
    states := seq(10, k requires 0 <= k < 10 => Race(k));
    steps := seq(9, k requires 0 <= k < 9 => RaceStep(k));
    forall k | 0 <= k < 9
      ensures Enabled(states[k], steps[k]) && states[k + 1] == Next(states[k], steps[k])
    {
      RaceMoves(k);
    }
    RaceEnds();
  }

  /** The states of that run. */
  ghost function Race(k: nat): State {
    if k == 0 then
      State([], map[], map[1 := Scan, 2 := Scan], {}, 0, false, map[], 0, 0, false)
    else if k == 1 then
      State([Entry(Callback, -1, 0)], map[], map[1 := Scan, 2 := Scan], {}, 0, false, map[], 1, 0, false)
    else if k == 2 then
      State([], map[], map[1 := Taken(Callback), 2 := Scan], {}, 1, false,
            map[0 := Taking(Entry(Callback, -1, 0), 1)], 1, 0, false)
    else if k == 3 then
      State([], map[0 := Execute], map[1 := Running(0), 2 := Scan], {}, 1, false,
            map[0 := Taking(Entry(Callback, -1, 0), 1)], 1, 1, false)
    else if k == 4 then
      State([Entry(Resume(0), -1, 1)], map[0 := Execute], map[1 := Running(0), 2 := Scan], {}, 1, false,
            map[0 := Taking(Entry(Callback, -1, 0), 1)], 2, 1, false)
    else if k == 5 then
      State([Entry(Resume(0), -1, 1)], map[0 := Holding], map[1 := Yielded(0), 2 := Scan], {}, 1, false,
            map[0 := Taking(Entry(Callback, -1, 0), 1)], 2, 1, false)
    else if k == 6 then
      State([], map[0 := Holding], map[1 := Yielded(0), 2 := Taken(Resume(0))], {}, 2, false,
            map[0 := Taking(Entry(Callback, -1, 0), 1), 1 := Taking(Entry(Resume(0), -1, 1), 2)], 2, 1, false)
    else if k == 7 then
      State([], map[0 := Holding], map[1 := Yielded(0), 2 := Live(0)], {}, 2, false,
            map[0 := Taking(Entry(Callback, -1, 0), 1), 1 := Taking(Entry(Resume(0), -1, 1), 2)], 2, 1, false)
    else if k == 8 then
      State([], map[0 := Holding], map[1 := Yielded(0), 2 := Entering(0)], {}, 2, false,
            map[0 := Taking(Entry(Callback, -1, 0), 1), 1 := Taking(Entry(Resume(0), -1, 1), 2)], 2, 1, false)
    else
      State([], map[0 := Execute], map[1 := Yielded(0), 2 := Running(0)], {}, 2, false,
            map[0 := Taking(Entry(Callback, -1, 0), 1), 1 := Taking(Entry(Resume(0), -1, 1), 2)], 2, 1, false)
  }

  ghost function RaceStep(k: nat): Step
    requires k < 9
  {
    [Schedule(Callback, -1), Take(1, 0), Check(1), Schedule(Resume(0), -1), Yield(1, Holding), Take(2, 0), Check(2),
     Test(2), SwitchIn(2)][k]
  }

  lemma RaceMoves(k: nat)
    requires k < 9
    ensures Moves(Race(k), RaceStep(k), Race(k + 1))
  {
    hide Next, Enabled, Race;
    if k == 0 {
      RaceStarts();
    } else if k == 1 {
      RaceTakes();
    } else if k == 2 {
      RaceRuns();
    } else if k == 3 {
      RaceWakes();
    } else if k == 4 {
      RaceWrites();
    } else if k == 5 {
      RaceTakesAgain();
    } else if k == 6 {
      RaceIsLive();
    } else if k == 7 {
      RaceEnters();
    } else {
      RaceRunsTwice();
    }
  }

  lemma RaceStarts()
    ensures Moves(Race(0), Schedule(Callback, -1), Race(1))
  {}

  lemma RaceTakes()
    ensures Moves(Race(1), Take(1, 0), Race(2))
  {}

  lemma RaceRuns()
    ensures Moves(Race(2), Check(1), Race(3))
  {}

  lemma RaceWakes()
    ensures Moves(Race(3), Schedule(Resume(0), -1), Race(4))
  {}

  lemma RaceWrites()
    ensures Moves(Race(4), Yield(1, Holding), Race(5))
  {}

  lemma RaceTakesAgain()
    ensures Moves(Race(5), Take(2, 0), Race(6))
  {}

  lemma RaceIsLive()
    ensures Moves(Race(6), Check(2), Race(7))
  {}

  lemma RaceEnters()
    ensures Moves(Race(7), Test(2), Race(8))
  {}

  lemma RaceRunsTwice()
    ensures Moves(Race(8), SwitchIn(2), Race(9))
  {}

  lemma RaceEnds()
    ensures Initial(Race(0)) && Doubled(Race(9), 0)
  {
    assert At(Race(0), 1);
    assert Holds(Race(9), 1, 0) && Holds(Race(9), 2, 0);
  }

  /** No entry is taken in that gap: the worker that gave the fiber up writes Holding over
      the state of the fiber that another runs, and the next entry of it is taken. */
  lemma LateHolding() returns (states: seq<State>, steps: seq<Step>)
    ensures IsRun(states, steps) && Doubled(states[|steps|], 0)
    ensures forall i, w :: 0 <= i < |steps| && steps[i].Test? && w in states[i].workers ==>
      !states[i].workers[w].Yielded?
  {
    hide Next, Enabled, Overwrite, OverwriteStep, Doubled;
    OverwriteSwitches();
    states := seq(19, k requires 0 <= k < 19 => Overwrite(k));
    steps := seq(18, k requires 0 <= k < 18 => OverwriteStep(k));
    forall k | 0 <= k < 18
      ensures Enabled(states[k], steps[k]) && states[k + 1] == Next(states[k], steps[k])
    {
      OverwriteMoves(k);
    }
    OverwriteEnds();
  }

  /** The states of that run. */
  ghost function Overwrite(k: nat): State {
    if k == 0 then
      State([], map[], map[1 := Scan, 2 := Scan], {}, 0, false, map[], 0, 0, false)
    else if k == 1 then
      State([Entry(Callback, -1, 0)], map[], map[1 := Scan, 2 := Scan], {}, 0, false, map[], 1, 0, false)
    else if k == 2 then
      State([], map[], map[1 := Taken(Callback), 2 := Scan], {}, 1, false,
            map[0 := Taking(Entry(Callback, -1, 0), 1)], 1, 0, false)
    else if k == 3 then
      State([], map[0 := Execute], map[1 := Running(0), 2 := Scan], {}, 1, false,
            map[0 := Taking(Entry(Callback, -1, 0), 1)], 1, 1, false)
    else if k == 4 then
      State([], map[0 := Holding], map[1 := Yielded(0), 2 := Scan], {}, 1, false,
            map[0 := Taking(Entry(Callback, -1, 0), 1)], 1, 1, false)
    else if k == 5 then
      State([], map[0 := Holding], map[1 := Back(0), 2 := Scan], {}, 1, false,
            map[0 := Taking(Entry(Callback, -1, 0), 1)], 1, 1, false)
    else if k == 6 then
      State([], map[0 := Holding], map[1 := Settle(0), 2 := Scan], {}, 0, false,
            map[0 := Taking(Entry(Callback, -1, 0), 1)], 1, 1, false)
    else if k == 7 then
      State([], map[0 := Holding], map[1 := Hold(0), 2 := Scan], {}, 0, false,
            map[0 := Taking(Entry(Callback, -1, 0), 1)], 1, 1, false)
    else if k == 8 then
      State([Entry(Resume(0), -1, 1)], map[0 := Holding], map[1 := Hold(0), 2 := Scan], {}, 0, false,
            map[0 := Taking(Entry(Callback, -1, 0), 1)], 2, 1, false)
    else if k == 9 then
      State([], map[0 := Holding], map[1 := Hold(0), 2 := Taken(Resume(0))], {}, 1, false,
            map[0 := Taking(Entry(Callback, -1, 0), 1), 1 := Taking(Entry(Resume(0), -1, 1), 2)], 2, 1, false)
    else if k == 10 then
      State([], map[0 := Holding], map[1 := Hold(0), 2 := Live(0)], {}, 1, false,
            map[0 := Taking(Entry(Callback, -1, 0), 1), 1 := Taking(Entry(Resume(0), -1, 1), 2)], 2, 1, false)
    else if k == 11 then
      State([], map[0 := Holding], map[1 := Hold(0), 2 := Entering(0)], {}, 1, false,
            map[0 := Taking(Entry(Callback, -1, 0), 1), 1 := Taking(Entry(Resume(0), -1, 1), 2)], 2, 1, false)
    else if k == 12 then
      State([], map[0 := Execute], map[1 := Hold(0), 2 := Running(0)], {}, 1, false,
            map[0 := Taking(Entry(Callback, -1, 0), 1), 1 := Taking(Entry(Resume(0), -1, 1), 2)], 2, 1, false)
    else if k == 13 then
      State([], map[0 := Holding], map[1 := Scan, 2 := Running(0)], {}, 1, false,
            map[0 := Taking(Entry(Callback, -1, 0), 1), 1 := Taking(Entry(Resume(0), -1, 1), 2)], 2, 1, false)
    else if k == 14 then
      State([Entry(Resume(0), -1, 2)], map[0 := Holding], map[1 := Scan, 2 := Running(0)], {}, 1, false,
            map[0 := Taking(Entry(Callback, -1, 0), 1), 1 := Taking(Entry(Resume(0), -1, 1), 2)], 3, 1, false)
    else if k == 15 then
      State([], map[0 := Holding], map[1 := Taken(Resume(0)), 2 := Running(0)], {}, 2, false,
            map[0 := Taking(Entry(Callback, -1, 0), 1), 1 := Taking(Entry(Resume(0), -1, 1), 2),
                2 := Taking(Entry(Resume(0), -1, 2), 1)],
            3, 1, false)
    else if k == 16 then
      State([], map[0 := Holding], map[1 := Live(0), 2 := Running(0)], {}, 2, false,
            map[0 := Taking(Entry(Callback, -1, 0), 1), 1 := Taking(Entry(Resume(0), -1, 1), 2),
                2 := Taking(Entry(Resume(0), -1, 2), 1)],
            3, 1, false)
    else if k == 17 then
      State([], map[0 := Holding], map[1 := Entering(0), 2 := Running(0)], {}, 2, false,
            map[0 := Taking(Entry(Callback, -1, 0), 1), 1 := Taking(Entry(Resume(0), -1, 1), 2),
                2 := Taking(Entry(Resume(0), -1, 2), 1)],
            3, 1, false)
    else
      State([], map[0 := Execute], map[1 := Running(0), 2 := Running(0)], {}, 2, false,
            map[0 := Taking(Entry(Callback, -1, 0), 1), 1 := Taking(Entry(Resume(0), -1, 1), 2),
                2 := Taking(Entry(Resume(0), -1, 2), 1)],
            3, 1, false)
  }

  ghost function OverwriteStep(k: nat): Step
    requires k < 18
  {
    [Schedule(Callback, -1), Take(1, 0), Check(1), Yield(1, Holding), SwapOut(1), Decrement(1), Look(1),
     Schedule(Resume(0), -1), Take(2, 0), Check(2), Test(2), SwitchIn(2), WriteHolding(1), Schedule(Resume(0), -1),
     Take(1, 0), Check(1), Test(1), SwitchIn(1)][k]
  }

  lemma OverwriteMoves(k: nat)
    requires k < 18
    ensures Moves(Overwrite(k), OverwriteStep(k), Overwrite(k + 1))
  {
    hide Next, Enabled, Overwrite;
    if k == 0 {
      OverwriteStarts();
    } else if k == 1 {
      OverwriteTakes();
    } else if k == 2 {
      OverwriteRuns();
    } else if k == 3 {
      OverwriteYields();
    } else if k == 4 {
      OverwriteSwapsOut();
    } else if k == 5 {
      OverwriteLeaves();
    } else if k == 6 {
      OverwriteLooks();
    } else if k == 7 {
      OverwriteWakes();
    } else if k == 8 {
      OverwriteTakesAgain();
    } else if k == 9 {
      OverwriteIsLive();
    } else if k == 10 {
      OverwriteEnters();
    } else if k == 11 {
      OverwriteRunsAgain();
    } else if k == 12 {
      OverwriteWrites();
    } else if k == 13 {
      OverwriteWakesAgain();
    } else if k == 14 {
      OverwriteTakesThird();
    } else if k == 15 {
      OverwriteIsLiveThird();
    } else if k == 16 {
      OverwriteEntersThird();
    } else {
      OverwriteRunsTwice();
    }
  }

  lemma OverwriteStarts()
    ensures Moves(Overwrite(0), Schedule(Callback, -1), Overwrite(1))
  {}

  lemma OverwriteTakes()
    ensures Moves(Overwrite(1), Take(1, 0), Overwrite(2))
  {}

  lemma OverwriteRuns()
    ensures Moves(Overwrite(2), Check(1), Overwrite(3))
  {}

  lemma OverwriteYields()
    ensures Moves(Overwrite(3), Yield(1, Holding), Overwrite(4))
  {}

  lemma OverwriteSwapsOut()
    ensures Moves(Overwrite(4), SwapOut(1), Overwrite(5))
  {}

  lemma OverwriteLeaves()
    ensures Moves(Overwrite(5), Decrement(1), Overwrite(6))
  {}

  lemma OverwriteLooks()
    ensures Moves(Overwrite(6), Look(1), Overwrite(7))
  {}

  lemma OverwriteWakes()
    ensures Moves(Overwrite(7), Schedule(Resume(0), -1), Overwrite(8))
  {}

  lemma OverwriteTakesAgain()
    ensures Moves(Overwrite(8), Take(2, 0), Overwrite(9))
  {}

  lemma OverwriteIsLive()
    ensures Moves(Overwrite(9), Check(2), Overwrite(10))
  {}

  lemma OverwriteEnters()
    ensures Moves(Overwrite(10), Test(2), Overwrite(11))
  {}

  lemma OverwriteRunsAgain()
    ensures Moves(Overwrite(11), SwitchIn(2), Overwrite(12))
  {}

  lemma OverwriteWrites()
    ensures Moves(Overwrite(12), WriteHolding(1), Overwrite(13))
  {}

  lemma OverwriteWakesAgain()
    ensures Moves(Overwrite(13), Schedule(Resume(0), -1), Overwrite(14))
  {}

  lemma OverwriteTakesThird()
    ensures Moves(Overwrite(14), Take(1, 0), Overwrite(15))
  {}

  lemma OverwriteIsLiveThird()
    ensures Moves(Overwrite(15), Check(1), Overwrite(16))
  {}

  lemma OverwriteEntersThird()
    ensures Moves(Overwrite(16), Test(1), Overwrite(17))
  {}

  lemma OverwriteRunsTwice()
    ensures Moves(Overwrite(17), SwitchIn(1), Overwrite(18))
  {}

  lemma OverwriteEnds()
    ensures Initial(Overwrite(0)) && Doubled(Overwrite(18), 0)
  {
    assert At(Overwrite(0), 1);
    assert Holds(Overwrite(18), 1, 0) && Holds(Overwrite(18), 2, 0);
  }

  lemma OverwriteSwitches()
    ensures forall k: nat, w :: k < 18 && OverwriteStep(k).Test? && w in Overwrite(k).workers ==>
      !Overwrite(k).workers[w].Yielded?
  {
    assert forall k: nat :: k < 18 && OverwriteStep(k).Test? ==> k == 10 || k == 16;
  }

  /** Two workers take the two entries of a fiber, and both make the test before either
      writes its state. */
  lemma BothEnter() returns (states: seq<State>, steps: seq<Step>)
    ensures IsRun(states, steps) && Doubled(states[|steps|], 0)
  {
    hide Next, Enabled, Tie, TieStep, Doubled;
    states := seq(11, k requires 0 <= k < 11 => Tie(k));
    steps := seq(10, k requires 0 <= k < 10 => TieStep(k));
    forall k | 0 <= k < 10
      ensures Enabled(states[k], steps[k]) && states[k + 1] == Next(states[k], steps[k])
    {
      TieMoves(k);
    }
    TieEnds();
  }

  /** The states of that run. */
  ghost function Tie(k: nat): State {
    if k == 0 then
      State([], map[0 := Holding], map[1 := Scan, 2 := Scan], {}, 0, false, map[], 0, 1, false)
    else if k == 1 then
      State([Entry(Resume(0), -1, 0)], map[0 := Holding], map[1 := Scan, 2 := Scan], {}, 0, false, map[], 1, 1, false)
    else if k == 2 then
      State([Entry(Resume(0), -1, 0), Entry(Resume(0), -1, 1)], map[0 := Holding], map[1 := Scan, 2 := Scan], {}, 0,
            false, map[], 2, 1, false)
    else if k == 3 then
      State([Entry(Resume(0), -1, 1)], map[0 := Holding], map[1 := Taken(Resume(0)), 2 := Scan], {}, 1, false,
            map[0 := Taking(Entry(Resume(0), -1, 0), 1)], 2, 1, false)
    else if k == 4 then
      State([], map[0 := Holding], map[1 := Taken(Resume(0)), 2 := Taken(Resume(0))], {}, 2, false,
            map[0 := Taking(Entry(Resume(0), -1, 0), 1), 1 := Taking(Entry(Resume(0), -1, 1), 2)], 2, 1, false)
    else if k == 5 then
      State([], map[0 := Holding], map[1 := Live(0), 2 := Taken(Resume(0))], {}, 2, false,
            map[0 := Taking(Entry(Resume(0), -1, 0), 1), 1 := Taking(Entry(Resume(0), -1, 1), 2)], 2, 1, false)
    else if k == 6 then
      State([], map[0 := Holding], map[1 := Live(0), 2 := Live(0)], {}, 2, false,
            map[0 := Taking(Entry(Resume(0), -1, 0), 1), 1 := Taking(Entry(Resume(0), -1, 1), 2)], 2, 1, false)
    else if k == 7 then
      State([], map[0 := Holding], map[1 := Entering(0), 2 := Live(0)], {}, 2, false,
            map[0 := Taking(Entry(Resume(0), -1, 0), 1), 1 := Taking(Entry(Resume(0), -1, 1), 2)], 2, 1, false)
    else if k == 8 then
      State([], map[0 := Holding], map[1 := Entering(0), 2 := Entering(0)], {}, 2, false,
            map[0 := Taking(Entry(Resume(0), -1, 0), 1), 1 := Taking(Entry(Resume(0), -1, 1), 2)], 2, 1, false)
    else if k == 9 then
      State([], map[0 := Execute], map[1 := Running(0), 2 := Entering(0)], {}, 2, false,
            map[0 := Taking(Entry(Resume(0), -1, 0), 1), 1 := Taking(Entry(Resume(0), -1, 1), 2)], 2, 1, false)
    else
      State([], map[0 := Execute], map[1 := Running(0), 2 := Running(0)], {}, 2, false,
            map[0 := Taking(Entry(Resume(0), -1, 0), 1), 1 := Taking(Entry(Resume(0), -1, 1), 2)], 2, 1, false)
  }

  ghost function TieStep(k: nat): Step
    requires k < 10
  {
    [Schedule(Resume(0), -1), Schedule(Resume(0), -1), Take(1, 0), Take(2, 0), Check(1), Check(2), Test(1), Test(2),
     SwitchIn(1), SwitchIn(2)][k]
  }

  lemma TieMoves(k: nat)
    requires k < 10
    ensures Moves(Tie(k), TieStep(k), Tie(k + 1))
  {
    hide Next, Enabled, Tie;
    if k == 0 {
      TieWakes();
    } else if k == 1 {
      TieWakesAgain();
    } else if k == 2 {
      TieTakes();
    } else if k == 3 {
      TieTakesAgain();
    } else if k == 4 {
      TieIsLive();
    } else if k == 5 {
      TieIsLiveAgain();
    } else if k == 6 {
      TieEnters();
    } else if k == 7 {
      TieEntersAgain();
    } else if k == 8 {
      TieRuns();
    } else {
      TieRunsTwice();
    }
  }

  lemma TieWakes()
    ensures Moves(Tie(0), Schedule(Resume(0), -1), Tie(1))
  {}

  lemma TieWakesAgain()
    ensures Moves(Tie(1), Schedule(Resume(0), -1), Tie(2))
  {}

  lemma TieTakes()
    ensures Moves(Tie(2), Take(1, 0), Tie(3))
  {}

  lemma TieTakesAgain()
    ensures Moves(Tie(3), Take(2, 0), Tie(4))
  {}

  lemma TieIsLive()
    ensures Moves(Tie(4), Check(1), Tie(5))
  {}

  lemma TieIsLiveAgain()
    ensures Moves(Tie(5), Check(2), Tie(6))
  {}

  lemma TieEnters()
    ensures Moves(Tie(6), Test(1), Tie(7))
  {}

  lemma TieEntersAgain()
    ensures Moves(Tie(7), Test(2), Tie(8))
  {}

  lemma TieRuns()
    ensures Moves(Tie(8), SwitchIn(1), Tie(9))
  {}

  lemma TieRunsTwice()
    ensures Moves(Tie(9), SwitchIn(2), Tie(10))
  {}

  lemma TieEnds()
    ensures Initial(Tie(0)) && Doubled(Tie(10), 0)
  {
    assert At(Tie(0), 1);
    assert Holds(Tie(10), 1, 0) && Holds(Tie(10), 2, 0);
  }

  /** A concrete run into a dead pin without any scheduling from outside after the stop: one
      worker leaves while the other is about to requeue a ready fiber, and that fiber then
      pins a callback to the first. */
  lemma RequeuedFiberBlocksStop() returns (states: seq<State>, steps: seq<Step>)
    ensures IsRun(states, steps) && DeadPin(states[|steps|], 2)
    ensures forall i :: 0 <= i < |steps| && steps[i].Schedule? ==> !states[i].stopping
    ensures 2 in states[|steps|].workers && !states[|steps|].workers[2].Exited? && 2 !in states[|steps|].idleOver
  {
    hide Next, Enabled, Blocked, BlockedStep;
    BlockedSchedules();
    states := seq(18, k requires 0 <= k < 18 => Blocked(k));
    steps := seq(17, k requires 0 <= k < 17 => BlockedStep(k));
    forall k | 0 <= k < 17
      ensures Enabled(states[k], steps[k]) && states[k + 1] == Next(states[k], steps[k])
    {
      BlockedMoves(k);
    }
    BlockedEnds();
  }

  /** The states of that run. */
  ghost function Blocked(k: nat): State {
    if k == 0 then
      State([], map[], map[1 := Scan, 2 := Scan], {}, 0, false, map[], 0, 0, false)
    else if k == 1 then
      State([Entry(Callback, -1, 0)], map[], map[1 := Scan, 2 := Scan], {}, 0, false, map[], 1, 0, false)
    else if k == 2 then
      State([], map[], map[1 := Scan, 2 := Taken(Callback)], {}, 1, false,
            map[0 := Taking(Entry(Callback, -1, 0), 2)], 1, 0, false)
    else if k == 3 then
      State([], map[0 := Execute], map[1 := Scan, 2 := Running(0)], {}, 1, false,
            map[0 := Taking(Entry(Callback, -1, 0), 2)], 1, 1, false)
    else if k == 4 then
      State([], map[0 := Ready], map[1 := Scan, 2 := Yielded(0)], {}, 1, false,
            map[0 := Taking(Entry(Callback, -1, 0), 2)], 1, 1, false)
    else if k == 5 then
      State([], map[0 := Ready], map[1 := Scan, 2 := Back(0)], {}, 1, false,
            map[0 := Taking(Entry(Callback, -1, 0), 2)], 1, 1, false)
    else if k == 6 then
      State([], map[0 := Ready], map[1 := Scan, 2 := Settle(0)], {}, 0, false,
            map[0 := Taking(Entry(Callback, -1, 0), 2)], 1, 1, false)
    else if k == 7 then
      State([], map[0 := Ready], map[1 := Scan, 2 := Requeue(0)], {}, 0, false,
            map[0 := Taking(Entry(Callback, -1, 0), 2)], 1, 1, false)
    else if k == 8 then
      State([], map[0 := Ready], map[1 := Scan, 2 := Requeue(0)], {}, 0, true,
            map[0 := Taking(Entry(Callback, -1, 0), 2)], 1, 1, false)
    else if k == 9 then
      State([], map[0 := Ready], map[1 := Idle, 2 := Requeue(0)], {}, 0, true,
            map[0 := Taking(Entry(Callback, -1, 0), 2)], 1, 1, false)
    else if k == 10 then
      State([], map[0 := Ready], map[1 := Scan, 2 := Requeue(0)], {1}, 0, true,
            map[0 := Taking(Entry(Callback, -1, 0), 2)], 1, 1, false)
    else if k == 11 then
      State([], map[0 := Ready], map[1 := Exited, 2 := Requeue(0)], {1}, 0, true,
            map[0 := Taking(Entry(Callback, -1, 0), 2)], 1, 1, false)
    else if k == 12 then
      State([Entry(Resume(0), -1, 1)], map[0 := Ready], map[1 := Exited, 2 := Scan], {1}, 0, true,
            map[0 := Taking(Entry(Callback, -1, 0), 2)], 2, 1, false)
    else if k == 13 then
      State([], map[0 := Ready], map[1 := Exited, 2 := Taken(Resume(0))], {1}, 1, true,
            map[0 := Taking(Entry(Callback, -1, 0), 2), 1 := Taking(Entry(Resume(0), -1, 1), 2)], 2, 1, false)
    else if k == 14 then
      State([], map[0 := Ready], map[1 := Exited, 2 := Live(0)], {1}, 1, true,
            map[0 := Taking(Entry(Callback, -1, 0), 2), 1 := Taking(Entry(Resume(0), -1, 1), 2)], 2, 1, false)
    else if k == 15 then
      State([], map[0 := Ready], map[1 := Exited, 2 := Entering(0)], {1}, 1, true,
            map[0 := Taking(Entry(Callback, -1, 0), 2), 1 := Taking(Entry(Resume(0), -1, 1), 2)], 2, 1, false)
    else if k == 16 then
      State([], map[0 := Execute], map[1 := Exited, 2 := Running(0)], {1}, 1, true,
            map[0 := Taking(Entry(Callback, -1, 0), 2), 1 := Taking(Entry(Resume(0), -1, 1), 2)], 2, 1, false)
    else
      State([Entry(Callback, 1, 2)], map[0 := Execute], map[1 := Exited, 2 := Running(0)], {1}, 1, true,
            map[0 := Taking(Entry(Callback, -1, 0), 2), 1 := Taking(Entry(Resume(0), -1, 1), 2)], 3, 1, false)
  }

  ghost function BlockedStep(k: nat): Step
    requires k < 17
  {
    [Schedule(Callback, -1), Take(2, 0), Check(2), Yield(2, Ready), SwapOut(2), Decrement(2), Look(2), Stop,
     NoTask(1), TestStopping(1), NoTask(1), RequeueReady(2), Take(2, 0), Check(2), Test(2), SwitchIn(2),
     ScheduleBy(2, Callback, 1)][k]
  }

  lemma BlockedMoves(k: nat)
    requires k < 17
    ensures Moves(Blocked(k), BlockedStep(k), Blocked(k + 1))
  {
    hide Next, Enabled, Blocked;
    if k == 0 {
      BlockedIsScheduled();
    } else if k == 1 {
      BlockedIsTaken();
    } else if k == 2 {
      BlockedIsRun();
    } else if k == 3 {
      BlockedYields();
    } else if k == 4 {
      BlockedSwapsOut();
    } else if k == 5 {
      BlockedLeaves();
    } else if k == 6 {
      BlockedIsReady();
    } else if k == 7 {
      BlockedStops();
    } else if k == 8 {
      BlockedIdles();
    } else if k == 9 {
      BlockedMayGo();
    } else if k == 10 {
      BlockedGoes();
    } else if k == 11 {
      BlockedIsQueued();
    } else if k == 12 {
      BlockedIsTakenAgain();
    } else if k == 13 {
      BlockedIsLive();
    } else if k == 14 {
      BlockedEnters();
    } else if k == 15 {
      BlockedIsRunAgain();
    } else {
      BlockedPins();
    }
  }

  lemma BlockedIsScheduled()
    ensures Moves(Blocked(0), Schedule(Callback, -1), Blocked(1))
  {}

  lemma BlockedIsTaken()
    ensures Moves(Blocked(1), Take(2, 0), Blocked(2))
  {}

  lemma BlockedIsRun()
    ensures Moves(Blocked(2), Check(2), Blocked(3))
  {}

  lemma BlockedYields()
    ensures Moves(Blocked(3), Yield(2, Ready), Blocked(4))
  {}

  lemma BlockedSwapsOut()
    ensures Moves(Blocked(4), SwapOut(2), Blocked(5))
  {}

  lemma BlockedLeaves()
    ensures Moves(Blocked(5), Decrement(2), Blocked(6))
  {}

  lemma BlockedIsReady()
    ensures Moves(Blocked(6), Look(2), Blocked(7))
  {}

  lemma BlockedStops()
    ensures Moves(Blocked(7), Stop, Blocked(8))
  {}

  lemma BlockedIdles()
    ensures Moves(Blocked(8), NoTask(1), Blocked(9))
  {}

  lemma BlockedMayGo()
    ensures Moves(Blocked(9), TestStopping(1), Blocked(10))
  {}

  lemma BlockedGoes()
    ensures Moves(Blocked(10), NoTask(1), Blocked(11))
  {}

  lemma BlockedIsQueued()
    ensures Moves(Blocked(11), RequeueReady(2), Blocked(12))
  {}

  lemma BlockedIsTakenAgain()
    ensures Moves(Blocked(12), Take(2, 0), Blocked(13))
  {}

  lemma BlockedIsLive()
    ensures Moves(Blocked(13), Check(2), Blocked(14))
  {}

  lemma BlockedEnters()
    ensures Moves(Blocked(14), Test(2), Blocked(15))
  {}

  lemma BlockedIsRunAgain()
    ensures Moves(Blocked(15), SwitchIn(2), Blocked(16))
  {}

  lemma BlockedPins()
    ensures Moves(Blocked(16), ScheduleBy(2, Callback, 1), Blocked(17))
  {}

  lemma BlockedSchedules()
    ensures forall k: nat :: k < 17 && BlockedStep(k).Schedule? ==> !Blocked(k).stopping
  {
    assert forall k: nat :: k < 17 && BlockedStep(k).Schedule? ==> k == 0;
  }

  lemma BlockedEnds()
    ensures Initial(Blocked(0)) && !Blocked(0).stopping
    ensures DeadPin(Blocked(17), 2) && 2 in Blocked(17).workers
    ensures !Blocked(17).workers[2].Exited? && 2 !in Blocked(17).idleOver
  {
    assert At(Blocked(0), 1);
    assert PinnedAway(Blocked(17), Blocked(17).queue[0]) && Blocked(17).queue[0].ticket == 2;
  }

  /** A callback scheduled from outside after the last worker has left stays queued. */
  lemma LateOutsiderStrands() returns (states: seq<State>, steps: seq<Step>)
    ensures IsRun(states, steps) && AllExited(states[|steps|])
    ensures |states[|steps|].queue| == 1 && states[|steps|].queue[0].thread == -1
  {
    hide Next, Enabled, Late;
    states := [Late(0), Late(1), Late(2), Late(3), Late(4), Late(5)];
    steps := [Stop, NoTask(1), TestStopping(1), NoTask(1), Schedule(Callback, -1)];
    LateStarts();
    LateIdles();
    LateLeaves();
  }

  /** The states of that run. */
  ghost function Late(k: nat): State {
    var s := State([], map[], map[1 := Scan], {}, 0, k > 0, map[], 0, 0, false);
    if k <= 1 then s
    else if k == 2 then s.(workers := map[1 := Idle])
    else if k == 3 then s.(idleOver := {1})
    else
      var left := s.(idleOver := {1}, workers := map[1 := Exited]);
      if k == 4 then left else Push(left, Callback, -1)
  }

  lemma LateStarts()
    ensures Initial(Late(0)) && Moves(Late(0), Stop, Late(1)) && Moves(Late(1), NoTask(1), Late(2))
  {
    assert At(Late(0), 1);
    assert Late(1).workers[1 := Idle] == Late(2).workers;
  }

  lemma LateIdles()
    ensures Moves(Late(2), TestStopping(1), Late(3)) && Moves(Late(3), NoTask(1), Late(4))
  {
    assert Late(2).workers[1 := Scan] == Late(3).workers && Late(3).workers[1 := Exited] == Late(4).workers;
  }

  lemma LateLeaves()
    ensures Moves(Late(4), Schedule(Callback, -1), Late(5)) && AllExited(Late(5))
    ensures |Late(5).queue| == 1 && Late(5).queue[0].thread == -1
  {}
}
