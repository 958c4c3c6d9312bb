/**
 Properties of the game state machine that span several ticks or several
 runs: the invariants a run keeps, where and when a run can end, the jump
 cap, the idle and late-jump scenarios, restart, and the history of the
 stored best score across game overs.
 */
module GameProperties {
  import opened Helpers
  import opened Game

  /** `n` ticks without the button pressed. */
  function Idle(n: nat): (xs: seq<bool>)
    ensures |xs| == n && forall t :: 0 <= t < n ==> !xs[t]
  {
    seq(n, _ => false)
  }

  /** `n` ticks with the button held down. */
  function Held(n: nat): (xs: seq<bool>)
    ensures |xs| == n && forall t :: 0 <= t < n ==> xs[t]
  {
    seq(n, _ => true)
  }

  /** Running one more tick is a step from where the shorter run stopped, unless it had crashed. */
  lemma RunSnoc(s: RunState, xs: seq<bool>, x: bool)
    ensures Run(s, xs + [x]) ==
      var before := Run(s, xs);
      if before.crashed then before
      else
        var st := Step(before.state, x);
        RunResult(st.state, before.ticks + 1, st.outcome.Crash?)
  {
    assert (xs + [x])[..|xs + [x]| - 1] == xs;
  }

  /** Every run keeps the jump cap and the phase/score coupling. */
  lemma {:induction false} RunKeepsInv(s: RunState, xs: seq<bool>)
    requires Inv(s)
    ensures Inv(Run(s, xs).state)
    decreases |xs|
  {
    if xs != [] {
      RunKeepsInv(s, xs[..|xs| - 1]);
    }
  }

  /**
   The score counts the surviving ticks: it grows by one per tick except the
   colliding one, so it never decreases within a run.
   */
  lemma {:induction false} RunScore(s: RunState, xs: seq<bool>)
    ensures var r := Run(s, xs);
      r.state.score == s.score + r.ticks - (if r.crashed then 1 else 0)
    decreases |xs|
  {
    if xs != [] {
      RunScore(s, xs[..|xs| - 1]);
    }
  }

  /**
   A run ends only on a tick where the avatar rests and the obstacle is at
   the collision phase, and it leaves the game-over flag set.
   */
  lemma {:induction false} RunCrashesAtCollision(s: RunState, xs: seq<bool>)
    requires Run(s, xs).crashed
    ensures var c := Run(s, xs).state;
      c.phase == COLLISION_PHASE && !c.raised && c.over
    decreases |xs|
  {
    var ys := xs[..|xs| - 1];
    if Run(s, ys).crashed {
      RunCrashesAtCollision(s, ys);
    }
  }

  /**
   Obstacle cycling: from power-on or a restart, after `n` surviving ticks
   the score is `n` and the obstacle phase is `n` modulo the lane width.
   */
  lemma FreshRunPhase(xs: seq<bool>)
    requires !Run(Initial(), xs).crashed
    ensures var c := Run(Initial(), xs).state;
      c.score == |xs| && c.phase % LANE_WIDTH == |xs| % LANE_WIDTH && c.airTicks <= MAX_AIR_TICKS
  {
    RunKeepsInv(Initial(), xs);
    RunScore(Initial(), xs);
  }

  lemma IdleStep(n: nat)
    requires 1 <= n <= COLLISION_PHASE
    ensures var st := Step(RunState(n - 1, n - 1, 0, false, false), false);
      st.state == RunState(n, n, 0, false, false) && st.outcome.Continue?
  {
  }

  /** Idle ticks from power-on advance the phase and the score together until the collision phase. */
  lemma {:induction false} IdleRun(n: nat)
    requires n <= COLLISION_PHASE
    ensures Run(Initial(), Idle(n)) == RunResult(RunState(n, n, 0, false, false), n, false)
  {
    if n > 0 {
      IdleRun(n - 1);
      IdleStep(n);
      RunSnoc(Initial(), Idle(n - 1), false);
      assert Idle(n) == Idle(n - 1) + [false];
    }
  }

  /**
   Without the button the run crashes on its fourteenth tick with score 13
   (the colliding tick does not count), and the best score written is then
   the larger of 12 and the stored word.
   */
  lemma IdleCrash(pressed: bool, stored: nat)
    ensures Run(Initial(), Idle(14)) == RunResult(RunState(13, 13, 0, false, true), 14, true)
    ensures GameOverStep(Run(Initial(), Idle(14)).state, pressed, stored).best == Max(12, stored)
  {
    IdleRun(13);
    assert Idle(14) == Idle(13) + [false];
    RunSnoc(Initial(), Idle(13), false);
  }

  /** A run that survived so far and whose next tick survives is one tick longer. */
  lemma RunExtend(s: RunState, xs: seq<bool>, x: bool, before: RunState, after: RunState)
    requires !Run(s, xs).crashed && Run(s, xs).state == before
    requires Step(before, x) == StepResult(after, Step(before, x).outcome)
    requires Step(before, x).outcome.Continue?
    ensures Run(s, xs + [x]) == RunResult(after, |xs| + 1, false)
  {
    RunSnoc(s, xs, x);
  }

  /** The five ticks of the late jump, one by one. */
  lemma LateJumpSteps()
    ensures Step(RunState(11, 11, 0, false, false), true).state == RunState(12, 12, 1, true, false)
    ensures Step(RunState(12, 12, 1, true, false), true).state == RunState(13, 13, 2, true, false)
    ensures Step(RunState(13, 13, 2, true, false), true).state == RunState(14, 14, 3, true, false)
    ensures Step(RunState(14, 14, 3, true, false), true).state == RunState(15, 15, 0, false, false)
    ensures Step(RunState(15, 15, 0, false, false), true).state == RunState(16, 16, 1, true, false)
    ensures Step(RunState(11, 11, 0, false, false), true).outcome.Continue?
    ensures Step(RunState(12, 12, 1, true, false), true).outcome.Continue?
    ensures Step(RunState(13, 13, 2, true, false), true).outcome.Continue?
    ensures Step(RunState(14, 14, 3, true, false), true).outcome.Continue?
    ensures Step(RunState(15, 15, 0, false, false), true).outcome.Continue?
  {
  }

  /**
   Pressing from the twelfth tick raises the avatar on ticks 12, 13 and 14;
   tick 14 finds the obstacle at the collision phase with the avatar raised,
   so the run survives; tick 15 rests and clears the counter, tick 16 jumps again.
   */
  lemma LateJump()
    ensures Run(Initial(), Idle(11) + Held(5)) == RunResult(RunState(16, 16, 1, true, false), 16, false)
  {
    var s := Initial();
    IdleRun(11);
    LateJumpSteps();
    var ys0 := Idle(11);
    var ys1 := ys0 + [true];
    var ys2 := ys1 + [true];
    var ys3 := ys2 + [true];
    var ys4 := ys3 + [true];
    var ys5 := ys4 + [true];
    RunExtend(s, ys0, true, RunState(11, 11, 0, false, false), RunState(12, 12, 1, true, false));
    RunExtend(s, ys1, true, RunState(12, 12, 1, true, false), RunState(13, 13, 2, true, false));
    RunExtend(s, ys2, true, RunState(13, 13, 2, true, false), RunState(14, 14, 3, true, false));
    RunExtend(s, ys3, true, RunState(14, 14, 3, true, false), RunState(15, 15, 0, false, false));
    RunExtend(s, ys4, true, RunState(15, 15, 0, false, false), RunState(16, 16, 1, true, false));
    LateJumpInputs(ys0);
  }

  lemma LateJumpInputs(xs: seq<bool>)
    ensures xs + [true] + [true] + [true] + [true] + [true] == xs + Held(5)
  {
    assert Held(5) == [true, true, true, true, true];
  }

  /**
   Jump cap: holding the button from rest raises the avatar for exactly three
   ticks; the fourth tick rests and clears the airborne counter.
   */
  lemma HoldFromRest(s: RunState)
    requires s.airTicks == 0
    ensures !Run(s, Held(3)).crashed
    ensures Run(s, Held(1)).state.raised && Run(s, Held(2)).state.raised && Run(s, Held(3)).state.raised
    ensures Run(s, Held(3)).state.airTicks == MAX_AIR_TICKS
    ensures !Run(s, Held(4)).state.raised && Run(s, Held(4)).state.airTicks == 0
  {
    assert Held(1) == [] + [true];
    assert Held(2) == Held(1) + [true];
    assert Held(3) == Held(2) + [true];
    assert Held(4) == Held(3) + [true];
    RunSnoc(s, [], true);
    RunSnoc(s, Held(1), true);
    RunSnoc(s, Held(2), true);
    RunSnoc(s, Held(3), true);
  }

  /** The avatar is never raised on four consecutive ticks, whatever the button does. */
  lemma NoFourRaisedTicks(s: RunState, a: bool, b: bool, c: bool, d: bool)
    requires Inv(s)
    ensures var s1 := Step(s, a).state;
      var s2 := Step(s1, b).state;
      var s3 := Step(s2, c).state;
      !(s1.raised && s2.raised && s3.raised && Step(s3, d).state.raised)
  {
  }

  /** Releasing the button early does not give back the airtime already used. */
  lemma {:induction false} EarlyReleaseKeepsAirTicks(s: RunState, xs: seq<bool>)
    requires s.airTicks < MAX_AIR_TICKS
    requires forall t :: 0 <= t < |xs| ==> !xs[t]
    ensures Run(s, xs).state.airTicks == s.airTicks
    ensures |xs| > 0 ==> !Run(s, xs).state.raised
    decreases |xs|
  {
    if xs != [] {
      EarlyReleaseKeepsAirTicks(s, xs[..|xs| - 1]);
    }
  }

  /**
   After a crash the game-over flag is set, so a press at the game-over
   check restarts from the power-on state whatever the run reached.
   */
  lemma {:induction false} CrashThenPressRestarts(s: RunState, xs: seq<bool>, stored: nat)
    requires Run(s, xs).crashed
    ensures var g := GameOverStep(Run(s, xs).state, true, stored);
      g.restarted && g.state == Initial()
  {
    RunCrashesAtCollision(s, xs);
  }

  /**
   Without a press at the game-over check nothing is reset: the next tick
   starts at the collision phase with the same score, so if the button is
   not pressed then either, the run crashes again at once with that score.
   */
  lemma CrashWithoutPressResumes(s: RunState, xs: seq<bool>, stored: nat)
    requires Run(s, xs).crashed
    ensures var c := Run(s, xs).state;
      var g := GameOverStep(c, false, stored);
      && !g.restarted && g.state == c
      && Step(g.state, false).outcome.Crash?
      && Step(g.state, false).state.score == c.score
  {
    RunCrashesAtCollision(s, xs);
    var c := Run(s, xs).state;
    assert c.phase % LANE_WIDTH == COLLISION_PHASE;
    assert GameOverStep(c, false, stored).state == c;
  }

  /** The speed changes on the tick after the score passes 100: score 100 still waits 10 ms, score 101 waits 9 ms. */
  lemma SpeedUpAfterHundred(s: RunState, pressed: bool)
    requires s.score == 100 || s.score == 101
    requires Step(s, pressed).outcome.Continue?
    ensures Step(s, pressed).outcome.delay == if s.score == 100 then 10 else 9
  {
  }

  /**
   The stored best score after a sequence of game overs whose scores at
   collision were `finals`, starting from the stored word `stored`: each game
   over reads the word the previous one wrote.
   */
  function BestAfter(stored: nat, finals: seq<nat>): nat
    decreases |finals|
  {
    if finals == [] then stored
    else NewBest(finals[|finals| - 1], BestAfter(stored, finals[..|finals| - 1]))
  }

  /** The best after each game over is what the game-over block writes from the previous best. */
  lemma BestAfterIsGameOver(stored: nat, finals: seq<nat>, s: RunState, pressed: bool)
    ensures BestAfter(stored, finals + [s.score])
      == GameOverStep(s, pressed, BestAfter(stored, finals)).best
  {
    assert (finals + [s.score])[..|finals|] == finals;
  }

  /** More game overs never lower the stored best. */
  lemma {:induction false} BestAfterMonotone(stored: nat, xs: seq<nat>, ys: seq<nat>)
    ensures BestAfter(stored, xs) <= BestAfter(stored, xs + ys)
    decreases |ys|
  {
    if ys == [] {
      assert xs + ys == xs;
    } else {
      var zs := ys[..|ys| - 1];
      assert (xs + ys)[..|xs + ys| - 1] == xs + zs;
      BestAfterMonotone(stored, xs, zs);
    }
  }

  /**
   The stored best is the maximum of the initial word and every final score
   less one: at least each of them, and equal to one of them.
   */
  lemma {:induction false} BestAfterIsMaximum(stored: nat, finals: seq<nat>)
    ensures BestAfter(stored, finals) >= stored
    ensures forall t :: 0 <= t < |finals| ==> BestAfter(stored, finals) >= finals[t] as int - 1
    ensures BestAfter(stored, finals) == stored
         || exists t :: 0 <= t < |finals| && BestAfter(stored, finals) == finals[t] as int - 1
    decreases |finals|
  {
    if finals != [] {
      var prefix := finals[..|finals| - 1];
      BestAfterIsMaximum(stored, prefix);
      var b := BestAfter(stored, finals);
      assert forall t :: 0 <= t < |prefix| ==> finals[t] == prefix[t];
      if b != stored && b != finals[|finals| - 1] as int - 1 {
        var t :| 0 <= t < |prefix| && BestAfter(stored, prefix) == prefix[t] as int - 1;
        assert b == finals[t] as int - 1;
      }
    }
  }
}
