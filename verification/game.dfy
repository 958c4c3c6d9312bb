/**
 The game state machine of the dinosaur game: one tick of the inner loop,
 the inner loop itself (ticks until the obstacle hits the avatar), and the
 game-over block that updates the stored best score and restarts the run
 when the button is pressed.

 The specification functions (Step, Run, GameOverStep) work on RunState
 values; the class GameState holds the same variables as mutable fields and
 its methods are proved to follow those functions.
 */
module Game {
  import opened Helpers

  /** The avatar's column on the lower display row; the obstacle enters at column 15. */
  const AVATAR_COLUMN := 2
  const LANE_END := 15
  /** The obstacle phase at which the obstacle is drawn in the avatar's column. */
  const COLLISION_PHASE := LANE_END - AVATAR_COLUMN
  /** Number of consecutive ticks the avatar may stay raised. */
  const MAX_AIR_TICKS := 3
  const LANE_WIDTH := 16

  /**
   The variables of one run: the obstacle phase `i`, the score `j` (also the
   number of surviving ticks), the airborne-tick counter `l`, whether the
   avatar is raised this tick (`k`) and the game-over flag (`o`).
   */
  datatype RunState = RunState(phase: nat, score: nat, airTicks: nat, raised: bool, over: bool)

  /** What a tick of the inner loop produces: the delay and score line of a surviving tick, or a crash. */
  datatype TickOutcome = Continue(delay: int, scoreText: string) | Crash

  datatype StepResult = StepResult(state: RunState, outcome: TickOutcome)

  /** The state reached after some ticks of a run, how many ticks ran and whether the last one crashed. */
  datatype RunResult = RunResult(state: RunState, ticks: nat, crashed: bool)

  datatype GameOverResult = GameOverResult(state: RunState, best: nat, bestText: string, restarted: bool)

  /** The state at power-on and after a restart. */
  function Initial(): RunState
  {
    RunState(0, 0, 0, false, false)
  }

  /**
   What holds of the run variables at the top of every tick: the airborne
   counter is within its cap, a raised avatar has used at least one airborne
   tick, and the phase and the score advance together modulo the lane width.
   */
  ghost predicate Inv(s: RunState)
  {
    && s.airTicks <= MAX_AIR_TICKS
    && (s.raised ==> s.airTicks >= 1)
    && s.phase <= LANE_WIDTH
    && s.phase % LANE_WIDTH == s.score % LANE_WIDTH
  }

  /**
   Jump arbitration: the avatar is raised when the button is pressed and
   fewer than three airborne ticks have been used; otherwise it rests and
   the counter is cleared only once it has reached the cap.
   */
  function Arbitrate(pressed: bool, airTicks: nat): (r: (bool, nat))
    ensures r.0 <==> pressed && airTicks < MAX_AIR_TICKS
    ensures r.0 ==> r.1 == airTicks + 1
    ensures !r.0 && airTicks != MAX_AIR_TICKS ==> r.1 == airTicks
    ensures !r.0 && airTicks == MAX_AIR_TICKS ==> r.1 == 0
    ensures airTicks <= MAX_AIR_TICKS ==> r.1 <= MAX_AIR_TICKS
  {
    if pressed && airTicks < MAX_AIR_TICKS then (true, airTicks + 1)
    else if airTicks == MAX_AIR_TICKS then (false, 0)
    else (false, airTicks)
  }

  /** Advancing the reduced phase and the score by one keeps them equal modulo the lane width. */
  lemma LaneStep(phase: nat, score: nat)
    ensures phase % LANE_WIDTH == score % LANE_WIDTH ==>
      (phase % LANE_WIDTH + 1) % LANE_WIDTH == (score + 1) % LANE_WIDTH
  {
  }

  /**
   One pass of the inner loop: reduce the phase, arbitrate the jump, detect
   the collision, and on a surviving tick choose the delay, render the score
   and advance the phase and the score.
   */
  function Step(s: RunState, pressed: bool): (r: StepResult)
    ensures r.state.raised <==> pressed && s.airTicks < MAX_AIR_TICKS
    ensures r.state.airTicks == Arbitrate(pressed, s.airTicks).1
    ensures r.outcome.Crash? <==> !r.state.raised && s.phase % LANE_WIDTH == COLLISION_PHASE
    ensures r.outcome.Crash? ==>
      r.state.over && r.state.score == s.score && r.state.phase == COLLISION_PHASE
    ensures r.outcome.Continue? ==>
      && r.state.score == s.score + 1
      && r.state.phase == s.phase % LANE_WIDTH + 1
      && r.state.over == s.over
      && r.outcome.delay == TickDelay(s.score)
      && r.outcome.scoreText == ScoreText(s.score)
    ensures Inv(s) ==> Inv(r.state)
  {
    var phase := s.phase % LANE_WIDTH;
    LaneStep(s.phase, s.score);
    var (raised, airTicks) := Arbitrate(pressed, s.airTicks);
    if !raised && phase == COLLISION_PHASE then
      StepResult(RunState(phase, s.score, airTicks, false, true), Crash)
    else
      StepResult(RunState(phase + 1, s.score + 1, airTicks, raised, s.over),
                 Continue(TickDelay(s.score), ScoreText(s.score)))
  }

  /**
   The inner loop fed with one button sample per tick: ticks run until a
   crash ends the loop or the samples run out.
   */
  function Run(s: RunState, inputs: seq<bool>): (r: RunResult)
    ensures r.ticks <= |inputs|
    ensures !r.crashed ==> r.ticks == |inputs|
    ensures r.crashed ==> r.ticks >= 1
    decreases |inputs|
  {
    if inputs == [] then RunResult(s, 0, false)
    else
      var before := Run(s, inputs[..|inputs| - 1]);
      if before.crashed then before
      else
        var st := Step(before.state, inputs[|inputs| - 1]);
        RunResult(st.state, before.ticks + 1, st.outcome.Crash?)
  }

  /** Once a run has crashed, further button samples change nothing. */
  lemma {:induction false} RunStopsAtCrash(s: RunState, xs: seq<bool>, ys: seq<bool>)
    requires Run(s, xs).crashed
    ensures Run(s, xs + ys) == Run(s, xs)
    decreases |ys|
  {
    if ys == [] {
      assert xs + ys == xs;
    } else {
      var zs := ys[..|ys| - 1];
      assert (xs + ys)[..|xs + ys| - 1] == xs + zs;
      RunStopsAtCrash(s, xs, zs);
      assert Run(s, xs + ys) == Run(s, xs + zs);
    }
  }

  /** The best score after a game over: the score less one, or the stored best if that is higher. */
  function NewBest(score: int, stored: nat): (best: nat)
    ensures best >= stored && best >= score - 1
    ensures best == stored || best == score - 1
  {
    Max(score - 1, stored)
  }

  /**
   The game-over block: compute and write back the best score, render it,
   and restart only when the button is pressed while the game-over flag is
   set; otherwise the run variables stay as they are.
   */
  function GameOverStep(s: RunState, pressed: bool, stored: nat): (r: GameOverResult)
    ensures r.best == NewBest(s.score, stored)
    ensures r.bestText == BestText(r.best)
    ensures r.restarted <==> pressed && s.over
    ensures r.restarted ==> r.state == Initial()
    ensures !r.restarted ==> r.state == s
    ensures Inv(s) ==> Inv(r.state)
  {
    var best := NewBest(s.score, stored);
    var restarted := pressed && s.over;
    GameOverResult(if restarted then Initial() else s, best, BestText(best), restarted)
  }

  /** The game's mutable variables, updated in place tick by tick. */
  class GameState {
    var phase: nat      // i
    var score: nat      // j
    var raised: bool    // k
    var airTicks: nat   // l
    var over: bool      // o
    var best: nat       // Bestscore

    function State(): RunState
      reads this
    {
      RunState(phase, score, airTicks, raised, over)
    }

    ghost predicate Valid()
      reads this
    {
      Inv(State())
    }

    constructor ()
      ensures Valid() && State() == Initial() && best == 0
    {
      phase, score, raised, airTicks, over, best := 0, 0, false, 0, false, 0;
    }

    /** One pass of the inner loop with the button sample `pressed`. */
    method Tick(pressed: bool) returns (outcome: TickOutcome)
      requires Valid()
      modifies this
      ensures Valid() && best == old(best)
      ensures StepResult(State(), outcome) == Step(old(State()), pressed)
    {
      ghost var expected := Step(State(), pressed);
      phase := phase % LANE_WIDTH;
      if pressed && airTicks < MAX_AIR_TICKS {
        raised := true;
        airTicks := airTicks + 1;
      } else {
        raised := false;
        if airTicks == MAX_AIR_TICKS {
          airTicks := 0;
        }
      }
      assert airTicks == expected.state.airTicks && raised == expected.state.raised;
      if !raised && phase == COLLISION_PHASE {
        over := true;
        outcome := Crash;
        assert State() == expected.state;
        return;
      }
      var delay := TickDelay(score);
      var text := ScoreText(score);
      phase := phase + 1;
      score := score + 1;
      outcome := Continue(delay, text);
      assert State() == expected.state;
    }

    /**
     The inner loop: one tick per button sample, left on the first crash.
     Returns the number of ticks run and whether the run ended in a crash.
     */
    method Play(inputs: seq<bool>) returns (ticks: nat, crashed: bool)
      requires Valid()
      modifies this
      ensures Valid() && best == old(best)
      ensures Run(old(State()), inputs) == RunResult(State(), ticks, crashed)
    {
      ghost var start := State();
      ticks, crashed := 0, false;
      while ticks < |inputs| && !crashed
        invariant Valid() && best == old(best)
        invariant ticks <= |inputs|
        invariant Run(start, inputs[..ticks]) == RunResult(State(), ticks, crashed)
      {
        assert inputs[..ticks + 1][..ticks] == inputs[..ticks];
        var outcome := Tick(inputs[ticks]);
        ticks := ticks + 1;
        crashed := outcome.Crash?;
      }
      if crashed {
        RunStopsAtCrash(start, inputs[..ticks], inputs[ticks..]);
        assert inputs[..ticks] + inputs[ticks..] == inputs;
      } else {
        assert inputs[..ticks] == inputs;
      }
    }

    /**
     The game-over block, given the word read from the EEPROM. Returns the
     word written back, the three characters shown for it and whether the
     run restarted.
     */
    method GameOver(pressed: bool, stored: nat) returns (written: nat, shown: string, restarted: bool)
      requires Valid()
      modifies this
      ensures Valid() && best == written
      ensures GameOverStep(old(State()), pressed, stored)
              == GameOverResult(State(), written, shown, restarted)
    {
      best := Max(score - 1, stored);
      written := best;
      shown := BestText(best);
      restarted := pressed && over;
      if restarted {
        phase, score, raised, airTicks, over := 0, 0, false, 0, false;
      }
    }
  }
}
