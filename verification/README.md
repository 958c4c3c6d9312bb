# DinoGame state machine in Dafny

A model of the game logic of DinoGame v0.01, a one-button "dinosaur" runner
for an ATmega32 driving a 16×2 character LCD. An obstacle scrolls along the
lower row towards the avatar. A button press raises the avatar for at most
three ticks. The run ends when the obstacle reaches the avatar's column while
the avatar rests. The best score is kept in one EEPROM word.

The model covers the tick-driven state machine in `main`:

- the obstacle phase `i` (here `phase`);
- the score and tick count `j` (`score`);
- the airborne-tick counter `l` (`airTicks`);
- the raised flag `k` (`raised`);
- the game-over flag `o` (`over`);
- the best score `Bestscore` (`best`).

It also covers the pure helpers the loop uses: `max`, the choice of the tick
delay, and the three-digit rendering of the score and of the best score.

Files:

- `helpers.dfy`, module `Helpers`: `Max`, `TickDelay`, `ScoreText`, `BestText`
  and the digit predicates they are specified with.
- `game.dfy`, module `Game`: the `RunState` value and the specification
  functions `Arbitrate`, `Step` (one pass of the inner loop), `Run` (the inner
  loop over a list of button samples) and `GameOverStep` (the game-over
  block). It also holds the class `GameState`, whose fields are the variables
  of `main`. Its methods `Tick`, `Play` and `GameOver` update those fields in
  place and are proved to follow the functions.
- `properties.dfy`, module `GameProperties`: lemmas over many ticks and many
  game overs. They cover the run invariant, where a run can end, the jump
  cap, the idle and late-jump scenarios, restart, and the history of the
  stored best score.

The model follows the code as written, including three behaviours that may
not be what the author meant:

- The delay chain tests `score > 100` first. Only two delays ever occur: 10 ms
  up to score 100 and 9 ms after it. The 8, 7 and 5 ms branches are
  unreachable, so there is no five-step speed-up at 300, 500 and 900.
- The colliding tick does not increment the score. Fourteen idle ticks
  therefore crash with score 13, and the best score written is
  `max(12, stored)`, not `max(13, stored)`. The value 12 is the last score the
  display showed, because the score line is drawn before the increment.
- If the button is not pressed at the game-over check, nothing is reset. The
  next pass re-enters the inner loop at the collision phase with the same
  score and the game-over flag still set. Without a press that tick crashes
  again at once.

Button reads (`PINA & (1<<PA3)` and `PINA & (1<<PB3)`, both bit 3) are a
boolean parameter `pressed`. The word read from the EEPROM is a parameter
`stored`, and the word written back is a result. The character handed to
`lcd_putc` for `'0' + x` is modelled as the 8-bit truncation
`(48 + x) % 256`.

## Model

| member | source | states |
|---|---|---|
| Helpers.Max | DinoGamev0.01/main.c:62-70 | the result is at least `a` and at least `b`, equals one of them, and is `a` when `a >= b` |
| Helpers.TickDelay | DinoGamev0.01/main.c:171-190 | the delay is 9 exactly when score > 100 and 10 exactly when score <= 100; no other value occurs, so the 8/7/5 branches are dead |
| Helpers.ScoreText | DinoGamev0.01/main.c:192-215 | below 1000 the line is "Hi " followed by exactly three decimal digit characters whose value is the score; from 1000 on nothing is printed |
| Helpers.BestText | DinoGamev0.01/main.c:234-237 | three characters; below 1000 they are decimal digits whose value is the best score; for 1000..25599 the first character is not a digit |
| Helpers.BestTextMatchesScoreText | DinoGamev0.01/main.c:235-237 | below 1000 the best-score digits are exactly the digits the score line shows for the same value, despite the different formulas |
| Game.Arbitrate | DinoGamev0.01/main.c:144-161 | raised iff pressed and fewer than 3 airborne ticks used; a raised tick adds exactly 1; a rest tick clears the counter only at 3 and otherwise keeps it; the counter stays within [0, 3] |
| Game.Step | DinoGamev0.01/main.c:136-218 | crash iff the avatar rests and phase mod 16 is 13 (a raised avatar at 13 survives); a crash sets the flag and changes neither phase nor score; a surviving tick adds 1 to phase and score and yields the delay and score line of the old score; the run invariant is preserved |
| Game.Run | DinoGamev0.01/main.c:136-219 | the loop runs one tick per sample until a crash; it never runs more ticks than samples; without a crash it consumes them all |
| Game.RunStopsAtCrash | DinoGamev0.01/main.c:164-168 | after the breaking tick, later samples change nothing |
| Game.NewBest | DinoGamev0.01/main.c:232 | the new best is at least the stored word and at least score - 1, and equals one of them |
| Game.GameOverStep | DinoGamev0.01/main.c:232-251 | the best written is `max(score - 1, stored)` and is rendered with `BestText`; restart iff pressed and the game-over flag is set; a restart yields the power-on state, otherwise the run variables are unchanged |
| Game.GameState.constructor | DinoGamev0.01/main.c:128-133 | all variables start at 0 and the run invariant holds |
| Game.GameState.Tick | DinoGamev0.01/main.c:138-217 | the fields after the in-place updates and the returned outcome are exactly `Step` of the old fields; `best` is untouched and the invariant is kept |
| Game.GameState.Play | DinoGamev0.01/main.c:136-219 | the loop's final fields, tick count and crash flag are exactly `Run` of the old fields over the samples |
| Game.GameState.GameOver | DinoGamev0.01/main.c:232-251 | the word written, the digits shown, the restart decision and the new fields are exactly `GameOverStep` of the old fields; `best` holds the word written |
| GameProperties.RunKeepsInv | DinoGamev0.01/main.c:139-217 | over any run the airborne counter stays within [0, 3], a raised avatar has used at least one tick, and phase and score stay equal modulo 16 |
| GameProperties.RunScore | DinoGamev0.01/main.c:216-217 | the score grows by one per tick except the colliding one, so it never decreases within a run |
| GameProperties.RunCrashesAtCollision | DinoGamev0.01/main.c:164-168 | a run that ends has the obstacle at phase 13, the avatar at rest and the game-over flag set |
| GameProperties.FreshRunPhase | DinoGamev0.01/main.c:139-217 | from power-on, after n surviving ticks the score is n and the phase is n mod 16 |
| GameProperties.IdleRun | DinoGamev0.01/main.c:139-217 | from power-on, n <= 13 idle ticks survive and leave phase = score = n |
| GameProperties.IdleCrash | DinoGamev0.01/main.c:164-233 | fourteen idle ticks crash on the fourteenth with score 13, and the best written is `max(12, stored)` |
| GameProperties.LateJump | DinoGamev0.01/main.c:144-168 | pressing from tick 12 raises the avatar on ticks 12-14, clears phase 13 in the air, rests on tick 15 and jumps again on tick 16 without crashing |
| GameProperties.HoldFromRest | DinoGamev0.01/main.c:144-161 | holding the button from rest gives exactly three raised ticks, then a rest tick that resets the counter to 0 |
| GameProperties.NoFourRaisedTicks | DinoGamev0.01/main.c:144-150 | whatever the button does, the avatar is never raised on four consecutive ticks |
| GameProperties.EarlyReleaseKeepsAirTicks | DinoGamev0.01/main.c:151-161 | releasing below the cap keeps the used airtime: rest ticks leave the counter unchanged |
| GameProperties.CrashThenPressRestarts | DinoGamev0.01/main.c:240-246 | after any crash a press restarts from the power-on state, whatever the run reached |
| GameProperties.CrashWithoutPressResumes | DinoGamev0.01/main.c:240-252 | without a press nothing is reset, and an unpressed next tick crashes again at once with the same score |
| GameProperties.SpeedUpAfterHundred | DinoGamev0.01/main.c:171-190 | a tick with score 100 still waits 10 ms; the tick with score 101 waits 9 ms |
| GameProperties.BestAfterIsGameOver | DinoGamev0.01/main.c:232-233 | the best after one more game over is what the game-over block writes from the previously stored best |
| GameProperties.BestAfterMonotone | DinoGamev0.01/main.c:232-233 | further game overs never lower the stored best |
| GameProperties.BestAfterIsMaximum | DinoGamev0.01/main.c:232-233 | the stored best is at least the initial word and every final score minus one, and equals one of them |

## Left out

- LCD output: custom glyph upload, the obstacle and avatar drawing, screen clearing, cursor moves, the "DinoGame!!" banner and the "GAMEOVER" animation. This is device I/O through an `lcd.h` driver that is not part of this model. Only the score line and the best-score digits are modelled, as strings.
- The `_delay_ms` busy-waits: only the chosen tick delay is modelled, not the waiting.
- Register-level button reads: each read is a boolean parameter.
- EEPROM access: the read is a parameter, the write a result. The conversion of the unsigned 16-bit word to a signed `int` and the 0xFFFF of a never-written EEPROM are not modelled.
- 16-bit `int` overflow of the score and the phase: integers are unbounded.
- The endless outer `while(1)`: `GameState.Play` runs the inner loop over a finite list of button samples, and a caller alternates `Play` and `GameOver`. Sequences of game overs are modelled by the best-score history function `BestAfter`.
- Helpers.BestText: the claim that a best score of 1000 or more is not shown as digits is stated only up to 25599. At 25600 the 8-bit truncation of `'0' + best / 100` wraps back to `'0'`.
