# Colour squares game — a Dafny model of the game controller

The game is a single-screen browser game. A square falls from the top centre
of the canvas towards two target squares on the floor line. The player clicks
the target whose colour matches the falling square before it reaches the
floor. Every resolution is one attempt: a matching click, a wrong click, or a
miss when the square falls. A matching click also scores a point. After ten
attempts the game is over.

This project models the `ColorSquaresGame` controller of `static/js/game.js`
with the browser stripped away. The controller becomes a state record and pure
transition functions, and the Dafny files prove its invariants.

- `options.dfy` (`Options`): the optional value used for "no round yet".
- `config.dfy` (`Config`): the ten-colour palette and the three speed presets (20, 30, 40).
  It also defines how one uniform draw in [0, 1) selects a palette index: `floor(u * 10)`.
- `geometry.dfy` (`Geometry`): the canvas, the common square size `min(w/4, h/8)`,
  the target and falling-square positions, the closed-box hit-test, and the
  disjointness of the two target boxes.
- `rounds.dfy` (`Rounds`): round generation.
  - The rejection loop for the second colour is a function over a finite stream of draws.
  - The whole random part of a round is a `Dice` value: two distinct palette indices and the coin.
  - `NewRound` lays out the three squares.
- `game.dfy` (`Game`): the controller state and its transitions.
  - The transitions are `Init`, `SetSpeed`, `Start`, `Launch`, `Tick`, `Click`, `Choose` and `Miss`.
  - `Start` is the state change of the start handler. `Launch` is the whole handler: `Start` followed by the first frame-loop update, which runs before the handler returns.
  - `Inv` is the invariant. It has four parts:
    - the canvas is laid out (positive width and height);
    - `0 <= score <= attempts <= 10`;
    - a running game has fewer than 10 attempts and a falling square above the floor line;
    - every round on the board is well shaped.
  - `Init`, `Start`, `Launch`, `SetSpeed`, `Tick`, `Click` and `Choose` (from a running game) each have a lemma showing they keep `Inv`.
  - `Miss` has no lemma of its own. It is only reached from `Tick`, after the square has reached the floor line, so `TickInv` covers it.
- `session.dfy` (`Session`): sequences of events.
  - The invariant holds in every reachable state.
  - A round ends after a bounded number of ticks.
  - A worked session ends with 7 out of 10.
  - A lemma shows what goes wrong on a zero-width canvas.

Randomness is an input. A transition that may deal a new round takes the
`Dice` for that round. `Rounds.SampleDice` connects `Dice` to the source's
`Math.random` calls. It consumes a stream of draws in the source's order: the
first colour, then the redraws of the second colour, then the coin. It returns
`None` when the stream runs out before the round is complete.
`Rounds.SampleDiceReachesAll` shows that every `Dice` value comes from some stream.

The click handler is modelled as written. It iterates over the targets of the
round that was current when the click arrived, so the right target is still
tested against the old round. `handleChoice`, however, reads the current state,
so a choice made by the right target reads whatever state the left target's
choice left behind.

- On a canvas of positive width the targets are disjoint, so this order never matters. `Game.ClickResolvesAtMostOnce` proves this.
- On a zero-width canvas the square size is 0, so both target boxes collapse onto the single point (0, h). There, a single click resolves two choices and takes the attempt count from 9 to 11. `Session.ZeroWidthClickResolvesTwice` shows this. A browser cannot deliver a click to a zero-width canvas. For that reason the invariant assumes a laid-out canvas, and this case is not listed as a defect.

The code has no stop command and no configurable attempt limit: the limit is
the literal 10. Ending a game only clears the running flag and leaves the last
round on the board.

## Model

| member | source | states |
|---|---|---|
| Config.ColorsDistinct | static/js/game.js:7-11 | The palette has ten entries and no two of them are equal, so distinct indices give distinct colours |
| Config.RandomIndex | static/js/game.js:80-82 | A draw u in [0, 1) selects a valid palette index i with i <= 10u < i + 1 |
| Config.RandomIndexReachesAll | static/js/game.js:80-82 | Every palette index is selected by some draw in [0, 1) |
| Config.Pace | static/js/game.js:12-17 | Every speed preset lies between 20 and 40 pixels-per-tick units |
| Config.PaceOrdered | static/js/game.js:12-17 | The presets are strictly ordered: slow < medium < fast |
| Config.Step | static/js/game.js:146 | A tick moves the falling square down by a strictly positive distance, a tenth of the preset |
| Geometry.SquareSize | static/js/game.js:37 | The square size is at most a quarter of the width and an eighth of the height, and equals one of them |
| Geometry.FloorY | static/js/game.js:94 | On a laid-out canvas the floor line is below the top edge, and a target on it fits inside the canvas |
| Geometry.LeftX | static/js/game.js:93 | On a canvas of positive width the left target lies wholly inside the left half, clear of the left edge |
| Geometry.RightX | static/js/game.js:98 | On a canvas of positive width the right target lies wholly inside the right half, clear of the right edge |
| Geometry.CenterX | static/js/game.js:105 | The falling square's column lies in the gap between the two targets |
| Geometry.Contains | static/js/game.js:161-162 | A point hits a square exactly when it is within half a side of the square's centre on both axes, edges included |
| Geometry.TargetsDisjoint | static/js/game.js:93-98 | On a canvas of positive width no point lies in both target boxes |
| Rounds.RejectSample | static/js/game.js:85-89 | The redraw loop accepts the first draw whose index differs from the first colour, with every earlier draw repeating it; it has no result exactly when every draw repeats the first colour |
| Rounds.SampleDice | static/js/game.js:84-108 | The first draw gives the left colour. Any result has two distinct palette indices. There is no result exactly when the stream ends before the redraw loop accepts a colour, or before the coin draw |
| Rounds.SampleDiceOrder | static/js/game.js:84-108 | The second colour is the one the redraw loop accepts. The falling square takes the left colour exactly when the draw after it is below one half |
| Rounds.SampleDiceReachesAll | static/js/game.js:84-108 | Every pair of distinct colours with either coin outcome is produced by some stream of three draws |
| Rounds.NewRound | static/js/game.js:84-109 | A new round is well shaped: targets are distinct palette colours at a quarter and three quarters of the width on the floor line, and the falling square is centred at y = 0; it takes the left colour exactly when the coin says so |
| Rounds.FallingMatchesExactlyOne | static/js/game.js:91-108 | In a well-shaped round the falling colour equals exactly one target colour |
| Game.Init | static/js/game.js:5-22 | On page load score and attempts are 0, the game is not running, there is no round, and the speed is slow |
| Game.SetSpeed | static/js/game.js:68-74 | Selecting a preset sets the tick step to a tenth of that preset's pace and changes nothing else |
| Game.Start | static/js/game.js:201-205 | The start handler's state change zeroes score and attempts, makes the game run, and deals the round the dice give, which is well shaped with the square at the top |
| Game.Launch | static/js/game.js:201-222 | The whole start handler includes the loop's first update. The score is 0. If the canvas has room for one step, nothing has been counted yet, the game runs, and the dice's round is on the board with its falling square, coloured by the coin, one step below the top. Otherwise that first step is already a miss: one attempt, and a fresh round |
| Game.Conclude | static/js/game.js:179-183 | After a resolution, 10 or more attempts end the game and keep the board; otherwise a new round is dealt |
| Game.Miss | static/js/game.js:186-195 | A miss adds exactly one attempt and no point. At the limit it ends the game and keeps the board; otherwise it deals a new round. Canvas and speed are unchanged |
| Game.Choose | static/js/game.js:168-184 | A choice adds exactly one attempt, and one point if and only if the chosen colour is the falling colour. At the limit it ends the game and keeps the board; otherwise it deals a new round. Canvas and speed are unchanged |
| Game.Tick | static/js/game.js:143-151 | A tick without a running game or a falling square changes nothing. Otherwise the square moves down by exactly one step, the speed preset's pace times 0.1. Its colour and x, the targets, the counters, speed and canvas stay the same. If it reaches the floor line, the tick resolves a miss: one more attempt and no point. At the limit the moved square stays on the board; otherwise a new round is dealt |
| Game.Click | static/js/game.js:153-166 | A click is ignored when the game is not running or there is no falling square; a click outside both target boxes changes nothing |
| Game.InitInv | static/js/game.js:2-27 | The page-load state satisfies the invariant |
| Game.StartInv | static/js/game.js:201-205 | Starting from any state on a laid-out canvas establishes the invariant |
| Game.LaunchInv | static/js/game.js:201-222 | The whole start handler, including its first update, establishes the invariant on a laid-out canvas |
| Game.SetSpeedInv | static/js/game.js:68-74 | Changing speed keeps the invariant |
| Game.TickInv | static/js/game.js:143-151 | A tick keeps the invariant, including 0 <= score <= attempts <= 10 |
| Game.ChooseInv | static/js/game.js:168-184 | A choice made while running keeps the invariant |
| Game.ClickResolvesAtMostOnce | static/js/game.js:153-166 | In a running game a click that hits a target is exactly that target's choice, and a click changes attempts by 0 or 1 |
| Game.ClickInv | static/js/game.js:153-166 | A click keeps the invariant |
| Session.ApplyInv | static/js/game.js:143-205 | Every kind of event keeps the invariant |
| Session.RunInv | static/js/game.js:143-205 | After any sequence of starts, ticks, clicks and speed changes the invariant holds, so 0 <= score <= attempts <= 10 |
| Session.TicksMonotone | static/js/game.js:143-151 | Ticks never decrease the attempt count |
| Session.TicksResolve | static/js/game.js:143-151 | Once enough ticks have passed to cover the distance left to the floor line, a running round has been resolved |
| Session.ClickLeftOnSample | static/js/game.js:160-163 | On a 400 x 800 canvas, a click at (100, 700) in a running game is the choice of the left target |
| Session.ClickLeftStep | static/js/game.js:153-184 | On that canvas such a click adds one attempt and keeps the invariant. It scores exactly when the left colour matches the falling colour. It deals the dice's round below the limit and ends the game at it |
| Session.SevenOfTen | static/js/game.js:168-184 | Seven matching clicks followed by three wrong ones give 7 out of 10 and end the game |
| Session.ZeroWidthClickResolvesTwice | static/js/game.js:153-184 | On a zero-width canvas one click at the targets' common point resolves both targets and takes attempts from 9 to 11 |

## Left out

- `static/js/audio.js`: a wrapper over a tone-synthesis library with no logic of its own.
- DOM and canvas plumbing: element lookup, event wiring, start-button visibility, the score text, `draw`, and sizing the canvas from its container. The canvas size is an input.
- Click coordinates are taken in canvas space. The translation through the element's bounding rectangle is left out.
- `endGame`'s delayed alert and start-button display: these are host timing and UI. Only the running flag is cleared.
- `gameLoop`'s frame-callback chain: this is host scheduling. It is never cancelled, and each start adds another chain. Only the chain's first update, which runs inside the start handler, is part of `Launch`. Every later frame is a separate `Tick` event, and several ticks in one frame are several `Tick` events.
- `Math.random` is replaced by explicit draws. The rejection loop's termination with probability one is not modelled; a finite stream that runs out gives `None`.
- Floating-point rounding: positions and steps are exact reals.
- Window resize during a round is not modelled: it changes the square size without moving the current round's squares. The canvas is fixed for a whole session.
- `setSpeed` with a name other than the three presets is not modelled: the game only calls it with those three.
