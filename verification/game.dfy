/** The game controller as a state machine: start, one tick of the frame
    loop, a click on the canvas, and a speed change. Each transition is a
    pure function from the old state (and the round's random choices) to
    the new one. */
module Game {

  import opened Options
  import opened Config
  import opened Geometry
  import opened Rounds

  /** Number of resolved attempts after which a game is over. */
  const MaxAttempts: nat := 10

  /** The controller's state: the canvas it lays out on, the counters, whether
      a game is running, the selected speed and the current round (none
      before the first start). */
  datatype State = State(
    canvas: Canvas,
    score: nat,
    attempts: nat,
    active: bool,
    speed: Speed,
    round: Option<Round>)

  /** The state on page load: nothing counted, not running, slow speed. */
  function Init(c: Canvas): (g: State)
    ensures g.score == 0 && g.attempts == 0 && !g.active && g.round.None?
    ensures g.speed == Slow && g.canvas == c
  {
    State(c, 0, 0, false, Slow, None)
  }

  /** Selecting a speed preset changes the step of later ticks and nothing else. */
  function SetSpeed(g: State, sp: Speed): (g': State)
    ensures Step(g'.speed) == Pace(sp) as real / 10.0
    ensures g'.score == g.score && g'.attempts == g.attempts && g'.active == g.active
    ensures g'.round == g.round && g'.canvas == g.canvas
  {
    g.(speed := sp)
  }

  /** Starting a game zeroes the counters, makes the game run and deals a
      fresh round. */
  function Start(g: State, d: Dice): (g': State)
    ensures g'.score == 0 && g'.attempts == 0 && g'.active
    ensures g'.round == Some(NewRound(g.canvas, d))
    ensures g'.round.Some? && WellShaped(g.canvas, g'.round.value) && g'.round.value.falling.y == 0.0
    ensures g'.canvas == g.canvas && g'.speed == g.speed
  {
    g.(score := 0, attempts := 0, active := true, round := Some(NewRound(g.canvas, d)))
  }

  /** The whole start handler: `Start`, then the frame loop's first update,
      which runs before the handler returns. On a canvas tall enough for one
      step the square is one step below the top edge and nothing has been
      counted. `afterMiss` deals the next round only if that first step
      already misses. */
  function Launch(g: State, d: Dice, afterMiss: Dice): (g': State)
    ensures g'.score == 0 && g'.canvas == g.canvas && g'.speed == g.speed
    ensures Step(g.speed) < FloorY(g.canvas) ==>
              g'.attempts == 0 && g'.active && g'.round.Some?
              && g'.round.value.falling.y == Step(g.speed)
              && g'.round.value.falling == NewRound(g.canvas, d).falling.(y := Step(g.speed))
              && g'.round.value.left == NewRound(g.canvas, d).left
              && g'.round.value.right == NewRound(g.canvas, d).right
    ensures Step(g.speed) >= FloorY(g.canvas) ==>
              g'.attempts == 1 && g'.active && g'.round == Some(NewRound(g.canvas, afterMiss))
  {
    Tick(Start(g, d), afterMiss)
  }

  /** What follows every resolution, once the attempt has been counted:
      the game ends at the limit, otherwise a new round is dealt. Ending
      keeps the last round in place. */
  function Conclude(g: State, d: Dice): (g': State)
    ensures g'.score == g.score && g'.attempts == g.attempts
    ensures g.attempts >= MaxAttempts ==> !g'.active && g'.round == g.round
    ensures g.attempts < MaxAttempts ==> g'.active == g.active && g'.round == Some(NewRound(g.canvas, d))
    ensures g'.canvas == g.canvas && g'.speed == g.speed
  {
    if g.attempts >= MaxAttempts then g.(active := false)
    else g.(round := Some(NewRound(g.canvas, d)))
  }

  /** The falling square reached the floor: one more attempt, no point. */
  function Miss(g: State, d: Dice): (g': State)
    ensures g'.attempts == g.attempts + 1 && g'.score == g.score
    ensures g'.attempts >= MaxAttempts ==> !g'.active
    ensures g'.attempts >= MaxAttempts ==> g'.round == g.round
    ensures g'.attempts < MaxAttempts ==> g'.active == g.active && g'.round == Some(NewRound(g.canvas, d))
    ensures g'.canvas == g.canvas && g'.speed == g.speed
  {
    Conclude(g.(attempts := g.attempts + 1), d)
  }

  /** The player picked a target: one more attempt, and one more point
      exactly when the target's colour is the falling colour. */
  function Choose(g: State, side: Side, d: Dice): (g': State)
    requires g.round.Some?
    ensures g'.attempts == g.attempts + 1
    ensures g'.score == g.score + 1 <==> Target(g.round.value, side).color == g.round.value.falling.color
    ensures g'.score == g.score || g'.score == g.score + 1
    ensures g'.attempts >= MaxAttempts ==> !g'.active
    ensures g'.attempts >= MaxAttempts ==> g'.round == g.round
    ensures g'.attempts < MaxAttempts ==> g'.active == g.active && g'.round == Some(NewRound(g.canvas, d))
    ensures g'.canvas == g.canvas && g'.speed == g.speed
  {
    var r := g.round.value;
    var score := if Target(r, side).color == r.falling.color then g.score + 1 else g.score;
    Conclude(g.(score := score, attempts := g.attempts + 1), d)
  }

  /** One tick of the frame loop. Without a running game or a falling square
      nothing happens. Otherwise the square moves down by one step; if it
      has reached the floor line the round is resolved as a miss. The dice
      are used only when a miss deals the next round. */
  function Tick(g: State, d: Dice): (g': State)
    ensures g'.canvas == g.canvas && g'.speed == g.speed
    ensures !g.active || g.round.None? ==> g' == g
    ensures g.active && g.round.Some? ==>
      var r := g.round.value;
      var y := r.falling.y + Step(g.speed);
      if y >= FloorY(g.canvas) then
        g'.attempts == g.attempts + 1 && g'.score == g.score
        && (g'.attempts >= MaxAttempts ==>
              !g'.active && g'.round.Some?
              && g'.round.value.left == r.left && g'.round.value.right == r.right
              && g'.round.value.falling == Square(r.falling.x, y, r.falling.color))
        && (g'.attempts < MaxAttempts ==> g'.active && g'.round == Some(NewRound(g.canvas, d)))
      else
        g'.attempts == g.attempts && g'.score == g.score && g'.active && g'.round.Some?
        && g'.round.value.left == r.left && g'.round.value.right == r.right
        && g'.round.value.falling.x == r.falling.x && g'.round.value.falling.color == r.falling.color
        && g'.round.value.falling.y == r.falling.y + Step(g.speed) > r.falling.y
  {
    if !g.active || g.round.None? then g
    else
      var r := g.round.value;
      var moved := r.(falling := r.falling.(y := r.falling.y + Step(g.speed)));
      var g1 := g.(round := Some(moved));
      if moved.falling.y >= FloorY(g.canvas) then Miss(g1, d) else g1
  }

  /** A click at canvas point (px, py). Ignored without a running game or a
      falling square. Otherwise each target of the current round, left then
      right, is hit-tested against the point, and each one hit resolves a
      choice; the second test still uses the round that was current when
      the click arrived, while its choice reads the state the first choice
      left behind. `d0` and `d1` are the random choices for the round a
      choice may deal. */
  function Click(g: State, px: real, py: real, d0: Dice, d1: Dice): (g': State)
    ensures !g.active || g.round.None? ==> g' == g
    ensures (g.round.Some? && !Contains(g.round.value.left, SquareSize(g.canvas), px, py)
             && !Contains(g.round.value.right, SquareSize(g.canvas), px, py)) ==> g' == g
  {
    if !g.active || g.round.None? then g
    else
      var r := g.round.value;
      var size := SquareSize(g.canvas);
      var g1 := if Contains(r.left, size, px, py) then Choose(g, Left, d0) else g;
      if Contains(r.right, size, px, py) then Choose(g1, Right, d1) else g1
  }

  /** The state-machine invariant: a laid-out canvas, 0 <= score <= attempts
      <= 10, a running game has attempts left and a falling square above the
      floor line, and any round on the board is well shaped. */
  ghost predicate Inv(g: State) {
    && g.canvas.Valid()
    && g.score <= g.attempts <= MaxAttempts
    && (g.active ==> g.attempts < MaxAttempts && g.round.Some?
                     && g.round.value.falling.y < FloorY(g.canvas))
    && (g.round.Some? ==> WellShaped(g.canvas, g.round.value))
  }

  lemma InitInv(c: Canvas)
    requires c.Valid()
    ensures Inv(Init(c))
  {
  }

  lemma StartInv(g: State, d: Dice)
    requires g.canvas.Valid()
    ensures Inv(Start(g, d))
  {
  }

  lemma LaunchInv(g: State, d: Dice, afterMiss: Dice)
    requires g.canvas.Valid()
    ensures Inv(Launch(g, d, afterMiss))
  {
    StartInv(g, d);
    TickInv(Start(g, d), afterMiss);
  }

  lemma SetSpeedInv(g: State, sp: Speed)
    requires Inv(g)
    ensures Inv(SetSpeed(g, sp))
  {
  }

  /** A tick keeps the invariant: a miss at the tenth attempt ends the game,
      any other miss deals a round whose square is back at the top. */
  lemma TickInv(g: State, d: Dice)
    requires Inv(g)
    ensures Inv(Tick(g, d))
  {
  }

  /** A choice made while the game runs keeps the invariant. */
  lemma ChooseInv(g: State, side: Side, d: Dice)
    requires Inv(g) && g.active
    ensures Inv(Choose(g, side, d))
  {
  }

  /** On a laid-out canvas a click resolves at most one choice: it is either
      ignored or it is exactly the choice of the one target it hits. */
  lemma ClickResolvesAtMostOnce(g: State, px: real, py: real, d0: Dice, d1: Dice)
    requires Inv(g) && g.active
    ensures var r := g.round.value;
            var size := SquareSize(g.canvas);
            var g' := Click(g, px, py, d0, d1);
            && (Contains(r.left, size, px, py) ==> g' == Choose(g, Left, d0))
            && (Contains(r.right, size, px, py) ==> g' == Choose(g, Right, d1))
            && (g' == g || g'.attempts == g.attempts + 1)
  {
    var r := g.round.value;
    TargetsDisjoint(g.canvas, r.left, r.right, px, py);
  }

  /** A click keeps the invariant. */
  lemma ClickInv(g: State, px: real, py: real, d0: Dice, d1: Dice)
    requires Inv(g)
    ensures Inv(Click(g, px, py, d0, d1))
  {
    if g.active && g.round.Some? {
      var r := g.round.value;
      var size := SquareSize(g.canvas);
      ClickResolvesAtMostOnce(g, px, py, d0, d1);
      if Contains(r.left, size, px, py) {
        ChooseInv(g, Left, d0);
      } else if Contains(r.right, size, px, py) {
        ChooseInv(g, Right, d1);
      }
    }
  }

}
