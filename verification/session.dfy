/** Whole sessions: the controller driven by a sequence of user and frame
    events, the invariant across every reachable state, the bound on how
    long a round can last, and two worked sessions. */
module Session {

  import opened Options
  import opened Config
  import opened Geometry
  import opened Rounds
  import opened Game

  /** One input to the controller, carrying the random choices of any round
      it may deal. */
  datatype Event =
    | Started(d: Dice, afterMiss: Dice)
    | Ticked(d: Dice)
    | Clicked(x: real, y: real, d0: Dice, d1: Dice)
    | SpeedSelected(sp: Speed)

  function Apply(g: State, e: Event): State {
    match e
    case Started(d, afterMiss) => Launch(g, d, afterMiss)
    case Ticked(d) => Tick(g, d)
    case Clicked(x, y, d0, d1) => Click(g, x, y, d0, d1)
    case SpeedSelected(sp) => SetSpeed(g, sp)
  }

  /** The state after the events, applied in order. */
  function Run(g: State, es: seq<Event>): State
    decreases |es|
  {
    if |es| == 0 then g else Run(Apply(g, es[0]), es[1..])
  }

  lemma ApplyInv(g: State, e: Event)
    requires Inv(g)
    ensures Inv(Apply(g, e))
  {
    match e
    case Started(d, afterMiss) => LaunchInv(g, d, afterMiss);
    case Ticked(d) => TickInv(g, d);
    case Clicked(x, y, d0, d1) => ClickInv(g, x, y, d0, d1);
    case SpeedSelected(sp) => SetSpeedInv(g, sp);
  }

  /** Every state reachable from page load satisfies the invariant; in
      particular 0 <= score <= attempts <= 10 always holds. */
  lemma {:induction false} RunInv(g: State, es: seq<Event>)
    requires Inv(g)
    ensures Inv(Run(g, es))
    ensures Run(g, es).score <= Run(g, es).attempts <= MaxAttempts
    decreases |es|
  {
    if |es| > 0 {
      ApplyInv(g, es[0]);
      RunInv(Apply(g, es[0]), es[1..]);
    }
  }

  /** Ticks only: the frame loop running with no clicks. */
  function Ticks(g: State, ds: seq<Dice>): State
    decreases |ds|
  {
    if |ds| == 0 then g else Ticks(Tick(g, ds[0]), ds[1..])
  }

  /** Ticks never decrease the attempt count. */
  lemma {:induction false} TicksMonotone(g: State, ds: seq<Dice>)
    ensures Ticks(g, ds).attempts >= g.attempts
    decreases |ds|
  {
    if |ds| > 0 {
      TicksMonotone(Tick(g, ds[0]), ds[1..]);
    }
  }

  /** A round cannot last forever: once the ticks add up to the distance
      left to the floor line, an attempt has been resolved. */
  lemma {:induction false} TicksResolve(g: State, ds: seq<Dice>)
    requires Inv(g) && g.active
    requires |ds| as real * Step(g.speed) >= FloorY(g.canvas) - g.round.value.falling.y
    ensures Ticks(g, ds).attempts > g.attempts
    decreases |ds|
  {
    var y := g.round.value.falling.y;
    var step := Step(g.speed);
    assert |ds| > 0 by {
      if |ds| == 0 { assert y < FloorY(g.canvas); }
    }
    var g1 := Tick(g, ds[0]);
    if y + step >= FloorY(g.canvas) {
      TicksMonotone(g1, ds[1..]);
    } else {
      TickInv(g, ds[0]);
      assert g1.round.value.falling.y == y + step;
      assert |ds[1..]| as real * step == |ds| as real * step - step;
      TicksResolve(g1, ds[1..]);
    }
  }

  /** A click inside the left target of a running game on a 400 x 800
      canvas (squares of side 100, left target spanning x in [50, 150] and
      y in [650, 750]) is the choice of the left target. */
  lemma ClickLeftOnSample(g: State, d: Dice)
    requires Inv(g) && g.active && g.canvas == Canvas(400.0, 800.0)
    ensures Click(g, 100.0, 700.0, d, d) == Choose(g, Left, d)
  {
    ClickResolvesAtMostOnce(g, 100.0, 700.0, d, d);
  }

  /** One such click as a session event: the invariant holds after it, one
      attempt is added, the point is scored exactly when the left target
      matches, and the next round is the one the dice deal. */
  lemma ClickLeftStep(g: State, d: Dice)
    requires Inv(g) && g.active && g.canvas == Canvas(400.0, 800.0)
    ensures var g' := Apply(g, Clicked(100.0, 700.0, d, d));
            && Inv(g') && g'.canvas == g.canvas && g'.attempts == g.attempts + 1
            && (g'.score == g.score + 1 <==> g.round.value.left.color == g.round.value.falling.color)
            && (g'.score == g.score || g'.score == g.score + 1)
            && (g'.attempts < MaxAttempts ==> g'.active && g'.round == Some(NewRound(g.canvas, d)))
            && (g'.attempts >= MaxAttempts ==> !g'.active)
  {
    ClickLeftOnSample(g, d);
    ClickInv(g, 100.0, 700.0, d, d);
  }

  /** A session whose every click hits the left target, with the falling
      square matching it on the first seven rounds and not on the last
      three, ends with 7 out of 10 and the game over. */
  lemma SevenOfTen()
    ensures var hit: Dice := Roll(0, 1, true);
            var wrong: Dice := Roll(2, 3, false);
            var g := Run(Init(Canvas(400.0, 800.0)),
                         [Started(hit, hit)] + seq(6, _ => Clicked(100.0, 700.0, hit, hit))
                                        + seq(4, _ => Clicked(100.0, 700.0, wrong, wrong)));
            g.score == 7 && g.attempts == 10 && !g.active
  {
    var c := Canvas(400.0, 800.0);
    var hit: Dice := Roll(0, 1, true);
    var wrong: Dice := Roll(2, 3, false);
    var es := [Started(hit, hit)] + seq(6, _ => Clicked(100.0, 700.0, hit, hit))
                             + seq(4, _ => Clicked(100.0, 700.0, wrong, wrong));
    var g := Launch(Init(c), hit, hit);
    LaunchInv(Init(c), hit, hit);
    assert Step(Slow) < FloorY(c);
    assert g.round.value.left == NewRound(c, hit).left;
    assert Run(Init(c), es) == Run(g, es[1..]);
    var k := 1;
    while k < |es|
      invariant 1 <= k <= |es|
      invariant Run(Init(c), es) == Run(g, es[k..])
      invariant Inv(g) && g.canvas == c
      invariant k <= 7 ==> g.active && g.score == k - 1 && g.attempts == k - 1
                           && g.round.value.falling.color == g.round.value.left.color
      invariant 7 < k ==> g.score == 7 && g.attempts == k - 1
      invariant 7 < k < |es| ==> g.active && g.round.value.falling.color != g.round.value.left.color
      invariant k == |es| ==> !g.active
      decreases |es| - k
    {
      var d := if k <= 6 then hit else wrong;
      assert es[k] == Clicked(100.0, 700.0, d, d);
      assert es[k..][1..] == es[k + 1..];
      ClickLeftStep(g, d);
      g := Apply(g, es[k]);
      k := k + 1;
    }
  }

  /** Why the invariant asks for a laid-out canvas: on a canvas of zero
      width both targets shrink to the same point, one click there
      resolves two choices, and a game at its ninth attempt ends with
      eleven. */
  lemma ZeroWidthClickResolvesTwice(h: real, r: Round, d0: Dice, d1: Dice)
    requires h > 0.0 && WellShaped(Canvas(0.0, h), r)
    ensures var g := State(Canvas(0.0, h), 0, 9, true, Slow, Some(r));
            var g' := Click(g, 0.0, FloorY(Canvas(0.0, h)), d0, d1);
            g'.attempts == 11 && g'.attempts > MaxAttempts && !g'.active
  {
    var c := Canvas(0.0, h);
    var g := State(c, 0, 9, true, Slow, Some(r));
    assert SquareSize(c) == 0.0;
    assert Contains(r.left, 0.0, 0.0, FloorY(c)) && Contains(r.right, 0.0, 0.0, FloorY(c));
    var g1 := Choose(g, Left, d0);
    assert g1.attempts == 10 && !g1.active && g1.round == g.round;
    assert Click(g, 0.0, FloorY(c), d0, d1) == Choose(g1, Right, d1);
  }

}
