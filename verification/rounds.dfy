/** Round generation: two distinct target colours drawn from the palette by
    rejection sampling, a coin that picks the falling colour among them, and
    the placement of the three squares. */
module Rounds {

  import opened Options
  import opened Config
  import opened Geometry

  /** The outcome of the random choices of one round, as palette indices:
      the left target's colour, the right target's colour (never the same
      index as the left one) and whether the falling square takes the left
      target's colour. */
  datatype Roll = Roll(first: nat, second: nat, fallFirst: bool)

  type Dice = r: Roll | r.first < |Colors| && r.second < |Colors| && r.first != r.second
    witness Roll(0, 1, true)

  /** Every draw of a random stream lies in [0, 1). */
  predicate UnitDraws(us: seq<real>) {
    forall k :: 0 <= k < |us| ==> 0.0 <= us[k] < 1.0
  }

  /** The loop that redraws the second colour until it differs from the first.
      Returns the accepted index and the draws left over, or None when the
      stream runs out while every draw still repeats the first colour. */
  function RejectSample(first: nat, us: seq<real>): (r: Option<(nat, seq<real>)>)
    requires UnitDraws(us)
    ensures r.Some? ==> r.value.0 < |Colors| && r.value.0 != first
    ensures r.Some? ==> exists k :: 0 <= k < |us| && RandomIndex(us[k]) == r.value.0 && r.value.1 == us[k + 1..]
                          && forall j :: 0 <= j < k ==> RandomIndex(us[j]) == first
    ensures r.None? <==> forall k :: 0 <= k < |us| ==> RandomIndex(us[k]) == first
  {
    if |us| == 0 then None
    else
      var c := RandomIndex(us[0]);
      if c != first then Some((c, us[1..]))
      else
        var rest := RejectSample(first, us[1..]);
        if rest.Some? then
          ghost var k' :| 0 <= k' < |us[1..]| && RandomIndex(us[1..][k']) == rest.value.0 && rest.value.1 == us[1..][k' + 1..]
                          && forall j :: 0 <= j < k' ==> RandomIndex(us[1..][j]) == first;
          assert us[1..][k' + 1..] == us[k' + 2..];
          rest
        else
          rest
  }

  /** All random choices of one round, consumed from the stream in the
      order the round generator makes them: first colour, redraws of the
      second colour, then the coin (below one half picks the first colour).
      None when the stream is too short for the round to be completed. */
  function SampleDice(us: seq<real>): (r: Option<Dice>)
    requires UnitDraws(us)
    ensures r.Some? ==> |us| >= 3 && r.value.first == RandomIndex(us[0])
    ensures r.Some? ==> r.value.first != r.value.second
    ensures r.None? <==> (|us| == 0 || RejectSample(RandomIndex(us[0]), us[1..]).None?
                          || |RejectSample(RandomIndex(us[0]), us[1..]).value.1| == 0)
  {
    if |us| == 0 then None
    else
      var first := RandomIndex(us[0]);
      match RejectSample(first, us[1..])
      case None => None
      case Some((second, rest)) =>
        if |rest| == 0 then None
        else Some(Roll(first, second, rest[0] < 0.5))
  }

  /** The draws are consumed in the round generator's order: the second
      colour is the one the redraw loop accepts, and the coin is the draw
      right after it, picking the first colour when below one half. */
  lemma SampleDiceOrder(us: seq<real>)
    requires UnitDraws(us) && SampleDice(us).Some?
    ensures RejectSample(RandomIndex(us[0]), us[1..]).Some?
    ensures |RejectSample(RandomIndex(us[0]), us[1..]).value.1| > 0
    ensures SampleDice(us).value.second == RejectSample(RandomIndex(us[0]), us[1..]).value.0
    ensures SampleDice(us).value.fallFirst == (RejectSample(RandomIndex(us[0]), us[1..]).value.1[0] < 0.5)
  {
  }

  /** Every admissible outcome of a round's random choices is produced by
      some stream of three draws. */
  lemma SampleDiceReachesAll(d: Dice)
    ensures exists us :: UnitDraws(us) && |us| == 3 && SampleDice(us) == Some(d)
  {
    RandomIndexReachesAll(d.first);
    RandomIndexReachesAll(d.second);
    var u0 := (d.first as real + 0.5) / |Colors| as real;
    var u1 := (d.second as real + 0.5) / |Colors| as real;
    var u2 := if d.fallFirst then 0.25 else 0.75;
    var us := [u0, u1, u2];
    assert us[1..] == [u1, u2];
    assert RejectSample(d.first, [u1, u2]) == Some((d.second, [u2]));
    assert SampleDice(us) == Some(d);
  }

  /** The three squares of a round. `left` and `right` are the targets in
      their hit-test order. */
  datatype Round = Round(falling: Square, left: Square, right: Square)

  datatype Side = Left | Right

  function Target(r: Round, side: Side): Square {
    match side
    case Left => r.left
    case Right => r.right
  }

  /** What every round keeps from creation until it is replaced: targets at
      their fixed places with distinct palette colours, the falling square
      centred, at or below the top edge, with the colour of one target. */
  ghost predicate WellShaped(c: Canvas, r: Round) {
    && r.left.color in Colors && r.right.color in Colors
    && r.left.color != r.right.color
    && (r.falling.color == r.left.color || r.falling.color == r.right.color)
    && r.left.x == LeftX(c) && r.right.x == RightX(c)
    && r.left.y == FloorY(c) && r.right.y == FloorY(c)
    && r.falling.x == CenterX(c) && r.falling.y >= 0.0
  }

  /** A fresh round: targets at a quarter and three quarters of the width on
      the floor line, the falling square centred at the top edge. */
  function NewRound(c: Canvas, d: Dice): (r: Round)
    ensures WellShaped(c, r)
    ensures r.falling.y == 0.0
    ensures r.left.color == Colors[d.first] && r.right.color == Colors[d.second]
    ensures r.falling.color == r.left.color <==> d.fallFirst
  {
    ColorsDistinct();
    var c1 := Colors[d.first];
    var c2 := Colors[d.second];
    Round(Square(CenterX(c), 0.0, if d.fallFirst then c1 else c2),
          Square(LeftX(c), FloorY(c), c1),
          Square(RightX(c), FloorY(c), c2))
  }

  /** In a well-shaped round the falling colour matches exactly one target. */
  lemma FallingMatchesExactlyOne(c: Canvas, r: Round)
    requires WellShaped(c, r)
    ensures (r.falling.color == r.left.color) != (r.falling.color == r.right.color)
  {
  }

}
