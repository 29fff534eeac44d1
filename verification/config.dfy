/** The game's fixed configuration: the colour palette, the speed presets,
    and how one uniform random draw selects a palette entry. */
module Config {

  /** The ten colours a target may take, as CSS hex strings. */
  const Colors: seq<string> := [
    "#FF0000", "#00FF00", "#0000FF", "#FFFF00",
    "#FF00FF", "#00FFFF", "#FFA500", "#800080",
    "#008000", "#FFC0CB"
  ]

  /** The palette has no repeated entry, so two distinct indices name two
      distinct colours. */
  lemma ColorsDistinct()
    ensures |Colors| == 10
    ensures forall i, j :: 0 <= i < |Colors| && 0 <= j < |Colors| && i != j ==> Colors[i] != Colors[j]
  {
  }

  /** A colour index chosen by one call of the random source: `u` is a draw
      in [0, 1), scaled by the palette size and rounded down. */
  function RandomIndex(u: real): (i: nat)
    requires 0.0 <= u < 1.0
    ensures i < |Colors|
    ensures i as real <= u * |Colors| as real < i as real + 1.0
  {
    (u * |Colors| as real).Floor
  }

  /** A draw in the middle of the interval [i/10, (i+1)/10) selects colour i:
      every palette entry can be drawn. */
  lemma RandomIndexReachesAll(i: nat)
    requires i < |Colors|
    ensures 0.0 <= (i as real + 0.5) / |Colors| as real < 1.0
    ensures RandomIndex((i as real + 0.5) / |Colors| as real) == i
  {
  }

  /** The three speed presets a player can select. */
  datatype Speed = Slow | Medium | Fast

  /** Pixels-per-tick scalar of each preset. */
  function Pace(sp: Speed): (v: nat)
    ensures 20 <= v <= 40
  {
    match sp
    case Slow => 20
    case Medium => 30
    case Fast => 40
  }

  /** Presets are strictly ordered: a faster preset moves the square further. */
  lemma PaceOrdered()
    ensures Pace(Slow) < Pace(Medium) < Pace(Fast)
  {
  }

  /** Downward distance the falling square travels in one tick. */
  function Step(sp: Speed): (d: real)
    ensures d > 0.0
    ensures d == Pace(sp) as real / 10.0
  {
    Pace(sp) as real * 0.1
  }

}
