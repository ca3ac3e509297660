/**
 * The crosshair configuration (`CrosshairConfig`) and the radii derived from
 * it (src/main.rs). Every `f64` is a real: rounding and NaN are not modelled.
 */
module Config {
  import opened Color

  /** A `u32`. */
  type U32 = x: int | 0 <= x < 0x1_0000_0000

  const MinCanvasSize: U32 := 64
  const MaxCanvasSize: U32 := 8192
  const MaxRingOuterRadius: real := 4192.0

  datatype CrosshairConfig = CrosshairConfig(
    size: U32,
    ringOuterRadius: real,
    ringThickness: real,
    rimColor: Rgba,
    armColor: Rgba,
    gapFromRing: real,
    centerGapRadius: real,
    spokeBaseWidth: real,
    spokeTipWidth: real,
    angles: seq<real>,
    blurRadius: real,
    glowRadius: real)

  /** `CrosshairConfig::default`. */
  function DefaultConfig(): CrosshairConfig {
    CrosshairConfig(
      size := 256,
      ringOuterRadius := 118.0,
      ringThickness := 20.0,
      rimColor := Rgba(255, 255, 255, 1.0),
      armColor := Rgba(0, 0, 0, 1.0),
      gapFromRing := 10.0,
      centerGapRadius := 2.0,
      spokeBaseWidth := 12.0,
      spokeTipWidth := 1.5,
      angles := [45.0, 135.0, 225.0, 315.0],
      blurRadius := 1.0,
      glowRadius := 2.0)
  }

  /** `f64::max(x, 0.0)`: the larger of the two. */
  function AtLeastZero(x: real): (r: real)
    ensures r >= 0.0 && r >= x
    ensures r == 0.0 || r == x
  {
    if x >= 0.0 then x else 0.0
  }

  /** `canvas_border_radius`: half the canvas edge, the radius that touches its border. */
  function CanvasBorderRadius(size: U32): (r: real)
    ensures 2.0 * r == size as real
  {
    size as real / 2.0
  }

  /** `ring_draw_radius`: the radius of the stroked circle's centre line. */
  function RingDrawRadius(c: CrosshairConfig): (r: real)
    ensures r >= 0.0 && r >= c.ringOuterRadius - c.ringThickness / 2.0
    ensures r == 0.0 || r == c.ringOuterRadius - c.ringThickness / 2.0
  {
    AtLeastZero(c.ringOuterRadius - c.ringThickness / 2.0)
  }

  /** `ring_inner_radius`: where the ring's band starts. */
  function RingInnerRadius(c: CrosshairConfig): (r: real)
    ensures r >= 0.0 && r >= c.ringOuterRadius - c.ringThickness
    ensures r == 0.0 || r == c.ringOuterRadius - c.ringThickness
  {
    AtLeastZero(c.ringOuterRadius - c.ringThickness)
  }

  /** `spoke_base_radius`: the outer end of every spoke, a gap inside the ring. */
  function SpokeBaseRadius(c: CrosshairConfig): (r: real)
    ensures r >= 0.0 && r >= RingInnerRadius(c) - c.gapFromRing
    ensures r == 0.0 || r == RingInnerRadius(c) - c.gapFromRing
  {
    AtLeastZero(RingInnerRadius(c) - c.gapFromRing)
  }

  /** `spoke_tip_radius`: the inner end of every spoke, at the centre gap. */
  function SpokeTipRadius(c: CrosshairConfig): (r: real)
    ensures r >= 0.0 && r >= c.centerGapRadius
    ensures r == 0.0 || r == c.centerGapRadius
  {
    AtLeastZero(c.centerGapRadius)
  }

  /**
   * With a non-negative thickness the band nests: the inner edge lies inside
   * the drawn centre line, which lies inside the outer edge (clamped at zero).
   */
  lemma RingRadiiNest(c: CrosshairConfig)
    requires c.ringThickness >= 0.0
    ensures RingInnerRadius(c) <= RingDrawRadius(c) <= AtLeastZero(c.ringOuterRadius)
  {
  }

  /** With a non-negative gap the spokes start inside the ring's inner edge. */
  lemma SpokesInsideRing(c: CrosshairConfig)
    requires c.gapFromRing >= 0.0
    ensures SpokeBaseRadius(c) <= RingInnerRadius(c)
  {
  }

  /** A non-negative centre gap is the tip radius itself. */
  lemma TipAtCenterGap(c: CrosshairConfig)
    requires c.centerGapRadius >= 0.0
    ensures SpokeTipRadius(c) == c.centerGapRadius
  {
  }

  /** The default configuration's radii. */
  lemma DefaultRadii()
    ensures RingDrawRadius(DefaultConfig()) == 108.0
    ensures RingInnerRadius(DefaultConfig()) == 98.0
    ensures SpokeBaseRadius(DefaultConfig()) == 88.0
    ensures SpokeTipRadius(DefaultConfig()) == 2.0
  {
  }

  /**
   * On every canvas size the editor allows, the border radius is within the
   * ring-radius slider's range, so clamping it there never changes it.
   */
  lemma BorderRadiusInRange(size: U32)
    requires MinCanvasSize <= size <= MaxCanvasSize
    ensures 32.0 <= CanvasBorderRadius(size) <= 4096.0 < MaxRingOuterRadius
  {
  }
}
