/**
 * `generate_svg` (src/main.rs) as an abstract document: the element tree the
 * `svg` crate would serialise, without the serialisation itself.
 */
module Svg {
  import opened Color
  import opened Config
  import opened Spoke

  /** `<path d=… fill=…>`: one filled spoke. */
  datatype ArmPath = ArmPath(d: seq<PathCmd>, fill: Rgba)

  /** `<circle cx cy r stroke-width stroke fill="none">`: the ring. */
  datatype RingCircle = RingCircle(cx: real, cy: real, r: real, strokeWidth: real, stroke: Rgba)

  /** The document: its size, its view box, the group of spokes, then the ring. */
  datatype Document = Document(
    width: U32, height: U32, viewBox: (int, int, int, int),
    arms: seq<ArmPath>, ring: RingCircle)

  /** The spoke dimensions every arm of a configuration shares. */
  function ArmShape(c: CrosshairConfig): SpokeShape {
    SpokeShape(SpokeTipRadius(c), SpokeBaseRadius(c), c.spokeBaseWidth, c.spokeTipWidth)
  }

  /** The frame of the arm whose direction is `u`, centred on the canvas. */
  function ArmFrame(c: CrosshairConfig, u: Point): Frame {
    Frame(c.size as real / 2.0, c.size as real / 2.0, u.x, u.y)
  }

  /**
   * `generate_svg`. `direction` gives `(cos θ, sin θ)` for an angle in degrees.
   * One closed, arm-coloured outline per angle, in order, then the rim-coloured
   * ring stroke at the drawn ring radius.
   */
  function GenerateSvg(c: CrosshairConfig, direction: real -> Point): (doc: Document)
    ensures doc.width == c.size && doc.height == c.size && doc.viewBox == (0, 0, c.size, c.size)
    ensures |doc.arms| == |c.angles|
    ensures forall i :: 0 <= i < |c.angles| ==>
              && doc.arms[i].fill == c.armColor
              && doc.arms[i].d == SpokePath(ArmFrame(c, direction(c.angles[i])), ArmShape(c))
              && IsClosedOutline(doc.arms[i].d)
    ensures doc.ring.cx == doc.ring.cy == CanvasBorderRadius(c.size)
    ensures doc.ring.r == RingDrawRadius(c) && doc.ring.r >= 0.0
    ensures doc.ring.strokeWidth == c.ringThickness && doc.ring.stroke == c.rimColor
  {
    var cx := c.size as real / 2.0;
    var arms := seq(|c.angles|, i requires 0 <= i < |c.angles| =>
      ArmPath(SpokePath(ArmFrame(c, direction(c.angles[i])), ArmShape(c)), c.armColor));
    Document(c.size, c.size, (0, 0, c.size, c.size), arms,
      RingCircle(cx, cx, RingDrawRadius(c), c.ringThickness, c.rimColor))
  }

  /**
   * When the thickness is between zero and the outer radius, the stroke of
   * the drawn circle covers exactly the band from the ring's inner radius to
   * its outer radius.
   */
  lemma RingStrokeCoversBand(c: CrosshairConfig, direction: real -> Point)
    requires 0.0 <= c.ringThickness <= c.ringOuterRadius
    ensures var ring := GenerateSvg(c, direction).ring;
      && ring.r - ring.strokeWidth / 2.0 == RingInnerRadius(c)
      && ring.r + ring.strokeWidth / 2.0 == c.ringOuterRadius
  {
  }
}
