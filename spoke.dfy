/**
 * The outline of one spoke (src/main.rs): `bezier_spoke` as a list of path
 * commands, and `spoke_outline_points` with `add_quad_samples`, which flatten
 * the same outline into the polygon the live preview fills. Coordinates are
 * reals; the spoke's direction `(cos θ, sin θ)` is passed in rather than
 * computed from the angle.
 */
module Spoke {

  datatype Point = Point(x: real, y: real)

  /** Where a spoke is drawn: the canvas centre and the spoke's direction `(ux, uy)`. */
  datatype Frame = Frame(cx: real, cy: real, ux: real, uy: real)

  /** The radii and full widths of a spoke at its tip (inner end) and base (outer end). */
  datatype SpokeShape = SpokeShape(tipR: real, baseR: real, baseWidth: real, tipWidth: real)

  /** The path commands `bezier_spoke` emits. */
  datatype PathCmd = MoveTo(to: Point) | LineTo(to: Point) | QuadTo(ctrl: Point, to: Point) | Close

  /** The three intermediate cross-sections of the razor taper. */
  datatype RazorProfile = RazorProfile(
    shoulderR: real, midR: real, pinchR: real,
    shoulderHalf: real, midHalf: real, pinchHalf: real)

  /** A tip width at or below this selects the razor taper. */
  const RazorTipWidth: real := 0.01

  /** Points sampled per quadratic curve when the outline is flattened. */
  const CurveSamples: nat := 6

  function Abs(x: real): real {
    if x < 0.0 then -x else x
  }

  /** The point at radius `r` along the spoke's axis. */
  function OnAxis(f: Frame, r: real): Point {
    Point(f.cx + r * f.ux, f.cy + r * f.uy)
  }

  /** Half-width `h` to the right of the axis point at `r`, along `p = (-uy, ux)`. */
  function Right(f: Frame, r: real, h: real): Point {
    var a := OnAxis(f, r);
    Point(a.x + -f.uy * h, a.y + f.ux * h)
  }

  /** Half-width `h` to the left of the axis point at `r`. */
  function Left(f: Frame, r: real, h: real): Point {
    var a := OnAxis(f, r);
    Point(a.x - -f.uy * h, a.y - f.ux * h)
  }

  function Mid(a: Point, b: Point): Point {
    Point((a.x + b.x) / 2.0, (a.y + b.y) / 2.0)
  }

  function BaseLeft(f: Frame, s: SpokeShape): Point {
    Left(f, s.baseR, s.baseWidth / 2.0)
  }

  function BaseRight(f: Frame, s: SpokeShape): Point {
    Right(f, s.baseR, s.baseWidth / 2.0)
  }

  function TipLeft(f: Frame, s: SpokeShape): Point {
    Left(f, s.tipR, s.tipWidth / 2.0)
  }

  function TipRight(f: Frame, s: SpokeShape): Point {
    Right(f, s.tipR, s.tipWidth / 2.0)
  }

  /**
   * The razor cross-sections: at a quarter, 60% and 90% of the way from the
   * base, at 90%, 60% and 18% of the base half-width.
   */
  function Razor(s: SpokeShape): RazorProfile {
    var dist := Abs(s.baseR - s.tipR);
    var baseHalf := s.baseWidth / 2.0;
    RazorProfile(
      s.baseR - dist * 0.25, s.baseR - dist * 0.6, s.baseR - dist * 0.9,
      baseHalf * 0.9, baseHalf * 0.6, baseHalf * 0.18)
  }

  /**
   * For an outward-pointing spoke of non-negative width the razor profile
   * tapers: wide shoulder, slimmer mid, narrow pinch, then the point, with each
   * cross-section nearer the tip than the last.
   */
  lemma RazorTapers(s: SpokeShape)
    requires s.baseR >= s.tipR && s.baseWidth >= 0.0
    ensures var p := Razor(s);
      && s.baseR >= p.shoulderR >= p.midR >= p.pinchR >= s.tipR
      && s.baseWidth / 2.0 >= p.shoulderHalf >= p.midHalf >= p.pinchHalf >= 0.0
  {
  }

  /**
   * For an inverted spoke (tip radius beyond the base radius) the distance is
   * taken as an absolute value, so the three cross-sections lie on the far side
   * of the base from the tip, and the outline doubles back across the base.
   */
  lemma RazorInvertedDoublesBack(s: SpokeShape)
    requires s.tipR > s.baseR
    ensures var p := Razor(s); p.pinchR < p.midR < p.shoulderR < s.baseR < s.tipR
  {
  }

  /** One closed outline: a MoveTo, drawing commands, a last one back to the start, Close. */
  predicate IsClosedOutline(cmds: seq<PathCmd>) {
    && |cmds| >= 3
    && cmds[0].MoveTo?
    && cmds[|cmds| - 1] == Close
    && (forall i :: 0 < i < |cmds| - 1 ==> cmds[i].LineTo? || cmds[i].QuadTo?)
    && cmds[|cmds| - 2].to == cmds[0].to
  }

  /**
   * `bezier_spoke`: the beveled outline (two straight ends joined by slightly
   * bowed sides) or, for a tip width at most 0.01, the razor outline that
   * narrows through shoulder, mid and pinch to a point.
   */
  function SpokePath(f: Frame, s: SpokeShape): (cmds: seq<PathCmd>)
    ensures IsClosedOutline(cmds)
    ensures cmds[0] == MoveTo(BaseLeft(f, s))
    ensures s.tipWidth <= RazorTipWidth ==> |cmds| == 11 && cmds[5].to == OnAxis(f, s.tipR)
    ensures s.tipWidth > RazorTipWidth ==>
              |cmds| == 6 && cmds[2].to == TipRight(f, s) && cmds[3].to == TipLeft(f, s)
  {
    var bl, br, tip := BaseLeft(f, s), BaseRight(f, s), OnAxis(f, s.tipR);
    if s.tipWidth <= RazorTipWidth then
      var p := Razor(s);
      var sr, sl := Right(f, p.shoulderR, p.shoulderHalf), Left(f, p.shoulderR, p.shoulderHalf);
      var mr, ml := Right(f, p.midR, p.midHalf), Left(f, p.midR, p.midHalf);
      var pr, pl := Right(f, p.pinchR, p.pinchHalf), Left(f, p.pinchR, p.pinchHalf);
      [MoveTo(bl), LineTo(br), LineTo(sr),
       QuadTo(Mid(sr, mr), mr), QuadTo(Mid(mr, pr), pr), QuadTo(Mid(pr, tip), tip),
       QuadTo(Mid(pl, tip), pl), QuadTo(Mid(ml, pl), ml), QuadTo(Mid(sl, ml), sl),
       LineTo(bl), Close]
    else
      var tl, tr := TipLeft(f, s), TipRight(f, s);
      [MoveTo(bl), LineTo(br), QuadTo(Mid(br, tr), tr), LineTo(tl), QuadTo(Mid(bl, tl), bl), Close]
  }

  /** One coordinate of the quadratic Bézier from `s` through control `c` to `e`, at `t`. */
  function QuadCoord(s: real, c: real, e: real, t: real): real {
    var omt := 1.0 - t;
    omt * omt * s + 2.0 * omt * t * c + t * t * e
  }

  /** The quadratic Bézier from `s` through control `c` to `e`, at parameter `t`. */
  function QuadPoint(s: Point, c: Point, e: Point, t: real): Point {
    Point(QuadCoord(s.x, c.x, e.x, t), QuadCoord(s.y, c.y, e.y, t))
  }

  /** The curve starts at its start point and ends at its end point. */
  lemma QuadEndpoints(s: Point, c: Point, e: Point)
    ensures QuadPoint(s, c, e, 0.0) == s
    ensures QuadPoint(s, c, e, 1.0) == e
  {
  }

  /** The samples at `t = 1/steps, 2/steps, …, 1`; the start point itself is not repeated. */
  function QuadSamples(start: Point, ctrl: Point, end: Point, steps: nat): (r: seq<Point>)
    ensures |r| == steps
    ensures steps > 0 ==> r[steps - 1] == end
  {
    var r := seq(steps, k requires 0 <= k < steps => QuadPoint(start, ctrl, end, (k + 1) as real / steps as real));
    if steps > 0 then
      LastSampleAtOne(steps);
      QuadEndpoints(start, ctrl, end);
      r
    else r
  }

  /** The last sample is taken at `t = 1`. */
  lemma LastSampleAtOne(steps: nat)
    requires steps > 0
    ensures (steps - 1 + 1) as real / steps as real == 1.0
  {
    var d := steps as real;
    assert (steps - 1 + 1) as real == d;
    assert d / d == 1.0;
  }

  /**
   * What `add_quad_samples` does to a point list: nothing when it is empty,
   * otherwise append `steps` samples of the curve from its last point.
   */
  function AppendQuad(acc: seq<Point>, ctrl: Point, end: Point, steps: nat): (r: seq<Point>)
    ensures acc == [] ==> r == []
    ensures acc != [] ==> |r| == |acc| + steps && r[..|acc|] == acc
    ensures acc != [] && steps > 0 ==> r[|r| - 1] == end
  {
    if acc == [] then [] else acc + QuadSamples(acc[|acc| - 1], ctrl, end, steps)
  }

  /** One command's contribution to the flattened polygon. */
  function Draw(acc: seq<Point>, cmd: PathCmd, steps: nat): seq<Point> {
    match cmd
    case MoveTo(p) => acc + [p]
    case LineTo(p) => acc + [p]
    case QuadTo(c, p) => AppendQuad(acc, c, p, steps)
    case Close => acc
  }

  /** A path flattened onto `acc`: lines kept, each curve sampled `steps` times. */
  function FlattenOnto(acc: seq<Point>, cmds: seq<PathCmd>, steps: nat): seq<Point>
    decreases |cmds|
  {
    if cmds == [] then acc else FlattenOnto(Draw(acc, cmds[0], steps), cmds[1..], steps)
  }

  function Flatten(cmds: seq<PathCmd>, steps: nat): seq<Point> {
    FlattenOnto([], cmds, steps)
  }

  /** The growable point vector `add_quad_samples` appends to. */
  class PointList {
    var points: seq<Point>

    constructor (init: seq<Point>)
      ensures points == init
    {
      points := init;
    }

    /** `Vec::push`. */
    method Push(p: Point)
      modifies this
      ensures points == old(points) + [p]
    {
      points := points + [p];
    }

    /** `add_quad_samples`. */
    method AddQuadSamples(ctrl: Point, end: Point, steps: nat)
      modifies this
      ensures points == AppendQuad(old(points), ctrl, end, steps)
    {
      if points == [] {
        return;
      }
      var start := points[|points| - 1];
      ghost var before := points;
      ghost var samples := QuadSamples(start, ctrl, end, steps);
      var i := 1;
      while i <= steps
        invariant 1 <= i <= steps + 1
        invariant points == before + samples[..i - 1]
      {
        var t := i as real / steps as real;
        var x := QuadCoord(start.x, ctrl.x, end.x, t);
        var y := QuadCoord(start.y, ctrl.y, end.y, t);
        assert samples[i - 1] == Point(x, y);
        points := points + [Point(x, y)];
        assert samples[..i] == samples[..i - 1] + [Point(x, y)];
        i := i + 1;
      }
      assert samples[..steps] == samples;
    }
  }

  /** Flattening one more command of a path. */
  lemma FlattenAdvance(acc: seq<Point>, cmds: seq<PathCmd>, k: nat, steps: nat)
    requires k < |cmds|
    ensures FlattenOnto(acc, cmds[k..], steps) == FlattenOnto(Draw(acc, cmds[k], steps), cmds[k + 1..], steps)
  {
    assert cmds[k..][1..] == cmds[k + 1..];
  }

  /** Flattening a path in two pieces: the second piece continues from the first. */
  lemma {:induction false} FlattenConcat(acc: seq<Point>, xs: seq<PathCmd>, ys: seq<PathCmd>, steps: nat)
    ensures FlattenOnto(acc, xs + ys, steps) == FlattenOnto(FlattenOnto(acc, xs, steps), ys, steps)
    decreases |xs|
  {
    if xs != [] {
      assert (xs + ys)[1..] == xs[1..] + ys;
      FlattenConcat(Draw(acc, xs[0], steps), xs[1..], ys, steps);
    } else {
      assert xs + ys == ys;
    }
  }

  /** Three curves in a row, each sampled from where the previous one ended. */
  lemma FlattenThreeCurves(acc: seq<Point>, c1: Point, p1: Point, c2: Point, p2: Point, c3: Point, p3: Point, n: nat)
    ensures FlattenOnto(acc, [QuadTo(c1, p1), QuadTo(c2, p2), QuadTo(c3, p3)], n)
         == AppendQuad(AppendQuad(AppendQuad(acc, c1, p1, n), c2, p2, n), c3, p3, n)
  {
    var cmds := [QuadTo(c1, p1), QuadTo(c2, p2), QuadTo(c3, p3)];
    var d1 := AppendQuad(acc, c1, p1, n);
    var d2 := AppendQuad(d1, c2, p2, n);
    var d3 := AppendQuad(d2, c3, p3, n);
    assert cmds[1..] == [QuadTo(c2, p2), QuadTo(c3, p3)];
    assert cmds[1..][1..] == [QuadTo(c3, p3)];
    assert cmds[1..][1..][1..] == [];
    assert FlattenOnto(acc, cmds, n) == FlattenOnto(d1, cmds[1..], n);
    assert FlattenOnto(d1, cmds[1..], n) == FlattenOnto(d2, cmds[1..][1..], n);
    assert FlattenOnto(d2, cmds[1..][1..], n) == FlattenOnto(d3, [], n);
  }

  /** The razor outline, flattened: three corners, six sampled curves, and the first corner again. */
  lemma FlattenRazor(bl: Point, br: Point, sr: Point, mr: Point, pr: Point, tip: Point,
                     pl: Point, ml: Point, sl: Point, n: nat)
    ensures Flatten([MoveTo(bl), LineTo(br), LineTo(sr),
                     QuadTo(Mid(sr, mr), mr), QuadTo(Mid(mr, pr), pr), QuadTo(Mid(pr, tip), tip),
                     QuadTo(Mid(pl, tip), pl), QuadTo(Mid(ml, pl), ml), QuadTo(Mid(sl, ml), sl),
                     LineTo(bl), Close], n)
         == AppendQuad(AppendQuad(AppendQuad(AppendQuad(AppendQuad(AppendQuad(
              [bl, br, sr], Mid(sr, mr), mr, n), Mid(mr, pr), pr, n), Mid(pr, tip), tip, n),
              Mid(pl, tip), pl, n), Mid(ml, pl), ml, n), Mid(sl, ml), sl, n) + [bl]
  {
    var corners := [MoveTo(bl), LineTo(br), LineTo(sr)];
    var right := [QuadTo(Mid(sr, mr), mr), QuadTo(Mid(mr, pr), pr), QuadTo(Mid(pr, tip), tip)];
    var left := [QuadTo(Mid(pl, tip), pl), QuadTo(Mid(ml, pl), ml), QuadTo(Mid(sl, ml), sl)];
    var closing := [LineTo(bl), Close];
    var path := [MoveTo(bl), LineTo(br), LineTo(sr),
                 QuadTo(Mid(sr, mr), mr), QuadTo(Mid(mr, pr), pr), QuadTo(Mid(pr, tip), tip),
                 QuadTo(Mid(pl, tip), pl), QuadTo(Mid(ml, pl), ml), QuadTo(Mid(sl, ml), sl),
                 LineTo(bl), Close];
    assert corners + right == path[..6];
    assert corners + right + left == path[..9];
    assert path == path[..9] + closing;
    FlattenConcat([], corners + right + left, closing, n);
    FlattenConcat([], corners + right, left, n);
    FlattenConcat([], corners, right, n);
    FlattenCorners(bl, br, sr, n);
    var a2 := FlattenOnto([], corners, n);
    FlattenThreeCurves(a2, Mid(sr, mr), mr, Mid(mr, pr), pr, Mid(pr, tip), tip, n);
    var a5 := FlattenOnto(a2, right, n);
    FlattenThreeCurves(a5, Mid(pl, tip), pl, Mid(ml, pl), ml, Mid(sl, ml), sl, n);
    var a8 := FlattenOnto(a5, left, n);
    FlattenClosing(a8, bl, n);
  }

  /** A move and two lines put down their three points. */
  lemma FlattenCorners(a: Point, b: Point, c: Point, n: nat)
    ensures FlattenOnto([], [MoveTo(a), LineTo(b), LineTo(c)], n) == [a, b, c]
  {
    var cmds := [MoveTo(a), LineTo(b), LineTo(c)];
    assert cmds[1..] == [LineTo(b), LineTo(c)] && cmds[1..][1..] == [LineTo(c)] && cmds[1..][1..][1..] == [];
    assert [] + [a] == [a] && [a] + [b] == [a, b] && [a, b] + [c] == [a, b, c];
    assert FlattenOnto([], cmds, n) == FlattenOnto([a], cmds[1..], n);
    assert FlattenOnto([a], cmds[1..], n) == FlattenOnto([a, b], cmds[1..][1..], n);
    assert FlattenOnto([a, b], cmds[1..][1..], n) == FlattenOnto([a, b, c], [], n);
  }

  /** A closing line back to a point, then `Z`, adds that point once. */
  lemma FlattenClosing(acc: seq<Point>, p: Point, n: nat)
    ensures FlattenOnto(acc, [LineTo(p), Close], n) == acc + [p]
  {
    var cmds := [LineTo(p), Close];
    assert cmds[1..] == [Close] && cmds[1..][1..] == [];
    assert FlattenOnto(acc, cmds, n) == FlattenOnto(acc + [p], cmds[1..], n);
  }

  /** The beveled outline, flattened: two base corners, a sampled side, the tip-left corner, the other side. */
  lemma FlattenBevel(bl: Point, br: Point, tr: Point, tl: Point, n: nat)
    ensures Flatten([MoveTo(bl), LineTo(br), QuadTo(Mid(br, tr), tr), LineTo(tl), QuadTo(Mid(bl, tl), bl), Close], n)
         == AppendQuad(AppendQuad([bl, br], Mid(br, tr), tr, n) + [tl], Mid(bl, tl), bl, n)
  {
    var path := [MoveTo(bl), LineTo(br), QuadTo(Mid(br, tr), tr), LineTo(tl), QuadTo(Mid(bl, tl), bl), Close];
    var a0: seq<Point> := [bl];
    var a1 := a0 + [br];
    var a2 := AppendQuad(a1, Mid(br, tr), tr, n);
    var a3 := a2 + [tl];
    var a4 := AppendQuad(a3, Mid(bl, tl), bl, n);
    assert path[0..] == path;
    assert [] + [bl] == a0;
    FlattenAdvance([], path, 0, n);
    FlattenAdvance(a0, path, 1, n);
    FlattenAdvance(a1, path, 2, n);
    FlattenAdvance(a2, path, 3, n);
    FlattenAdvance(a3, path, 4, n);
    FlattenAdvance(a4, path, 5, n);
    assert a1 == [bl, br];
  }

  /** The razor outline up to its tip: 21 points, the tip last, after the three corners. */
  lemma RazorHalfShape(bl: Point, br: Point, sr: Point, mr: Point, pr: Point, tip: Point)
    ensures var half := AppendQuad(AppendQuad(AppendQuad([bl, br, sr], Mid(sr, mr), mr, CurveSamples),
                                              Mid(mr, pr), pr, CurveSamples), Mid(pr, tip), tip, CurveSamples);
            |half| == 21 && half[0] == bl && half[20] == tip
  {
  }

  /**
   * `spoke_outline_points`: the preview polygon. It is the flattened
   * `bezier_spoke` path, closed back on its first point; the razor form has
   * 40 points with the tip at index 20, the beveled form 15 with the tip
   * corners at 7 and 8.
   */
  method SpokeOutlinePoints(f: Frame, s: SpokeShape) returns (pts: seq<Point>)
    ensures pts == Flatten(SpokePath(f, s), CurveSamples)
    ensures |pts| >= 3 && pts[0] == BaseLeft(f, s) && pts[|pts| - 1] == pts[0]
    ensures s.tipWidth <= RazorTipWidth ==> |pts| == 40 && pts[20] == OnAxis(f, s.tipR)
    ensures s.tipWidth > RazorTipWidth ==>
              |pts| == 15 && pts[7] == TipRight(f, s) && pts[8] == TipLeft(f, s)
  {
    var bl, br, tip := BaseLeft(f, s), BaseRight(f, s), OnAxis(f, s.tipR);
    var list: PointList;
    if s.tipWidth <= RazorTipWidth {
      var p := Razor(s);
      var sr, sl := Right(f, p.shoulderR, p.shoulderHalf), Left(f, p.shoulderR, p.shoulderHalf);
      var mr, ml := Right(f, p.midR, p.midHalf), Left(f, p.midR, p.midHalf);
      var pr, pl := Right(f, p.pinchR, p.pinchHalf), Left(f, p.pinchR, p.pinchHalf);

      list := new PointList([bl, br, sr]);
      list.AddQuadSamples(Mid(sr, mr), mr, CurveSamples);
      list.AddQuadSamples(Mid(mr, pr), pr, CurveSamples);
      list.AddQuadSamples(Mid(pr, tip), tip, CurveSamples);
      RazorHalfShape(bl, br, sr, mr, pr, tip);
      list.AddQuadSamples(Mid(pl, tip), pl, CurveSamples);
      list.AddQuadSamples(Mid(ml, pl), ml, CurveSamples);
      list.AddQuadSamples(Mid(sl, ml), sl, CurveSamples);
      list.Push(bl);
      pts := list.points;
      FlattenRazor(bl, br, sr, mr, pr, tip, pl, ml, sl, CurveSamples);
    } else {
      var tl, tr := TipLeft(f, s), TipRight(f, s);
      list := new PointList([bl, br]);
      list.AddQuadSamples(Mid(br, tr), tr, CurveSamples);
      list.Push(tl);
      list.AddQuadSamples(Mid(bl, tl), bl, CurveSamples);
      pts := list.points;
      FlattenBevel(bl, br, tr, tl, CurveSamples);
    }
  }
}
