/**
 * The 2-D line rasterizer: a line is drawn along its major axis, one pixel
 * per major-axis coordinate, with the minor coordinate interpolated linearly
 * between the endpoints and rounded. Interpolated values are exact reals here.
 */
module Rasterizer {
  import opened Types
  import opened Color
  import opened Framebuffer

  /** A pixel position in centre-origin screen coordinates. */
  datatype Point = Point(x: int, y: int)

  function Abs(n: int): nat
  {
    if n < 0 then -n else n
  }

  /** C `round`: the nearest integer, halves rounded away from zero. */
  function Round(r: real): (n: int)
    ensures r >= 0.0 ==> n as real - 0.5 <= r < n as real + 0.5
    ensures r < 0.0 ==> n as real - 0.5 < r <= n as real + 0.5
  {
    if r >= 0.0 then (r + 0.5).Floor else -((-r + 0.5).Floor)
  }

  /** Rounding an integer-valued real gives that integer back. */
  lemma RoundInteger(n: int)
    ensures Round(n as real) == n
  {
  }

  /** The k-th value interpolate produces: startD plus k steps of the slope, over exact reals. */
  function Lerp(startI: int, startD: real, destI: int, destD: real, k: int): real
    requires startI < destI
  {
    startD + k as real * ((destD - startD) / (destI - startI) as real)
  }

  /** After destI - startI steps the interpolation reaches destD exactly. */
  lemma LerpReachesDest(startI: int, startD: real, destI: int, destD: real)
    requires startI < destI
    ensures Lerp(startI, startD, destI, destD, destI - startI) == destD
  {
    var n := (destI - startI) as real;
    assert n * ((destD - startD) / n) == destD - startD;
  }

  /**
   * What interpolate returns: one value per integer from startI to destI,
   * a single startD when they coincide.
   */
  function Interpolation(startI: int, startD: real, destI: int, destD: real): (vals: seq<real>)
    requires startI <= destI
    ensures |vals| == destI - startI + 1
    ensures vals[0] == startD
    ensures startI < destI ==> vals[|vals| - 1] == destD
    ensures startI < destI ==> forall k :: 0 <= k < |vals| ==> vals[k] == Lerp(startI, startD, destI, destD, k)
  {
    if startI == destI then
      [startD]
    else
      LerpReachesDest(startI, startD, destI, destD);
      seq(destI - startI + 1, k => Lerp(startI, startD, destI, destD, k))
  }

  /**
   * interpolate: fills a fresh array with destI - startI + 1 values, starting
   * from startD and adding the slope (destD - startD) / (destI - startI) once
   * per step.
   */
  method Interpolate(startI: int, startD: real, destI: int, destD: real) returns (vals: array<real>)
    requires startI <= destI
    ensures fresh(vals)
    ensures vals[..] == Interpolation(startI, startD, destI, destD)
  {
    if startI == destI {
      vals := new real[1];
      vals[0] := startD;
      return;
    }
    vals := new real[destI - startI + 1];
    var a := (destD - startD) / (destI - startI) as real;
    var d := startD;
    var i := startI;
    while i <= destI
      invariant startI <= i <= destI + 1
      invariant d == startD + (i - startI) as real * a
      invariant forall k :: 0 <= k < i - startI ==> vals[k] == Lerp(startI, startD, destI, destD, k)
    {
      vals[i - startI] := d;
      d := d + a;
      i := i + 1;
    }
  }

  /** drawLine steps along x exactly when the line is wider than it is tall; ties step along y. */
  predicate XMajor(startX: int, startY: int, destX: int, destY: int)
  {
    Abs(destX - startX) > Abs(destY - startY)
  }

  /** The endpoints drawLine works with after its swap, major-axis coordinate first. */
  datatype Span = Span(startMajor: int, startMinor: int, destMajor: int, destMinor: int)

  /**
   * drawLine's swap: the endpoints are exchanged when the dest lies before
   * the start on the major axis, so the major coordinate runs upward.
   */
  function OrderedSpan(startX: int, startY: int, destX: int, destY: int): (s: Span)
    ensures s.startMajor <= s.destMajor
    ensures s.destMajor - s.startMajor ==
      if XMajor(startX, startY, destX, destY) then Abs(destX - startX) else Abs(destY - startY)
  {
    if XMajor(startX, startY, destX, destY) then
      if destX < startX then Span(destX, destY, startX, startY) else Span(startX, startY, destX, destY)
    else
      if destY < startY then Span(destY, destX, startY, startX) else Span(startY, startX, destY, destX)
  }

  /**
   * One pixel per interpolated value: the k-th at major-axis coordinate
   * start + k, its minor coordinate the k-th value rounded.
   */
  function MajorPlots(xMajor: bool, start: int, vals: seq<real>): (plots: seq<Point>)
    ensures |plots| == |vals|
  {
    if xMajor then
      seq(|vals|, k requires 0 <= k < |vals| => Point(start + k, Round(vals[k])))
    else
      seq(|vals|, k requires 0 <= k < |vals| => Point(Round(vals[k]), start + k))
  }

  /**
   * The putPixel calls drawLine makes, in order: one per major-axis
   * coordinate from the span's start to its dest, the minor coordinate
   * rounded from the interpolation.
   */
  function LinePlots(startX: int, startY: int, destX: int, destY: int): (plots: seq<Point>)
  {
    var s := OrderedSpan(startX, startY, destX, destY);
    MajorPlots(XMajor(startX, startY, destX, destY), s.startMajor,
               Interpolation(s.startMajor, s.startMinor as real, s.destMajor, s.destMinor as real))
  }

  /**
   * drawLine plots max(|dx|, |dy|) + 1 pixels, one for each major-axis
   * coordinate from the smaller endpoint's to the larger's, in increasing
   * order; a degenerate line plots exactly one pixel.
   */
  lemma LinePlotsShape(startX: int, startY: int, destX: int, destY: int)
    ensures var plots := LinePlots(startX, startY, destX, destY);
      && |plots| == (if XMajor(startX, startY, destX, destY) then Abs(destX - startX) else Abs(destY - startY)) + 1
      && (XMajor(startX, startY, destX, destY) ==>
            forall k :: 0 <= k < |plots| ==> plots[k].x == (if startX < destX then startX else destX) + k)
      && (!XMajor(startX, startY, destX, destY) ==>
            forall k :: 0 <= k < |plots| ==> plots[k].y == (if startY < destY then startY else destY) + k)
  {
  }

  /** The first and last pixels drawLine plots are the two endpoints. */
  lemma LinePlotsEndpoints(startX: int, startY: int, destX: int, destY: int)
    ensures var plots := LinePlots(startX, startY, destX, destY);
      {plots[0], plots[|plots| - 1]} == {Point(startX, startY), Point(destX, destY)}
  {
    var s := OrderedSpan(startX, startY, destX, destY);
    RoundInteger(s.startMinor);
    RoundInteger(s.destMinor);
  }

  /** drawLine(a, b) and drawLine(b, a) make the same putPixel calls in the same order. */
  lemma LinePlotsSymmetric(startX: int, startY: int, destX: int, destY: int)
    ensures LinePlots(startX, startY, destX, destY) == LinePlots(destX, destY, startX, startY)
  {
    assert OrderedSpan(startX, startY, destX, destY) == OrderedSpan(destX, destY, startX, startY);
  }

  /** The buffer after putPixel has been called, in order, at every point of `points`. */
  function PutPixels(pixels: seq<uint32>, width: int, height: int, points: seq<Point>, v: uint32): (r: seq<uint32>)
    requires 0 <= width && 0 <= height && |pixels| == width * height
    ensures |r| == |pixels|
    decreases |points|
  {
    if points == [] then
      pixels
    else
      var last := points[|points| - 1];
      Plot(PutPixels(pixels, width, height, points[..|points| - 1], v), width, height,
           ToScreen(last.x, width), ToScreen(last.y, height), v)
  }

  /** One more putPixel call extends the run by its point. */
  lemma PutPixelsStep(pixels: seq<uint32>, width: int, height: int, points: seq<Point>, k: int, v: uint32)
    requires 0 <= width && 0 <= height && |pixels| == width * height
    requires 0 <= k < |points|
    ensures PutPixels(pixels, width, height, points[..k + 1], v) ==
      Plot(PutPixels(pixels, width, height, points[..k], v), width, height,
           ToScreen(points[k].x, width), ToScreen(points[k].y, height), v)
  {
    assert points[..k + 1][..k] == points[..k];
  }

  /**
   * After a run of putPixel calls with one colour, a pixel of the frame holds
   * that colour exactly when some point of the run lands on it, and keeps its
   * old value otherwise.
   */
  lemma {:induction false} PutPixelsEffect(pixels: seq<uint32>, width: int, height: int, points: seq<Point>, v: uint32)
    requires 0 <= width && 0 <= height && |pixels| == width * height
    ensures forall px, py :: InFrame(px, py, width, height) ==>
      0 <= Index(px, py, width) < |pixels| &&
      PutPixels(pixels, width, height, points, v)[Index(px, py, width)] ==
        if exists k :: 0 <= k < |points| && ToScreen(points[k].x, width) == px && ToScreen(points[k].y, height) == py
        then v else pixels[Index(px, py, width)]
    decreases |points|
  {
    AllIndicesInFrame(width, height);
    if points != [] {
      var init := points[..|points| - 1];
      var last := points[|points| - 1];
      PutPixelsEffect(pixels, width, height, init, v);
      var before := PutPixels(pixels, width, height, init, v);
      PlotChangesOnlyTarget(before, width, height, ToScreen(last.x, width), ToScreen(last.y, height), v);
      forall px, py | InFrame(px, py, width, height)
        ensures PutPixels(pixels, width, height, points, v)[Index(px, py, width)] ==
          if exists k :: 0 <= k < |points| && ToScreen(points[k].x, width) == px && ToScreen(points[k].y, height) == py
          then v else pixels[Index(px, py, width)]
      {
        if exists k :: 0 <= k < |init| && ToScreen(init[k].x, width) == px && ToScreen(init[k].y, height) == py {
          var k :| 0 <= k < |init| && ToScreen(init[k].x, width) == px && ToScreen(init[k].y, height) == py;
          assert points[k] == init[k];
        } else if ToScreen(last.x, width) == px && ToScreen(last.y, height) == py {
          assert points[|points| - 1] == last;
        } else {
          forall k | 0 <= k < |points|
            ensures !(ToScreen(points[k].x, width) == px && ToScreen(points[k].y, height) == py)
          {
            if k < |init| {
              assert points[k] == init[k];
            }
          }
        }
      }
    }
  }

  /**
   * drawLine's plotting loop: for every major-axis coordinate i from `start`
   * to `dest` inclusive, calls putPixel with i on the major axis and
   * vals[i - start] rounded on the minor axis.
   */
  method PlotRun(frame: Frame, xMajor: bool, start: int, dest: int, vals: array<real>, color: Rgb)
    requires frame.Valid()
    requires start <= dest && vals.Length == dest - start + 1
    modifies frame.pixels
    ensures frame.pixels[..] ==
      PutPixels(old(frame.pixels[..]), frame.width, frame.height, MajorPlots(xMajor, start, vals[..]), GetColor(color))
  {
    ghost var initial := frame.pixels[..];
    ghost var plots := MajorPlots(xMajor, start, vals[..]);
    var i := start;
    while i <= dest
      invariant start <= i <= dest + 1
      invariant frame.pixels[..] == PutPixels(initial, frame.width, frame.height, plots[..i - start], GetColor(color))
    {
      PutPixelsStep(initial, frame.width, frame.height, plots, i - start, GetColor(color));
      if xMajor {
        var _ := frame.PutPixel(i, Round(vals[i - start]), color);
      } else {
        var _ := frame.PutPixel(Round(vals[i - start]), i, color);
      }
      i := i + 1;
    }
    assert plots[..dest - start + 1] == plots;
  }

  /**
   * drawLine: chooses the major axis, swaps the endpoints so the major
   * coordinate runs upward, interpolates the minor coordinate, and calls
   * putPixel once per major-axis coordinate from start to dest inclusive.
   */
  method DrawLine(frame: Frame, startX: int, startY: int, destX: int, destY: int, color: Rgb)
    requires frame.Valid()
    modifies frame.pixels
    ensures frame.pixels[..] ==
      PutPixels(old(frame.pixels[..]), frame.width, frame.height, LinePlots(startX, startY, destX, destY), GetColor(color))
  {
    ghost var span := OrderedSpan(startX, startY, destX, destY);
    var sx, sy, dx, dy := startX, startY, destX, destY;
    if Abs(dx - sx) > Abs(dy - sy) {
      if dx < sx {
        sx, dx := dx, sx;
        sy, dy := dy, sy;
      }
      assert span == Span(sx, sy, dx, dy);
      var vals := Interpolate(sx, sy as real, dx, dy as real);
      PlotRun(frame, true, sx, dx, vals, color);
    } else {
      if dy < sy {
        sx, dx := dx, sx;
        sy, dy := dy, sy;
      }
      assert span == Span(sy, sx, dy, dx);
      var vals := Interpolate(sy, sx as real, dy, dx as real);
      PlotRun(frame, false, sy, dy, vals, color);
    }
  }
}
