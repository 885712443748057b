/**
 * The exact parts of the ray tracer's frame loop: choosing the nearest
 * accepted intersection among the scene's spheres, and the pixel ranges the
 * renderer visits.
 */
module RayTracer {
  import opened Types
  import opened Color
  import opened Framebuffer

  /** The two ray parameters at which a ray meets a sphere; DBL_MAX in both when it misses. */
  datatype SphereResult = SphereResult(firstT: real, secondT: real)

  /** The nearest hit: the position of the sphere in scene order and its ray parameter, or no sphere. */
  datatype IntersectResult = IntersectResult(s: Option<nat>, t: real)

  /**
   * A root is accepted when it lies in [tMin, tMax) and below DBL_MAX, the
   * starting value of the running minimum, which no root can undercut unless
   * it is smaller.
   */
  predicate Accepted(t: real, tMin: real, tMax: real)
  {
    tMin <= t && t < tMax && t < DBL_MAX
  }

  /** Neither root of the sphere is accepted. */
  predicate Misses(r: SphereResult, tMin: real, tMax: real)
  {
    !Accepted(r.firstT, tMin, tMax) && !Accepted(r.secondT, tMin, tMax)
  }

  /** One of the sphere's accepted roots is `t`. */
  predicate HitsAt(r: SphereResult, t: real, tMin: real, tMax: real)
  {
    (Accepted(r.firstT, tMin, tMax) && r.firstT == t) || (Accepted(r.secondT, tMin, tMax) && r.secondT == t)
  }

  /** No accepted root of the sphere is below `t`. */
  predicate NoHitBelow(r: SphereResult, t: real, tMin: real, tMax: real)
  {
    (Accepted(r.firstT, tMin, tMax) ==> t <= r.firstT) && (Accepted(r.secondT, tMin, tMax) ==> t <= r.secondT)
  }

  /** Every accepted root of the sphere is above `t`. */
  predicate AllHitsAbove(r: SphereResult, t: real, tMin: real, tMax: real)
  {
    (Accepted(r.firstT, tMin, tMax) ==> t < r.firstT) && (Accepted(r.secondT, tMin, tMax) ==> t < r.secondT)
  }

  /**
   * `hit` is the closest intersection of the ray with `scene`, whose roots
   * `roots` supplies: a miss (no sphere, DBL_MAX) exactly when no root is
   * accepted; otherwise a sphere with an accepted root at `hit.t`, no accepted
   * root anywhere below `hit.t`, and every earlier sphere strictly above it,
   * so the first sphere in scene order wins a tie.
   */
  ghost predicate IsClosestHit<S>(scene: seq<S>, roots: S -> SphereResult, tMin: real, tMax: real, hit: IntersectResult)
  {
    match hit.s
    case None =>
      hit.t == DBL_MAX && forall j :: 0 <= j < |scene| ==> Misses(roots(scene[j]), tMin, tMax)
    case Some(i) =>
      && i < |scene|
      && HitsAt(roots(scene[i]), hit.t, tMin, tMax)
      && (forall j :: 0 <= j < |scene| ==> NoHitBelow(roots(scene[j]), hit.t, tMin, tMax))
      && (forall j :: 0 <= j < i ==> AllHitsAbove(roots(scene[j]), hit.t, tMin, tMax))
  }

  /** The closest hit is determined uniquely by the scene, the roots and the window. */
  lemma IsClosestHitUnique<S>(scene: seq<S>, roots: S -> SphereResult, tMin: real, tMax: real,
                              h1: IntersectResult, h2: IntersectResult)
    requires IsClosestHit(scene, roots, tMin, tMax, h1) && IsClosestHit(scene, roots, tMin, tMax, h2)
    ensures h1 == h2
  {
    if h1.s.Some? && h2.s.Some? {
      var i, k := h1.s.value, h2.s.value;
      assert h1.t == h2.t by {
        assert NoHitBelow(roots(scene[k]), h1.t, tMin, tMax);
        assert NoHitBelow(roots(scene[i]), h2.t, tMin, tMax);
      }
    }
  }

  /**
   * closestIntersection: scans the scene in order, testing the first and then
   * the second root of every sphere, and keeps a root when it is in
   * [tMin, tMax) and strictly below the best so far.
   */
  method ClosestIntersection<S>(scene: seq<S>, roots: S -> SphereResult, tMin: real, tMax: real)
    returns (hit: IntersectResult)
    ensures IsClosestHit(scene, roots, tMin, tMax, hit)
    ensures hit.s.None? ==> hit.t == DBL_MAX
  {
    var closestT := DBL_MAX;
    var closestSphere: Option<nat> := None;
    var i := 0;
    while i < |scene|
      invariant 0 <= i <= |scene|
      invariant closestT <= DBL_MAX
      invariant closestSphere.None? ==>
        closestT == DBL_MAX && forall j :: 0 <= j < i ==> Misses(roots(scene[j]), tMin, tMax)
      invariant closestSphere.Some? ==>
        closestSphere.value < i && HitsAt(roots(scene[closestSphere.value]), closestT, tMin, tMax)
      invariant forall j :: 0 <= j < i ==> NoHitBelow(roots(scene[j]), closestT, tMin, tMax)
      invariant closestSphere.Some? ==>
        forall j :: 0 <= j < closestSphere.value ==> AllHitsAbove(roots(scene[j]), closestT, tMin, tMax)
    {
      var result := roots(scene[i]);
      if result.firstT >= tMin && result.firstT < tMax && result.firstT < closestT {
        closestT := result.firstT;
        closestSphere := Some(i);
      }
      if result.secondT >= tMin && result.secondT < tMax && result.secondT < closestT {
        closestT := result.secondT;
        closestSphere := Some(i);
      }
      i := i + 1;
    }
    hit := IntersectResult(closestSphere, closestT);
  }

  /**
   * Whether renderScene has already drawn the pixel at buffer position
   * (px, py) when its loops stand at canvas column x and row y.
   */
  predicate Drawn(px: int, py: int, x: int, y: int, width: nat, height: nat)
  {
    px < ToScreen(x, width) || (px == ToScreen(x, width) && py < ToScreen(y, height))
  }

  /**
   * renderScene: for every canvas column x from -(width/2) up to but not
   * including width/2, and every canvas row y from -(height/2) up to and
   * including height/2, traces the pixel and plots it through putPixel.
   * Afterwards every pixel of the frame left of column 2*(width/2) holds its
   * traced colour; for an odd width the last column is never drawn. The row
   * y = height/2 falls one past the frame for an even height: the corrected
   * putPixel used here drops it, whereas the source's guard lets it through
   * and writes past the end of the buffer (PutPixelGuardAdmitsOutOfFrame).
   * `trace(x, y)` stands for the ray traced through canvas point (x, y).
   */
  method RenderScene(frame: Frame, trace: (int, int) -> Rgb)
    requires frame.Valid()
    modifies frame.pixels
    ensures forall px, py :: InFrame(px, py, frame.width, frame.height) ==>
      0 <= Index(px, py, frame.width) < frame.pixels.Length &&
      frame.pixels[Index(px, py, frame.width)] ==
        if px < 2 * (frame.width / 2) then GetColor(trace(px - frame.width / 2, py - frame.height / 2))
        else old(frame.pixels[Index(px, py, frame.width)])
  {
    var width, height := frame.width, frame.height;
    ghost var initial := frame.pixels[..];
    AllIndicesInFrame(width, height);
    // The source's `-frame.width / 2` truncates towards zero: it is -(width / 2).
    var x := -(width / 2);
    while x < width / 2
      invariant -(width / 2) <= x <= width / 2
      invariant frame.pixels.Length == |initial|
      invariant forall px, py :: InFrame(px, py, width, height) ==>
        frame.pixels[Index(px, py, width)] ==
          if px < ToScreen(x, width) then GetColor(trace(px - width / 2, py - height / 2))
          else initial[Index(px, py, width)]
    {
      var y := -(height / 2);
      while y < height / 2 + 1
        invariant -(height / 2) <= y <= height / 2 + 1
        invariant frame.pixels.Length == |initial|
        invariant forall px, py :: InFrame(px, py, width, height) ==>
          frame.pixels[Index(px, py, width)] ==
            if Drawn(px, py, x, y, width, height) then GetColor(trace(px - width / 2, py - height / 2))
            else initial[Index(px, py, width)]
      {
        var c := trace(x, y);
        ghost var before := frame.pixels[..];
        var _ := frame.PutPixel(x, y, c);
        PlotChangesOnlyTarget(before, width, height, ToScreen(x, width), ToScreen(y, height), GetColor(c));
        y := y + 1;
      }
      x := x + 1;
    }
  }
}
