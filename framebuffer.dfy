/**
 * The window's framebuffer: `width * height` packed 0x00RRGGBB words stored
 * row by row, and the two pixel writers. putPixelRawVal addresses pixels from
 * the buffer's origin; putPixel first moves the origin to the screen centre.
 * Both drop a write whose position lies outside the frame.
 */
module Framebuffer {
  import opened Types
  import opened Color

  /** Row-major position of pixel (x, y) in a buffer `width` pixels wide. */
  function Index(x: int, y: int, width: int): int
  {
    y * width + x
  }

  predicate InFrame(x: int, y: int, width: int, height: int)
  {
    0 <= x < width && 0 <= y < height
  }

  /** Every pixel inside the frame has its own slot inside the buffer. */
  lemma IndexInFrame(x: int, y: int, width: int, height: int)
    requires InFrame(x, y, width, height)
    ensures 0 <= Index(x, y, width) < width * height
  {
    MulMono(y + 1, height, width);
    assert Index(x, y, width) < (y + 1) * width;
  }

  lemma AllIndicesInFrame(width: int, height: int)
    ensures forall x, y :: InFrame(x, y, width, height) ==> 0 <= Index(x, y, width) < width * height
  {
    forall x, y | InFrame(x, y, width, height)
      ensures 0 <= Index(x, y, width) < width * height
    {
      IndexInFrame(x, y, width, height);
    }
  }

  /** No two pixels inside the frame share a slot. */
  lemma IndexInjective(x1: int, y1: int, x2: int, y2: int, width: int, height: int)
    requires InFrame(x1, y1, width, height) && InFrame(x2, y2, width, height)
    ensures Index(x1, y1, width) == Index(x2, y2, width) <==> x1 == x2 && y1 == y2
  {
    if y1 < y2 {
      MulMono(y1 + 1, y2, width);
    } else if y2 < y1 {
      MulMono(y2 + 1, y1, width);
    }
  }

  /** putPixel's change of origin along one axis: coordinate 0 lands on `size / 2`. */
  function ToScreen(x: int, size: int): int
    requires size >= 0
  {
    x + size / 2
  }

  /** The bounds test of putPixelRawVal as the source writes it: only the upper bounds. */
  predicate RawGuardAsWritten(x: int, y: int, width: int, height: int)
  {
    !(x >= width || y >= height)
  }

  /** The bounds test of putPixel as the source writes it, with `>` on the upper bounds. */
  predicate PutPixelGuardAsWritten(offsetX: int, offsetY: int, width: int, height: int)
  {
    !(offsetX > width || offsetY > height || offsetX < 0 || offsetY < 0)
  }

  /**
   * The buffer after writing `v` at (x, y), buffer origin, when (x, y) lies in
   * the frame; otherwise the buffer unchanged.
   */
  function Plot(pixels: seq<uint32>, width: int, height: int, x: int, y: int, v: uint32): (r: seq<uint32>)
    requires 0 <= width && 0 <= height && |pixels| == width * height
    ensures |r| == |pixels|
  {
    if InFrame(x, y, width, height) then
      IndexInFrame(x, y, width, height);
      pixels[Index(x, y, width) := v]
    else
      pixels
  }

  /**
   * Plot changes the pixel at (x, y) to `v` when it is in the frame and leaves
   * every other pixel of the frame as it was.
   */
  lemma PlotChangesOnlyTarget(pixels: seq<uint32>, width: int, height: int, x: int, y: int, v: uint32)
    requires 0 <= width && 0 <= height && |pixels| == width * height
    ensures forall px, py :: InFrame(px, py, width, height) ==>
      0 <= Index(px, py, width) < |pixels| &&
      Plot(pixels, width, height, x, y, v)[Index(px, py, width)] ==
        if px == x && py == y then v else pixels[Index(px, py, width)]
  {
    forall px, py | InFrame(px, py, width, height)
      ensures 0 <= Index(px, py, width) < |pixels|
      ensures Plot(pixels, width, height, x, y, v)[Index(px, py, width)] ==
        if px == x && py == y then v else pixels[Index(px, py, width)]
    {
      IndexInFrame(px, py, width, height);
      if InFrame(x, y, width, height) {
        IndexInjective(px, py, x, y, width, height);
      }
    }
  }

  /**
   * The as-written putPixel guard accepts exactly the in-frame offsets plus
   * those on the column `width` or the row `height` just past the frame.
   */
  lemma PutPixelGuardGap(offsetX: int, offsetY: int, width: int, height: int)
    ensures PutPixelGuardAsWritten(offsetX, offsetY, width, height) <==>
      InFrame(offsetX, offsetY, width, height) ||
      (0 <= offsetX <= width && 0 <= offsetY <= height && (offsetX == width || offsetY == height))
  {
  }

  /**
   * Counterexample to the as-written putPixel guard: with an even height the
   * centre-origin point (0, height/2) passes the guard, yet its slot lies at
   * or past the end of the buffer; and an offset equal to the width on row r
   * aliases the first pixel of row r + 1.
   */
  lemma PutPixelGuardAdmitsOutOfFrame(width: int, height: int, row: int)
    requires width >= 1 && height >= 2 && height % 2 == 0
    requires 0 <= row < height - 1
    ensures PutPixelGuardAsWritten(ToScreen(0, width), ToScreen(height / 2, height), width, height)
    ensures Index(ToScreen(0, width), ToScreen(height / 2, height), width) >= width * height
    ensures PutPixelGuardAsWritten(width, row, width, height)
    ensures Index(width, row, width) == Index(0, row + 1, width)
  {
    assert ToScreen(height / 2, height) == height;
  }

  /**
   * Counterexample to the as-written putPixelRawVal guard: (-1, 0) passes it,
   * yet its slot is before the start of the buffer.
   */
  lemma RawGuardAdmitsNegative(width: int, height: int)
    requires width >= 1 && height >= 1
    ensures RawGuardAsWritten(-1, 0, width, height)
    ensures Index(-1, 0, width) < 0
  {
  }

  /** The frame the renderer draws into; the pixel words are updated in place. */
  class Frame {
    var width: int
    var height: int
    var pixels: array<uint32>

    ghost predicate Valid()
      reads this
    {
      0 <= width && 0 <= height && pixels.Length == width * height
    }

    constructor (width: nat, height: nat)
      ensures Valid() && this.width == width && this.height == height && fresh(pixels)
    {
      this.width := width;
      this.height := height;
      pixels := new uint32[width * height];
    }

    /**
     * putPixelRawVal: stores the packed colour at (x, y), counted from the
     * buffer's origin, when that position is in the frame; otherwise reports
     * the position and changes nothing.
     */
    method PutPixelRawVal(x: int, y: int, c: Rgb) returns (written: bool)
      requires Valid()
      modifies pixels
      ensures written <==> InFrame(x, y, width, height)
      ensures pixels[..] == Plot(old(pixels[..]), width, height, x, y, GetColor(c))
    {
      if x >= width || y >= height || x < 0 || y < 0 {
        written := false;
        return;
      }
      IndexInFrame(x, y, width, height);
      pixels[y * width + x] := GetColor(c);
      written := true;
    }

    /**
     * putPixel: shifts (x, y) from centre origin to buffer origin and stores
     * the packed colour there when the shifted position is in the frame;
     * otherwise reports the position and changes nothing.
     */
    method PutPixel(x: int, y: int, c: Rgb) returns (written: bool)
      requires Valid()
      modifies pixels
      ensures written <==> InFrame(ToScreen(x, width), ToScreen(y, height), width, height)
      ensures pixels[..] == Plot(old(pixels[..]), width, height, ToScreen(x, width), ToScreen(y, height), GetColor(c))
    {
      var offsetX := x + width / 2;
      var offsetY := y + height / 2;
      if offsetX >= width || offsetY >= height || offsetX < 0 || offsetY < 0 {
        written := false;
        return;
      }
      IndexInFrame(offsetX, offsetY, width, height);
      pixels[offsetY * width + offsetX] := GetColor(c);
      written := true;
    }
  }
}
