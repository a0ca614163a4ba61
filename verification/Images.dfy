/** Rectangles and images of the compositor (crates/orbital/rect.rs, image.rs, font.rs). */
module Images {
  import opened Common

  /** 0xAARRGGBB. */
  type Color = bv32

  function Max(a: int, b: int): int { if a < b then b else a }

  datatype Rect = Rect(x: int, y: int, w: nat, h: nat)
  {
    function Area(): nat { w * h }
    function Left(): int { x }
    function Right(): int { x + w }
    function Top(): int { y }
    function Bottom(): int { y + h }

    predicate IsEmpty() { w == 0 || h == 0 }

    /** The pixels a drawing operation on this rectangle touches. */
    predicate Covers(px: int, py: int) {
      Left() <= px < Right() && Top() <= py < Bottom()
    }

    /** The hit test for the mouse, which includes the right and bottom edges. */
    predicate Contains(px: int, py: int) {
      Left() <= px <= Right() && Top() <= py <= Bottom()
    }

    function Container(other: Rect): (r: Rect)
      ensures forall px, py :: Covers(px, py) || other.Covers(px, py) ==> r.Covers(px, py)
    {
      var left, right := Min(Left(), other.Left()), Max(Right(), other.Right());
      var top, bottom := Min(Top(), other.Top()), Max(Bottom(), other.Bottom());
      Rect(left, top, right - left, bottom - top)
    }

    function Intersection(other: Rect): (r: Rect)
      ensures forall px, py :: r.Covers(px, py) <==> Covers(px, py) && other.Covers(px, py)
      ensures !r.IsEmpty() ==> Left() <= r.Left() && r.Right() <= Right() && Top() <= r.Top() && r.Bottom() <= Bottom()
      ensures !r.IsEmpty() ==> other.Left() <= r.Left() && r.Right() <= other.Right()
      ensures !r.IsEmpty() ==> other.Top() <= r.Top() && r.Bottom() <= other.Bottom()
      ensures r.IsEmpty() ==> forall px, py :: !r.Covers(px, py)
    {
      var left, right := Max(Left(), other.Left()), Min(Right(), other.Right());
      var top, bottom := Max(Top(), other.Top()), Min(Bottom(), other.Bottom());
      Rect(left, top, Max(0, right - left), Max(0, bottom - top))
    }

    function Offset(dx: int, dy: int): Rect {
      Rect(x + dx, y + dy, w, h)
    }

    /** The rectangle lies inside an image of the given size. */
    predicate Inside(width: nat, height: nat) {
      0 <= x && 0 <= y && x + w <= width && y + h <= height
    }
  }

  // ---------------------------------------------------------------- pixel positions

  /** Column and row of the `i`th pixel of an image `w` pixels wide. */
  function X(i: nat, w: nat): nat { if w == 0 then 0 else i % w }
  function Y(i: nat, w: nat): nat { if w == 0 then 0 else i / w }

  lemma MulGrows(a: nat, b: nat, w: nat)
    requires a <= b
    ensures a * w <= b * w
  {
    assert (b - a) * w >= 0;
    assert (b - a) * w == b * w - a * w;
  }

  lemma Position(x: nat, y: nat, w: nat, h: nat)
    requires x < w && y < h
    ensures 0 <= y * w + x < w * h
    ensures X(y * w + x, w) == x && Y(y * w + x, w) == y
  {
    MulGrows(y + 1, h, w);
    assert (y + 1) * w == y * w + w;
    DivIs(y * w + x, w, y, x);
  }

  lemma DivIs(i: nat, w: nat, q: nat, r: nat)
    requires r < w && i == q * w + r
    ensures i / w == q && i % w == r
  {
    var p := i / w;
    assert i == p * w + i % w;
    assert (p + 1) * w == p * w + w && (q + 1) * w == q * w + w;
    if p < q {
      MulGrows(p + 1, q, w);
    } else if p > q {
      MulGrows(q + 1, p, w);
    }
  }

  lemma InBounds(i: nat, w: nat, h: nat)
    requires i < w * h
    ensures X(i, w) < w && Y(i, w) < h && i == Y(i, w) * w + X(i, w)
  {
    assert i == (i / w) * w + i % w;
    if h <= i / w {
      MulGrows(h, i / w, w);
    }
  }

  /** Every other pixel has another position. */
  lemma OnlyAt(x: nat, y: nat, w: nat, h: nat)
    requires x < w && y < h
    ensures forall i: nat {:trigger X(i, w)} :: i < w * h && X(i, w) == x && Y(i, w) == y ==> i == y * w + x
  {
    forall i: nat | i < w * h && X(i, w) == x && Y(i, w) == y
      ensures i == y * w + x
    {
      InBounds(i, w, h);
    }
  }

  // ---------------------------------------------------------------- images

  datatype Picture = Picture(w: nat, h: nat, data: seq<Color>)
  {
    predicate Valid() {
      |data| == w * h
    }

    function At(x: int, y: int): Color
      requires Valid() && 0 <= x < w && 0 <= y < h
    {
      Position(x, y, w, h);
      data[y * w + x]
    }
  }

  function Alpha(c: Color): Color { (c >> 24) & 0xFF }

  /** The lowest channel of a colour, scaled by `k` 256ths. */
  function Scaled(c: Color, k: Color): Color {
    ((c & 0xFF) * k) >> 8
  }

  function Mix(fg: Color, bg: Color): Color {
    var a, na := Alpha(fg), 255 - Alpha(fg);
    ((Scaled(bg >> 16, na) << 16) | (Scaled(bg >> 8, na) << 8) | Scaled(bg, na))
    + ((Scaled(fg >> 16, a) << 16) | (Scaled(fg >> 8, a) << 8) | Scaled(fg, a))
  }

  /** Painting `fg` over `bg`: opaque replaces, transparent keeps, the rest mixes. */
  function Blend(bg: Color, fg: Color): Color {
    if Alpha(fg) >= 255 then fg else if Alpha(fg) > 0 then Mix(fg, bg) else bg
  }

  function Rgb(r: bv8, g: bv8, b: bv8): Color {
    0xFF000000 | ((r as Color) << 16) | ((g as Color) << 8) | (b as Color)
  }

  /** A pixel copied or blended from `src`, whose pixel `(sx, sy)` lies on the rectangle's corner. */
  function CopiedAt(rect: Rect, src: Picture, sx: nat, sy: nat, x: int, y: int, under: Color): Color
    requires src.Valid() && sx + rect.w <= src.w && sy + rect.h <= src.h
  {
    if rect.Covers(x, y) then src.At(sx + x - rect.x, sy + y - rect.y) else under
  }

  function BlendedAt(rect: Rect, src: Picture, sx: nat, sy: nat, x: int, y: int, under: Color): Color
    requires src.Valid() && sx + rect.w <= src.w && sy + rect.h <= src.h
  {
    if rect.Covers(x, y) then Blend(under, src.At(sx + x - rect.x, sy + y - rect.y)) else under
  }

  /** The pixels of `rect` already visited when row `row` has been done up to column `col`. */
  predicate Visited(rect: Rect, row: nat, col: nat, x: int, y: int) {
    rect.Covers(x, y) && (y < rect.y + row || (y == rect.y + row && x < rect.x + col))
  }

  /** Copy a part of `src` over `rect`, row by row. */
  method Blit(image: array<Color>, w: nat, h: nat, rect: Rect, src: Picture, sx: nat, sy: nat)
    requires image.Length == w * h && rect.Inside(w, h)
    requires src.Valid() && sx + rect.w <= src.w && sy + rect.h <= src.h
    modifies image
    ensures forall i :: 0 <= i < image.Length ==>
              image[i] == CopiedAt(rect, src, sx, sy, X(i, w), Y(i, w), old(image[i]))
  {
    hide X, Y;
    for row := 0 to rect.h
      invariant forall i :: 0 <= i < image.Length ==>
                  image[i] == if Visited(rect, row, 0, X(i, w), Y(i, w))
                              then src.At(sx + X(i, w) - rect.x, sy + Y(i, w) - rect.y) else old(image[i])
    {
      for col := 0 to rect.w
        invariant forall i :: 0 <= i < image.Length ==>
                    image[i] == if Visited(rect, row, col, X(i, w), Y(i, w))
                                then src.At(sx + X(i, w) - rect.x, sy + Y(i, w) - rect.y) else old(image[i])
      {
        var x, y := rect.x + col, rect.y + row;
        Position(x, y, w, h);
        OnlyAt(x, y, w, h);
        image[y * w + x] := src.At(sx + col, sy + row);
      }
    }
  }

  /** Blend a part of `src` over `rect`. */
  method BlendRoi(image: array<Color>, w: nat, h: nat, rect: Rect, src: Picture, sx: nat, sy: nat)
    requires image.Length == w * h && rect.Inside(w, h)
    requires src.Valid() && sx + rect.w <= src.w && sy + rect.h <= src.h
    modifies image
    ensures forall i :: 0 <= i < image.Length ==>
              image[i] == BlendedAt(rect, src, sx, sy, X(i, w), Y(i, w), old(image[i]))
  {
    hide X, Y, Blend;
    for row := 0 to rect.h
      invariant forall i :: 0 <= i < image.Length ==>
                  image[i] == if Visited(rect, row, 0, X(i, w), Y(i, w))
                              then Blend(old(image[i]), src.At(sx + X(i, w) - rect.x, sy + Y(i, w) - rect.y))
                              else old(image[i])
    {
      for col := 0 to rect.w
        invariant forall i :: 0 <= i < image.Length ==>
                    image[i] == if Visited(rect, row, col, X(i, w), Y(i, w))
                                then Blend(old(image[i]), src.At(sx + X(i, w) - rect.x, sy + Y(i, w) - rect.y))
                                else old(image[i])
      {
        var x, y := rect.x + col, rect.y + row;
        Position(x, y, w, h);
        OnlyAt(x, y, w, h);
        image[y * w + x] := Blend(image[y * w + x], src.At(sx + col, sy + row));
      }
    }
  }

  /** Paint `rect` in one colour. */
  method SetRoi(image: array<Color>, w: nat, h: nat, rect: Rect, color: Color)
    requires image.Length == w * h && rect.Inside(w, h)
    modifies image
    ensures forall i :: 0 <= i < image.Length ==>
              image[i] == if rect.Covers(X(i, w), Y(i, w)) then Blend(old(image[i]), color) else old(image[i])
  {
    hide X, Y, Blend;
    for row := 0 to rect.h
      invariant forall i :: 0 <= i < image.Length ==>
                  image[i] == if Visited(rect, row, 0, X(i, w), Y(i, w))
                              then Blend(old(image[i]), color) else old(image[i])
    {
      for col := 0 to rect.w
        invariant forall i :: 0 <= i < image.Length ==>
                    image[i] == if Visited(rect, row, col, X(i, w), Y(i, w))
                                then Blend(old(image[i]), color) else old(image[i])
      {
        var x, y := rect.x + col, rect.y + row;
        Position(x, y, w, h);
        OnlyAt(x, y, w, h);
        image[y * w + x] := Blend(image[y * w + x], color);
      }
    }
  }

  // ---------------------------------------------------------------- glyphs

  const GLYPH_W := 8
  const GLYPH_H := 16

  /** The bitmap font: sixteen bytes a character, one bit a pixel. */
  datatype Font = Font(bytes: seq<bv8>)
  {
    predicate Bit(ch: nat, row: nat, col: nat)
      requires row < GLYPH_H && col < GLYPH_W
    {
      16 * ch + 16 <= |bytes| && (bytes[16 * ch + row] >> ((7 - col) as bv4)) & 1 == 1
    }

    function Render(ch: nat, color: Color): (p: Picture)
      ensures p.Valid() && p.w == GLYPH_W && p.h == GLYPH_H
    {
      Picture(GLYPH_W, GLYPH_H,
        seq(GLYPH_W * GLYPH_H, i requires 0 <= i < GLYPH_W * GLYPH_H =>
          if Bit(ch, i / 8, i % 8) then color else 0))
    }
  }
}
