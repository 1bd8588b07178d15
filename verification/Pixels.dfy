// Pixels, blending and the flat row-major pixel buffer (src/app/terminal_atlas.rs).
module Pixels {
  import opened Common

  datatype Pixel = Pixel(r: Byte, g: Byte, b: Byte, a: Byte)

  type Rgba = n: nat | n < U32_LIMIT

  function Rgba8(color: Rgba): Pixel {
    Pixel(color / 0x1_0000 % 256, color / 0x100 % 256, color % 256, color / 0x100_0000)
  }

  // The four bytes of a colour, alpha first.
  lemma Rgba8Bytes(color: Rgba)
    ensures var p := Rgba8(color); color == p.a * 0x100_0000 + p.r * 0x1_0000 + p.g * 0x100 + p.b
  {
    var high := color / 0x1_0000;
    LowByte(high);
    LowByte(color / 0x100);
    LowByte(color);
  }

  lemma LowByte(n: nat)
    ensures n == n / 0x100 * 0x100 + n % 0x100
    ensures n / 0x100 / 0x100 == n / 0x1_0000 && n / 0x1_0000 / 0x100 == n / 0x100_0000
  {
  }

  // u16 arithmetic of the source: 255 * 255 fits, so nothing wraps.
  function Mix(dst: Byte, fg: Byte, alpha: Byte): (r: Byte)
    ensures Min(dst, fg) <= r <= Max(dst, fg)
    ensures alpha == 0 ==> r == dst
    ensures alpha == 255 ==> r == fg
  {
    MixBetween(dst, fg, alpha);
    (fg * alpha + dst * (255 - alpha)) / 255
  }

  // The alpha-weighted mean of both, rounded down.
  lemma MixIsMean(dst: Byte, fg: Byte, alpha: Byte)
    ensures 255 * Mix(dst, fg, alpha) <= fg * alpha + dst * (255 - alpha) < 255 * (Mix(dst, fg, alpha) + 1)
  {
    MixBetween(dst, fg, alpha);
  }

  lemma MixBetween(dst: Byte, fg: Byte, alpha: Byte)
    ensures 255 * Min(dst, fg) <= fg * alpha + dst * (255 - alpha) <= 255 * Max(dst, fg)
  {
    MulLe(Min(dst, fg), fg, alpha);
    MulLe(Min(dst, fg), dst, 255 - alpha);
    MulLe(fg, Max(dst, fg), alpha);
    MulLe(dst, Max(dst, fg), 255 - alpha);
    assert Min(dst, fg) * alpha + Min(dst, fg) * (255 - alpha) == 255 * Min(dst, fg);
    assert Max(dst, fg) * alpha + Max(dst, fg) * (255 - alpha) == 255 * Max(dst, fg);
  }

  function Blend(dst: Pixel, fg: Pixel, alpha: Byte): Pixel {
    Pixel(Mix(dst.r, fg.r, alpha), Mix(dst.g, fg.g, alpha), Mix(dst.b, fg.b, alpha), 255)
  }

  function CompositeColor(base: Pixel, overlay: Pixel): Pixel {
    Blend(base, overlay, overlay.a)
  }

  // ---------------------------------------------------------------- the flat buffer

  // The column and row of flat index k in a buffer w pixels wide.
  function ColOf(k: nat, w: nat): nat
    requires w > 0
  {
    k % w
  }

  function RowOf(k: nat, w: nat): nat
    requires w > 0
  {
    k / w
  }

  // y * w + x is inside a w-by-h buffer and is the only index at column x and row y.
  lemma FlatIndex(w: nat, h: nat, x: nat, y: nat)
    requires x < w && y < h
    ensures 0 <= y * w + x < w * h
    ensures ColOf(y * w + x, w) == x && RowOf(y * w + x, w) == y
    ensures forall k: nat :: ColOf(k, w) == x && RowOf(k, w) == y ==> k == y * w + x
  {
    MulLe(y + 1, h, w);
    assert y * w + x < (y + 1) * w;
    DivModUnique(y * w + x, w, y, x);
    forall k: nat | ColOf(k, w) == x && RowOf(k, w) == y ensures k == y * w + x {
      assert k == (k / w) * w + k % w;
    }
  }

  lemma DivModUnique(k: nat, w: nat, q: nat, r: nat)
    requires w > 0 && r < w && k == q * w + r
    ensures k / w == q && k % w == r
  {
    assert k == (k / w) * w + k % w;
    LessFromProducts(k / w, q + 1, w);
    LessFromProducts(q, k / w + 1, w);
  }

  lemma FlatRow(w: nat, h: nat, k: nat)
    requires w > 0 && k < w * h
    ensures ColOf(k, w) < w && RowOf(k, w) < h
  {
    assert k == (k / w) * w + k % w;
    LessFromProducts(k / w, h, w);
  }
}
