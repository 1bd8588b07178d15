// The pixel loops of the terminal atlas, in place on the flat pixel buffer, each proved to act on every
// pixel as its one-pixel function in AtlasPaint says (src/app/terminal_atlas.rs).
module AtlasBlits {
  import opened Common
  import opened Pixels
  import opened ImageDrawRect
  import opened AtlasPaint

  // A row-by-row sweep of the columns x0..x1 starting at row y0 has passed (x, y) on its way to (cx, cy).
  predicate Swept(x0: nat, x1: nat, y0: nat, cx: nat, cy: nat, x: nat, y: nat) {
    x0 <= x < x1 && y0 <= y && (y < cy || (y == cy && x < cx))
  }

  method FillViewportBackgroundSpan(pixels: array<Pixel>, cv: Canvas, w: nat, startY: nat, height: nat,
                                    top: Pixel, bottom: Pixel)
    requires w > 0 && pixels.Length == w * cv.height
    modifies pixels
    ensures forall k :: 0 <= k < pixels.Length ==>
              pixels[k] == FillSpan(cv, startY, height, top, bottom, RowOf(k, w), old(pixels[k]))
  {
    var first := Min(startY, cv.height);
    var end := Min(startY + height, cv.height);
    var y := first;
    while y < end
      invariant first <= y
      invariant y <= end || y == first
      invariant forall k :: 0 <= k < pixels.Length ==>
                  pixels[k] == if Swept(0, w, first, 0, y, ColOf(k, w), RowOf(k, w))
                               then GradientColor(cv, top, bottom, RowOf(k, w)) else old(pixels[k])
    {
      var color := GradientColor(cv, top, bottom, y);
      for x := 0 to w
        invariant forall k :: 0 <= k < pixels.Length ==>
                    pixels[k] == if Swept(0, w, first, x, y, ColOf(k, w), RowOf(k, w))
                                 then GradientColor(cv, top, bottom, RowOf(k, w)) else old(pixels[k])
      {
        FlatIndex(w, cv.height, x, y);
        pixels[y * w + x] := color;
      }
      y := y + 1;
    }
    forall k | 0 <= k < pixels.Length ensures RowOf(k, w) < cv.height && ColOf(k, w) < w {
      FlatRow(w, cv.height, k);
    }
  }

  method FillRect(pixels: array<Pixel>, w: nat, h: nat, rect: Rect, color: Pixel)
    requires w > 0 && pixels.Length == w * h
    modifies pixels
    ensures forall k :: 0 <= k < pixels.Length ==>
              pixels[k] == Fill(rect, color, ColOf(k, w), RowOf(k, w), old(pixels[k]))
  {
    var startX, endX := Min(rect.startX, w), Min(rect.startX + rect.width, w);
    var startY, endY := Min(rect.startY, h), Min(rect.startY + rect.height, h);
    var y := startY;
    while y < endY
      invariant startY <= y
      invariant y <= endY || y == startY
      invariant forall k :: 0 <= k < pixels.Length ==>
                  pixels[k] == if Swept(startX, endX, startY, 0, y, ColOf(k, w), RowOf(k, w))
                               then color else old(pixels[k])
    {
      var x := startX;
      while x < endX
        invariant startX <= x
        invariant x <= endX || x == startX
        invariant forall k :: 0 <= k < pixels.Length ==>
                    pixels[k] == if Swept(startX, endX, startY, x, y, ColOf(k, w), RowOf(k, w))
                                 then color else old(pixels[k])
      {
        FlatIndex(w, h, x, y);
        pixels[y * w + x] := color;
        x := x + 1;
      }
      y := y + 1;
    }
    forall k | 0 <= k < pixels.Length ensures RowOf(k, w) < h && ColOf(k, w) < w {
      FlatRow(w, h, k);
    }
  }

  // One pixel row of BlitSprite, up to the clipped right edge.
  method BlitSpriteRow(pixels: array<Pixel>, w: nat, h: nat, cellX: nat, rowY: nat, sprite: Sprite, fg: Pixel, y: nat)
    requires w > 0 && pixels.Length == w * h && SpriteOk(sprite)
    requires rowY <= y < h && y < rowY + sprite.height
    modifies pixels
    ensures forall k :: 0 <= k < pixels.Length ==>
              pixels[k] == if RowOf(k, w) == y
                           then Blit(sprite, cellX, rowY, fg, ColOf(k, w), RowOf(k, w), old(pixels[k]))
                           else old(pixels[k])
  {
    var startX := Min(cellX, w);
    var endX := Min(startX + sprite.width, w);
    forall k | 0 <= k < pixels.Length ensures ColOf(k, w) < w {
      FlatRow(w, h, k);
    }
    var x := startX;
    while x < endX
      invariant startX <= x
      invariant forall k :: 0 <= k < pixels.Length ==>
                  pixels[k] == if RowOf(k, w) == y && startX <= ColOf(k, w) < x
                               then Blit(sprite, cellX, rowY, fg, ColOf(k, w), RowOf(k, w), old(pixels[k]))
                               else old(pixels[k])
    {
      FlatIndex(w, h, x, y);
      SpriteIndex(sprite.width, sprite.height, x - startX, y - rowY);
      var at := (y - rowY) * sprite.width + (x - startX);
      match sprite {
        case MonoAlpha(_, _, alpha) =>
          if alpha[at] != 0 {
            pixels[y * w + x] := Blend(pixels[y * w + x], fg, alpha[at]);
          }
        case ColorRgba(_, _, rgba) =>
          if rgba[at].a != 0 {
            pixels[y * w + x] := Blend(pixels[y * w + x], rgba[at], rgba[at].a);
          }
      }
      x := x + 1;
    }
  }

  method BlitSprite(pixels: array<Pixel>, w: nat, h: nat, cellX: nat, rowY: nat, sprite: Sprite, fg: Pixel)
    requires w > 0 && pixels.Length == w * h && SpriteOk(sprite)
    modifies pixels
    ensures forall k :: 0 <= k < pixels.Length ==>
              pixels[k] == Blit(sprite, cellX, rowY, fg, ColOf(k, w), RowOf(k, w), old(pixels[k]))
  {
    var startY := Min(rowY, h);
    var endY := Min(startY + sprite.height, h);
    forall k | 0 <= k < pixels.Length ensures RowOf(k, w) < h {
      FlatRow(w, h, k);
    }
    var y := startY;
    while y < endY
      invariant startY <= y
      invariant forall k :: 0 <= k < pixels.Length ==>
                  pixels[k] == if startY <= RowOf(k, w) < y
                               then Blit(sprite, cellX, rowY, fg, ColOf(k, w), RowOf(k, w), old(pixels[k]))
                               else old(pixels[k])
    {
      BlitSpriteRow(pixels, w, h, cellX, rowY, sprite, fg, y);
      y := y + 1;
    }
  }

  // One destination row of BlitTerminalImage.
  method BlitImageRow(pixels: array<Pixel>, w: nat, h: nat, resource: Resource, d: DrawRect, dy: nat)
    requires w > 0 && pixels.Length == w * h && ResourceOk(resource)
    requires dy < d.destHeight && d.destY + dy < h
    modifies pixels
    ensures forall k :: 0 <= k < pixels.Length ==>
              pixels[k] == if RowOf(k, w) == d.destY + dy
                           then BlitImage(resource, d, ColOf(k, w), RowOf(k, w), old(pixels[k])) else old(pixels[k])
  {
    var sourceY := SourceIndex(d.uv.top, d.uv.bottom, dy, d.destHeight, resource.height);
    var y := d.destY + dy;
    forall k | 0 <= k < pixels.Length ensures ColOf(k, w) < w {
      FlatRow(w, h, k);
    }
    for dx := 0 to d.destWidth
      invariant forall k :: 0 <= k < pixels.Length ==>
                  pixels[k] == if RowOf(k, w) == y && ColOf(k, w) < d.destX + dx
                               then BlitImage(resource, d, ColOf(k, w), RowOf(k, w), old(pixels[k]))
                               else old(pixels[k])
    {
      var sourceX := SourceIndex(d.uv.left, d.uv.right, dx, d.destWidth, resource.width);
      var x := d.destX + dx;
      if x < w {
        FlatIndex(w, h, x, y);
        var source := ResourcePixel(resource, sourceX, sourceY);
        if source.a != 0 {
          pixels[y * w + x] := Blend(pixels[y * w + x], source, source.a);
        }
      }
    }
  }

  method BlitTerminalImage(pixels: array<Pixel>, w: nat, h: nat, resource: Resource, d: DrawRect)
    requires w > 0 && pixels.Length == w * h
    modifies pixels
    ensures forall k :: 0 <= k < pixels.Length ==>
              pixels[k] == BlitImage(resource, d, ColOf(k, w), RowOf(k, w), old(pixels[k]))
  {
    if resource.width == 0 || resource.height == 0 || |resource.rgba| < resource.width * resource.height * 4
       || d.destWidth == 0 || d.destHeight == 0
    {
      return;
    }
    forall k | 0 <= k < pixels.Length ensures RowOf(k, w) < h {
      FlatRow(w, h, k);
    }
    for dy := 0 to d.destHeight
      invariant forall k :: 0 <= k < pixels.Length ==>
                  pixels[k] == if RowOf(k, w) < d.destY + dy
                               then BlitImage(resource, d, ColOf(k, w), RowOf(k, w), old(pixels[k]))
                               else old(pixels[k])
    {
      if d.destY + dy < h {
        BlitImageRow(pixels, w, h, resource, d, dy);
      }
    }
  }
}
