// The terminal atlas renderer as the stateful object the source declares: a pixel array updated in
// place, row hashes, a sprite cache and signature fields, proved against AtlasIncremental.Render.
module AtlasRenderer {
  import opened Common
  import opened Pixels
  import opened ImageDrawRect
  import opened AtlasPaint
  import opened AtlasIncremental
  import opened AtlasBlits

  class TerminalAtlasRenderer {
    const foreign: Foreign
    const logical: Metrics
    var metrics: Metrics
    var scale: real
    var spriteCache: map<ClusterKey, Sprite>
    var rowKeys: seq<Option<RowKey>>
    var pixels: array<Pixel>
    var width: nat
    var height: nat
    var background: Option<Background>
    var images: Option<Fingerprint>

    ghost function Abs(): Atlas
      reads this, pixels
    {
      Atlas(logical, metrics, scale, width, height, pixels[..], rowKeys, background, images)
    }

    // A cached sprite is the one the rasteriser gives at the current size.
    ghost predicate CacheIsSound()
      reads this
    {
      forall key :: key in spriteCache ==> spriteCache[key] == foreign.sprite(metrics, scale, key)
    }

    ghost predicate Valid()
      reads this, pixels
    {
      Inv(foreign, Abs()) && CacheIsSound()
    }

    constructor (foreign: Foreign, logical: Metrics)
      requires SpritesFit(foreign) && LogicalOk(logical)
      ensures Valid() && Abs() == NewAtlas(logical) && this.foreign == foreign && fresh(pixels)
    {
      this.foreign, this.logical, metrics, scale := foreign, logical, logical, 1.0;
      spriteCache, rowKeys, background, images := map[], [], None, None;
      pixels := new Pixel[0];
      width, height := 0, 0;
    }

    // Forgets everything derived from the scale, whatever it was.
    method Forget()
      modifies this
      ensures Abs() == AtlasIncremental.ClearTransientCaches(old(Abs())) && fresh(pixels)
      ensures spriteCache == map[]
    {
      spriteCache := map[];
      rowKeys := [];
      pixels := new Pixel[0];
      width, height := 0, 0;
      background, images := None, None;
    }

    method ClearTransientCaches()
      requires Valid()
      modifies this
      ensures Valid() && Abs() == AtlasIncremental.ClearTransientCaches(old(Abs())) && fresh(pixels)
    {
      Forget();
    }

    method SetRasterScale(requested: Option<real>)
      requires Valid()
      modifies this
      ensures Valid() && Abs() == AtlasIncremental.SetRasterScale(old(Abs()), requested)
      ensures pixels == old(pixels) || fresh(pixels)
    {
      var next := SanitizeScale(requested);
      if -0.01 < next - scale < 0.01 {
        return;
      }
      SetScaleKeepsInv(foreign, Abs(), requested);
      scale := next;
      metrics := ScaleMetrics(logical, next);
      Forget();
    }

    method EnsureClusterSprite(key: ClusterKey) returns (sprite: Sprite)
      requires CacheIsSound()
      modifies this`spriteCache
      ensures CacheIsSound() && sprite == foreign.sprite(metrics, scale, key)
    {
      if key !in spriteCache {
        spriteCache := spriteCache[key := foreign.sprite(metrics, scale, key)];
      }
      sprite := spriteCache[key];
    }

    ghost predicate Sized()
      reads this, pixels
    {
      && width > 0 && pixels.Length == width * height
      && CanvasOk(Canvas(foreign, metrics, scale, height))
    }

    method RenderRowBackground(key: RowKey, row: nat)
      requires Sized()
      modifies pixels
      ensures forall k :: 0 <= k < pixels.Length ==>
                pixels[k] == PaintRowBackground(Canvas(foreign, metrics, scale, height), key, row,
                                                ColOf(k, width), RowOf(k, width), old(pixels[k]))
    {
      var cv := Canvas(foreign, metrics, scale, height);
      FillViewportBackgroundSpan(pixels, cv, width, RowY(cv, row), metrics.cellHeight,
                                 Rgba8(key.backgroundTop), Rgba8(key.backgroundBottom));
      if key.selection.Some? {
        FillRect(pixels, width, height, SelectionRect(cv, row, key.selection.value),
                 CompositeColor(RowColor(cv, key, row), Rgba8(key.overlay)));
      }
      assert forall k :: 0 <= k < pixels.Length ==>
               pixels[k] == PaintRowBase(cv, key, row, ColOf(k, width), RowOf(k, width), old(pixels[k]));
      for i := 0 to |key.cells|
        invariant forall k :: 0 <= k < pixels.Length ==>
                    pixels[k] == PaintCellBackgrounds(cv, key, row, i, ColOf(k, width), RowOf(k, width),
                                   PaintRowBase(cv, key, row, ColOf(k, width), RowOf(k, width), old(pixels[k])))
      {
        var cell := key.cells[i];
        if IsSelected(key, cell) || cell.bg != key.defaultBg {
          FillRect(pixels, width, height, CellRect(cv, row, cell), ShownBackground(cv, key, row, cell));
        }
      }
    }

    method RenderCellForeground(key: RowKey, row: nat, cell: CellKey)
      requires Sized() && CacheIsSound()
      modifies this`spriteCache, pixels
      ensures CacheIsSound()
      ensures forall k :: 0 <= k < pixels.Length ==>
                pixels[k] == PaintCellForeground(Canvas(foreign, metrics, scale, height), key, row, cell,
                                                 ColOf(k, width), RowOf(k, width), old(pixels[k]))
    {
      var cv := Canvas(foreign, metrics, scale, height);
      var color := ShownForeground(cv, key, row, cell);
      if cell.underline {
        FillRect(pixels, width, height, UnderlineRect(cv, row, cell), color);
      }
      if !IsBlank(cell.text) {
        var sprite := EnsureClusterSprite(ClusterKey(cell.text, Span(cell), cell.bold));
        BlitSprite(pixels, width, height, cell.col * metrics.cellWidth, RowY(cv, row), sprite, color);
      }
    }

    method RenderRowForeground(key: RowKey, row: nat)
      requires Sized() && CacheIsSound()
      modifies this`spriteCache, pixels
      ensures CacheIsSound()
      ensures forall k :: 0 <= k < pixels.Length ==>
                pixels[k] == PaintRowForeground(Canvas(foreign, metrics, scale, height), key, row, |key.cells|,
                                                ColOf(k, width), RowOf(k, width), old(pixels[k]))
    {
      ghost var cv := Canvas(foreign, metrics, scale, height);
      for i := 0 to |key.cells|
        invariant CacheIsSound()
        invariant forall k :: 0 <= k < pixels.Length ==>
                    pixels[k] == PaintRowForeground(cv, key, row, i, ColOf(k, width), RowOf(k, width), old(pixels[k]))
      {
        RenderCellForeground(key, row, key.cells[i]);
      }
    }

    method RenderTerminalImages(surface: Surface, below: bool)
      requires Sized()
      modifies pixels
      ensures forall k :: 0 <= k < pixels.Length ==>
                pixels[k] == PaintPlacements(metrics, surface, Layer(surface, below),
                                             ColOf(k, width), RowOf(k, width), old(pixels[k]))
    {
      var layer := Layer(surface, below);
      for i := 0 to |layer|
        invariant forall k :: 0 <= k < pixels.Length ==>
                    pixels[k] == PaintPlacements(metrics, surface, layer[..i], ColOf(k, width), RowOf(k, width), old(pixels[k]))
      {
        assert layer[..i + 1][..i] == layer[..i];
        var resource := LookUp(surface.imageResources, layer[i].resourceKey);
        var rect := TerminalImageDrawRect(layer[i], surface.rows, surface.cols, metrics.cellWidth, metrics.cellHeight);
        if resource.Some? && rect.Some? {
          BlitTerminalImage(pixels, width, height, resource.value, rect.value);
        }
      }
      assert layer[..|layer|] == layer;
    }

    // Resize, drop or cut the row hashes and restore the viewport background where the source does.
    method PrepareFrame(surface: Surface)
      requires Valid()
      modifies this, pixels
      ensures metrics == old(metrics) && scale == old(scale) && images == old(images)
      ensures width == NextWidth(old(Abs()), surface) && height == NextHeight(old(Abs()), surface)
      ensures background == Some(BackgroundOf(surface))
      ensures |rowKeys| == surface.rows
      ensures forall r :: 0 <= r < surface.rows ==> rowKeys[r] == KnownKey(old(Abs()), surface, r)
      ensures Sized() && CacheIsSound()
      ensures pixels == old(pixels) || fresh(pixels)
      ensures forall k :: 0 <= k < pixels.Length ==>
                pixels[k] == Underlay(Canvas(foreign, metrics, scale, height), old(Abs()), surface, k)
    {
      WidthIsPositive(Abs(), surface);
      CanvasIsOk(foreign, Abs(), NextHeight(Abs(), surface));
      var widthPx := Max(surface.cols, 1) * metrics.cellWidth;
      var heightPx := Max(surface.rows, 1) * metrics.cellHeight;
      var resized := width != widthPx || height != heightPx;
      var backgroundChanged := resized || background != Some(BackgroundOf(surface));
      if resized {
        width, height := widthPx, heightPx;
        pixels := new Pixel[widthPx * heightPx](_ => Rgba8(surface.defaultBg));
        rowKeys := seq(surface.rows, _ => None);
      } else if |rowKeys| != surface.rows {
        var known := rowKeys;
        rowKeys := seq(surface.rows, r requires 0 <= r < surface.rows =>
                       if r < |known| then known[r] else None);
      }
      if backgroundChanged {
        FillViewportBackgroundSpan(pixels, Canvas(foreign, metrics, scale, height), width, 0, height,
                                   Rgba8(surface.rowBgEven), Rgba8(surface.rowBgOdd));
        forall k | 0 <= k < pixels.Length ensures RowOf(k, width) < height {
          FlatRow(width, height, k);
        }
        background := Some(BackgroundOf(surface));
      }
    }

    method CollectRowCells(surface: Surface) returns (rowCells: seq<seq<CellKey>>)
      ensures |rowCells| == surface.rows
      ensures forall r :: 0 <= r < surface.rows ==> rowCells[r] == RowCells(surface.cells, r)
    {
      rowCells := seq(surface.rows, _ => []);
      for i := 0 to |surface.cells|
        invariant |rowCells| == surface.rows
        invariant forall r :: 0 <= r < surface.rows ==> rowCells[r] == RowCells(surface.cells[..i], r)
      {
        var cell := surface.cells[i];
        assert surface.cells[..i + 1] == surface.cells[..i] + [cell];
        forall r | 0 <= r < surface.rows
          ensures RowCells(surface.cells[..i + 1], r)
                  == RowCells(surface.cells[..i], r) + (if cell.row == r then [Stripped(cell)] else [])
        {
          RowCellsAppend(surface.cells[..i], cell, r);
        }
        if cell.row < surface.rows {
          rowCells := rowCells[cell.row := rowCells[cell.row] + [Stripped(cell)]];
        }
      }
      assert surface.cells[..|surface.cells|] == surface.cells;
    }

    method RowRequests(surface: Surface, selection: Option<Selection>, overlay: Rgba) returns (keys: seq<RowKey>)
      ensures keys == Keys(surface, selection, overlay)
    {
      var rowCells := CollectRowCells(surface);
      keys := [];
      for row := 0 to surface.rows
        invariant keys == Keys(surface, selection, overlay)[..row]
      {
        var bounds := if selection.None? then None else RowBounds(selection.value, row, surface.cols);
        var rowOverlay := if bounds.Some? then overlay else 0;
        keys := keys + [RowKey(surface.cols, surface.defaultFg, surface.defaultBg, surface.rowBgEven,
                               surface.rowBgOdd, bounds, rowOverlay, rowCells[row])];
      }
    }

    // All rows' backgrounds, the images below, all rows' text, the images above.
    method Recompose(surface: Surface, keys: seq<RowKey>) returns (rerendered: seq<nat>)
      requires Sized() && CacheIsSound() && |rowKeys| == |keys|
      modifies this`spriteCache, this`rowKeys, pixels
      ensures Sized() && CacheIsSound()
      ensures |rowKeys| == |keys| && forall r :: 0 <= r < |keys| ==> rowKeys[r] == Some(keys[r])
      ensures forall k :: 0 <= k < pixels.Length ==>
                pixels[k] == Compose(Canvas(foreign, metrics, scale, height), surface, keys,
                                     ColOf(k, width), RowOf(k, width), old(pixels[k]))
      ensures forall r :: r in rerendered <==> 0 <= r < |keys|
    {
      ghost var cv := Canvas(foreign, metrics, scale, height);
      rerendered := [];
      for r := 0 to |keys|
        invariant forall q :: q in rerendered <==> 0 <= q < r
        invariant |rowKeys| == |keys| && forall q :: 0 <= q < r ==> rowKeys[q] == Some(keys[q])
        invariant Sized() && CacheIsSound()
        invariant forall k :: 0 <= k < pixels.Length ==>
                    pixels[k] == PaintBackgrounds(cv, keys[..r], ColOf(k, width), RowOf(k, width), old(pixels[k]))
      {
        assert keys[..r + 1][..r] == keys[..r];
        RenderRowBackground(keys[r], r);
        rowKeys := rowKeys[r := Some(keys[r])];
        rerendered := rerendered + [r];
      }
      assert keys[..|keys|] == keys;
      RenderTerminalImages(surface, true);
      ghost var below := pixels[..];
      for r := 0 to |keys|
        invariant |rowKeys| == |keys| && forall q :: 0 <= q < |keys| ==> rowKeys[q] == Some(keys[q])
        invariant Sized() && CacheIsSound()
        invariant forall k :: 0 <= k < pixels.Length ==>
                    pixels[k] == PaintForegrounds(cv, keys[..r], ColOf(k, width), RowOf(k, width), below[k])
      {
        assert keys[..r + 1][..r] == keys[..r];
        RenderRowForeground(keys[r], r);
      }
      RenderTerminalImages(surface, false);
    }

    method RepaintDirty(ghost a: Atlas, surface: Surface, keys: seq<RowKey>, resized: bool)
      returns (rerendered: seq<nat>)
      requires Sized() && CacheIsSound() && |rowKeys| == |keys| == surface.rows
      requires resized == Resized(a, surface) && !ForcesRecompose(a, surface)
      requires forall r :: 0 <= r < |keys| ==> rowKeys[r] == KnownKey(a, surface, r)
      modifies this`spriteCache, this`rowKeys, pixels
      ensures Sized() && CacheIsSound()
      ensures |rowKeys| == |keys| && forall r :: 0 <= r < |keys| ==> rowKeys[r] == Some(keys[r])
      ensures forall k :: 0 <= k < pixels.Length ==>
                pixels[k] == RepaintDirtyRows(Canvas(foreign, metrics, scale, height), a, surface, keys,
                                              ColOf(k, width), RowOf(k, width), old(pixels[k]))
      ensures forall r :: r in rerendered <==> 0 <= r < |keys| && IsDirty(a, surface, keys[r], r)
    {
      ghost var cv := Canvas(foreign, metrics, scale, height);
      rerendered := [];
      for r := 0 to |keys|
        invariant |rowKeys| == |keys| && Sized() && CacheIsSound()
        invariant forall q :: 0 <= q < r ==> rowKeys[q] == Some(keys[q])
        invariant forall q :: r <= q < |keys| ==> rowKeys[q] == KnownKey(a, surface, q)
        invariant forall q :: q in rerendered <==> 0 <= q < r && IsDirty(a, surface, keys[q], q)
        invariant forall k :: 0 <= k < pixels.Length ==>
                    pixels[k] == RepaintDirtyRows(cv, a, surface, keys[..r], ColOf(k, width), RowOf(k, width), old(pixels[k]))
      {
        assert keys[..r + 1][..r] == keys[..r];
        if resized || rowKeys[r] != Some(keys[r]) {
          RenderRowBackground(keys[r], r);
          RenderRowForeground(keys[r], r);
          rowKeys := rowKeys[r := Some(keys[r])];
          rerendered := rerendered + [r];
        }
      }
      assert keys[..|keys|] == keys;
    }

    // The painting half of a render, on a prepared frame.
    method PaintFrame(ghost a: Atlas, surface: Surface, keys: seq<RowKey>, resized: bool, force: bool)
      returns (rerendered: seq<nat>)
      requires Sized() && CacheIsSound() && |rowKeys| == |keys| == surface.rows
      requires width == NextWidth(a, surface)
      requires resized == Resized(a, surface) && force == ForcesRecompose(a, surface)
      requires forall r :: 0 <= r < |keys| ==> rowKeys[r] == KnownKey(a, surface, r)
      requires forall k :: 0 <= k < pixels.Length ==>
                 pixels[k] == Underlay(Canvas(foreign, metrics, scale, height), a, surface, k)
      modifies this`spriteCache, this`rowKeys, pixels
      ensures CacheIsSound() && CanvasOk(Canvas(foreign, metrics, scale, height))
      ensures |rowKeys| == |keys| && forall r :: 0 <= r < |keys| ==> rowKeys[r] == Some(keys[r])
      ensures forall k :: 0 <= k < pixels.Length ==>
                pixels[k] == RenderedPixel(Canvas(foreign, metrics, scale, height), a, surface, keys, k)
      ensures forall r :: r in rerendered <==> 0 <= r < |keys| && IsDirty(a, surface, keys[r], r)
    {
      if force {
        rerendered := Recompose(surface, keys);
      } else {
        rerendered := RepaintDirty(a, surface, keys, resized);
      }
    }

    // The render itself: the new state is the value-level Render of the old one.
    method RenderWithSelection(surface: Surface, selection: Option<Selection>, overlay: Rgba)
      returns (rerendered: seq<nat>)
      requires Valid()
      modifies this, pixels
      ensures CanvasOk(CanvasFor(foreign, old(Abs()), NextHeight(old(Abs()), surface)))
      ensures Valid() && Abs() == Render(foreign, old(Abs()), surface, selection, overlay)
      ensures pixels == old(pixels) || fresh(pixels)
      ensures forall r :: r in rerendered <==>
                0 <= r < surface.rows
                && IsDirty(old(Abs()), surface, Keys(surface, selection, overlay)[r], r)
    {
      ghost var a := Abs();
      RenderKeepsInv(foreign, a, surface, selection, overlay);
      var resized := width != Max(surface.cols, 1) * metrics.cellWidth
                  || height != Max(surface.rows, 1) * metrics.cellHeight;
      var fingerprint := FingerprintOf(surface);
      var force := surface.imagePlacements != [] || images != Some(fingerprint);
      var keys := RowRequests(surface, selection, overlay);
      PrepareFrame(surface);
      rerendered := PaintFrame(a, surface, keys, resized, force);
      images := Some(fingerprint);
      ghost var next := Render(foreign, a, surface, selection, overlay);
      assert pixels[..] == next.pixels;
      assert rowKeys == next.rowKeys;
    }
  }

  lemma RowCellsAppend(cells: seq<Cell>, c: Cell, row: nat)
    ensures RowCells(cells + [c], row) == RowCells(cells, row) + (if c.row == row then [Stripped(c)] else [])
  {
    FilterAppend(cells, c, OfRow(row));
  }
}
