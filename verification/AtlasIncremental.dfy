// The retained frame of the terminal atlas and its incremental update, as functions on values; over any
// run of renders, scale changes and cache clears the retained pixels equal a from-scratch repaint.
module AtlasIncremental {
  import opened Common
  import opened Pixels
  import opened ImageDrawRect
  import opened AtlasPaint

  // The frame fingerprint, taken as injective: resource metadata and placements.
  datatype Fingerprint = Fingerprint(resources: seq<(nat, nat, nat, nat)>, placements: seq<Placement>)

  datatype Background = Background(defaultBg: Rgba, even: Rgba, odd: Rgba)

  // The renderer's fields. A row key of None is the zero hash of a row not painted yet.
  datatype Atlas = Atlas(
    logical: Metrics,
    metrics: Metrics,
    scale: real,
    width: nat,
    height: nat,
    pixels: seq<Pixel>,
    rowKeys: seq<Option<RowKey>>,
    background: Option<Background>,
    images: Option<Fingerprint>)

  function NewAtlas(logical: Metrics): Atlas {
    Atlas(logical, logical, 1.0, 0, 0, [], [], None, None)
  }

  function FingerprintOf(surface: Surface): Fingerprint {
    Fingerprint(seq(|surface.imageResources|, k requires 0 <= k < |surface.imageResources| =>
                    var r := surface.imageResources[k]; (r.contentHash, r.width, r.height, |r.rgba|)),
                surface.imagePlacements)
  }

  function BackgroundOf(surface: Surface): Background {
    Background(surface.defaultBg, surface.rowBgEven, surface.rowBgOdd)
  }

  function KeyBackground(key: RowKey): Background {
    Background(key.defaultBg, key.backgroundTop, key.backgroundBottom)
  }

  function ClearTransientCaches(a: Atlas): Atlas {
    a.(width := 0, height := 0, pixels := [], rowKeys := [], background := None, images := None)
  }

  // None is a scale that is not finite.
  function SanitizeScale(scale: Option<real>): (r: real)
    ensures r > 0.0
  {
    if scale.None? then 1.0 else if scale.value < 0.1 then 0.1 else scale.value
  }

  function SetRasterScale(a: Atlas, scale: Option<real>): Atlas {
    var next := SanitizeScale(scale);
    if -0.01 < next - a.scale < 0.01 then a
    else ClearTransientCaches(a.(scale := next, metrics := ScaleMetrics(a.logical, next)))
  }

  // ---------------------------------------------------------------- one render

  function CanvasFor(foreign: Foreign, a: Atlas, height: nat): Canvas {
    Canvas(foreign, a.metrics, a.scale, height)
  }

  function NextWidth(a: Atlas, surface: Surface): nat {
    Max(surface.cols, 1) * a.metrics.cellWidth
  }

  function NextHeight(a: Atlas, surface: Surface): nat {
    Max(surface.rows, 1) * a.metrics.cellHeight
  }

  predicate Resized(a: Atlas, surface: Surface) {
    a.width != NextWidth(a, surface) || a.height != NextHeight(a, surface)
  }

  predicate BackgroundChanged(a: Atlas, surface: Surface) {
    Resized(a, surface) || a.background != Some(BackgroundOf(surface))
  }

  predicate ForcesRecompose(a: Atlas, surface: Surface) {
    surface.imagePlacements != [] || a.images != Some(FingerprintOf(surface))
  }

  // The row hashes the render compares against: dropped on a resize, else cut or zero-extended.
  function KnownKey(a: Atlas, surface: Surface, row: nat): Option<RowKey> {
    if Resized(a, surface) || row >= |a.rowKeys| then None else a.rowKeys[row]
  }

  predicate IsDirty(a: Atlas, surface: Surface, key: RowKey, row: nat) {
    Resized(a, surface) || ForcesRecompose(a, surface) || KnownKey(a, surface, row) != Some(key)
  }

  function RepaintRow(cv: Canvas, key: RowKey, row: nat, x: nat, y: nat, p: Pixel): Pixel
    requires CanvasOk(cv)
  {
    PaintRowForeground(cv, key, row, |key.cells|, x, y, PaintRowBackground(cv, key, row, x, y, p))
  }

  function RepaintDirtyRows(cv: Canvas, a: Atlas, surface: Surface, keys: seq<RowKey>, x: nat, y: nat, p: Pixel): Pixel
    requires CanvasOk(cv)
  {
    if keys == [] then p
    else
      var last := |keys| - 1;
      var before := RepaintDirtyRows(cv, a, surface, keys[..last], x, y, p);
      if IsDirty(a, surface, keys[last], last) then RepaintRow(cv, keys[last], last, x, y, before) else before
  }

  // The retained pixel at flat index k before the rows are looked at.
  function Underlay(cv: Canvas, a: Atlas, surface: Surface, k: nat): Pixel
    requires NextWidth(a, surface) > 0
  {
    if BackgroundChanged(a, surface) || k >= |a.pixels|
    then GradientColor(cv, Rgba8(surface.rowBgEven), Rgba8(surface.rowBgOdd), RowOf(k, NextWidth(a, surface)))
    else a.pixels[k]
  }

  function RenderedPixel(cv: Canvas, a: Atlas, surface: Surface, keys: seq<RowKey>, k: nat): Pixel
    requires CanvasOk(cv) && NextWidth(a, surface) > 0
  {
    var w := NextWidth(a, surface);
    var x, y := ColOf(k, w), RowOf(k, w);
    if ForcesRecompose(a, surface) then Compose(cv, surface, keys, x, y, Underlay(cv, a, surface, k))
    else RepaintDirtyRows(cv, a, surface, keys, x, y, Underlay(cv, a, surface, k))
  }

  function Render(foreign: Foreign, a: Atlas, surface: Surface, selection: Option<Selection>, overlay: Rgba): Atlas
    requires CanvasOk(CanvasFor(foreign, a, NextHeight(a, surface)))
  {
    var cv := CanvasFor(foreign, a, NextHeight(a, surface));
    var keys := Keys(surface, selection, overlay);
    WidthIsPositive(a, surface);
    a.(width := NextWidth(a, surface),
       height := NextHeight(a, surface),
       pixels := seq(NextWidth(a, surface) * NextHeight(a, surface), k requires 0 <= k =>
                     RenderedPixel(cv, a, surface, keys, k)),
       rowKeys := seq(|keys|, r requires 0 <= r < |keys| => Some(keys[r])),
       background := Some(BackgroundOf(surface)),
       images := Some(FingerprintOf(surface)))
  }

  lemma WidthIsPositive(a: Atlas, surface: Surface)
    requires a.metrics.cellWidth >= 1
    ensures NextWidth(a, surface) >= 1
  {
    MulLe(1, Max(surface.cols, 1), a.metrics.cellWidth);
  }

  // ---------------------------------------------------------------- the invariant

  // Every sprite of the rasteriser fits its cell's height, at every size.
  ghost predicate SpritesFit(foreign: Foreign) {
    forall m: Metrics, s: real, key: ClusterKey ::
      SpriteOk(foreign.sprite(m, s, key)) && foreign.sprite(m, s, key).height <= m.cellHeight
  }

  // The band of a row whose key is known shows what painting that key there gives.
  ghost predicate BandShows(foreign: Foreign, a: Atlas, row: nat, key: RowKey)
    requires CanvasOk(CanvasFor(foreign, a, a.height)) && a.width > 0
  {
    var cv := CanvasFor(foreign, a, a.height);
    forall k, p :: 0 <= k < |a.pixels| && InBand(cv, row, RowOf(k, a.width)) ==>
                     a.pixels[k] == RepaintRow(cv, key, row, ColOf(k, a.width), RowOf(k, a.width), p)
  }

  ghost predicate MetricsOk(a: Atlas) {
    && 1 <= a.metrics.cellWidth < U32_LIMIT && 1 <= a.metrics.cellHeight < U32_LIMIT
    && UnderlineThickness(a.scale) <= a.metrics.cellHeight
    && 1 <= a.logical.cellHeight
  }

  ghost predicate Inv(foreign: Foreign, a: Atlas) {
    && SpritesFit(foreign)
    && MetricsOk(a)
    && |a.pixels| == a.width * a.height
    && (a.rowKeys != [] ==> a.width > 0)
    && forall r :: 0 <= r < |a.rowKeys| && a.rowKeys[r].Some? ==>
                     && a.background == Some(KeyBackground(a.rowKeys[r].value))
                     && (a.images.Some? && a.images.value.placements == [] ==>
                           BandShows(foreign, a, r, a.rowKeys[r].value))
  }

  lemma CanvasIsOk(foreign: Foreign, a: Atlas, height: nat)
    requires SpritesFit(foreign) && MetricsOk(a)
    ensures CanvasOk(CanvasFor(foreign, a, height))
  {
  }

  // ---------------------------------------------------------------- one render is from scratch

  lemma {:induction false} DirtyRowsActOnOwnBand(cv: Canvas, a: Atlas, surface: Surface, keys: seq<RowKey>,
                                                 x: nat, y: nat, p: Pixel, row: nat)
    requires CanvasOk(cv) && InBand(cv, row, y)
    ensures RepaintDirtyRows(cv, a, surface, keys, x, y, p)
            == if row < |keys| && IsDirty(a, surface, keys[row], row)
               then RepaintRow(cv, keys[row], row, x, y, p) else p
  {
    if keys != [] {
      var last := |keys| - 1;
      DirtyRowsActOnOwnBand(cv, a, surface, keys[..last], x, y, p, row);
      if row != last {
        var before := RepaintDirtyRows(cv, a, surface, keys[..last], x, y, p);
        BandsAreDisjoint(cv, row, last, y);
        RowBackgroundStaysInBand(cv, keys[last], last, x, y, before);
        RowForegroundStaysInBand(cv, keys[last], last, |keys[last].cells|, x, y, before);
      }
    }
  }

  // Recomposing does not depend on what the band held before.
  lemma ComposeOverwrites(cv: Canvas, surface: Surface, keys: seq<RowKey>, x: nat, y: nat, p: Pixel, q: Pixel, row: nat)
    requires CanvasOk(cv) && InBand(cv, row, y) && row < |keys|
    ensures Compose(cv, surface, keys, x, y, p) == Compose(cv, surface, keys, x, y, q)
  {
    BackgroundsActOnOwnBand(cv, keys, x, y, p, row);
    BackgroundsActOnOwnBand(cv, keys, x, y, q, row);
    RowBackgroundOverwrites(cv, keys[row], row, x, y, p, q);
  }

  lemma NoPlacementsNoLayers(surface: Surface)
    requires surface.imagePlacements == []
    ensures Layer(surface, true) == [] && Layer(surface, false) == []
  {
  }

  // Without images, composing everything is repainting the one row that owns the pixel.
  lemma ComposeWithoutImages(cv: Canvas, surface: Surface, keys: seq<RowKey>, x: nat, y: nat, p: Pixel, row: nat)
    requires CanvasOk(cv) && InBand(cv, row, y) && row < |keys| && surface.imagePlacements == []
    ensures Compose(cv, surface, keys, x, y, p) == RepaintRow(cv, keys[row], row, x, y, p)
  {
    NoPlacementsNoLayers(surface);
    BackgroundsActOnOwnBand(cv, keys, x, y, p, row);
    ForegroundsActOnOwnBand(cv, keys, x, y, PaintBackgrounds(cv, keys, x, y, p), row);
  }

  lemma RepaintOverwrites(cv: Canvas, key: RowKey, row: nat, x: nat, y: nat, p: Pixel, q: Pixel)
    requires CanvasOk(cv) && InBand(cv, row, y)
    ensures RepaintRow(cv, key, row, x, y, p) == RepaintRow(cv, key, row, x, y, q)
  {
    RowBackgroundOverwrites(cv, key, row, x, y, p, q);
  }

  // A row that is not dirty shows its key's paint already.
  lemma CleanRowIsCurrent(foreign: Foreign, a: Atlas, surface: Surface, key: RowKey, row: nat, k: nat, p: Pixel)
    requires Inv(foreign, a) && !IsDirty(a, surface, key, row)
    requires KeyBackground(key) == BackgroundOf(surface)
    requires k < NextWidth(a, surface) * NextHeight(a, surface) && NextWidth(a, surface) > 0
    requires InBand(CanvasFor(foreign, a, NextHeight(a, surface)), row, RowOf(k, NextWidth(a, surface)))
    ensures var cv := CanvasFor(foreign, a, NextHeight(a, surface));
            && CanvasOk(cv)
            && Underlay(cv, a, surface, k)
               == RepaintRow(cv, key, row, ColOf(k, NextWidth(a, surface)), RowOf(k, NextWidth(a, surface)), p)
  {
    CanvasIsOk(foreign, a, a.height);
    assert a.rowKeys[row] == Some(key);
    assert a.images.value.placements == [];
    assert BandShows(foreign, a, row, key);
  }

  // Pixel by pixel, a render of a surface with at least one row gives the from-scratch value.
  lemma RenderedPixelIsFromScratch(foreign: Foreign, a: Atlas, surface: Surface, selection: Option<Selection>,
                                   overlay: Rgba, k: nat)
    requires Inv(foreign, a) && surface.rows >= 1
    requires k < NextWidth(a, surface) * NextHeight(a, surface)
    ensures NextWidth(a, surface) > 0
    ensures var cv := CanvasFor(foreign, a, NextHeight(a, surface));
            var w := NextWidth(a, surface);
            && CanvasOk(cv)
            && RenderedPixel(cv, a, surface, Keys(surface, selection, overlay), k)
               == FromScratch(cv, surface, selection, overlay, ColOf(k, w), RowOf(k, w))
  {
    WidthIsPositive(a, surface);
    CanvasIsOk(foreign, a, NextHeight(a, surface));
    var cv := CanvasFor(foreign, a, NextHeight(a, surface));
    var w := NextWidth(a, surface);
    var x, y := ColOf(k, w), RowOf(k, w);
    FlatRow(w, NextHeight(a, surface), k);
    var row := RowOfLine(y, cv.metrics.cellHeight, surface.rows);
    var keys := Keys(surface, selection, overlay);
    var under := Underlay(cv, a, surface, k);
    var gradient := GradientColor(cv, Rgba8(surface.rowBgEven), Rgba8(surface.rowBgOdd), y);
    ComposeOverwrites(cv, surface, keys, x, y, under, gradient, row);
    if !ForcesRecompose(a, surface) {
      ComposeWithoutImages(cv, surface, keys, x, y, under, row);
      DirtyRowsActOnOwnBand(cv, a, surface, keys, x, y, under, row);
      if !IsDirty(a, surface, keys[row], row) {
        CleanRowIsCurrent(foreign, a, surface, keys[row], row, k, under);
      }
    }
  }

  lemma RenderIsFromScratch(foreign: Foreign, a: Atlas, surface: Surface, selection: Option<Selection>, overlay: Rgba)
    requires Inv(foreign, a) && surface.rows >= 1
    ensures CanvasOk(CanvasFor(foreign, a, NextHeight(a, surface)))
    ensures var next := Render(foreign, a, surface, selection, overlay);
            && next.width > 0
            && forall k :: 0 <= k < |next.pixels| ==>
                 next.pixels[k] == FromScratch(CanvasFor(foreign, next, next.height), surface, selection, overlay,
                                               ColOf(k, next.width), RowOf(k, next.width))
  {
    CanvasIsOk(foreign, a, NextHeight(a, surface));
    WidthIsPositive(a, surface);
    var next := Render(foreign, a, surface, selection, overlay);
    forall k | 0 <= k < |next.pixels|
      ensures next.pixels[k] == FromScratch(CanvasFor(foreign, next, next.height), surface, selection, overlay,
                                            ColOf(k, next.width), RowOf(k, next.width))
    {
      RenderedPixelIsFromScratch(foreign, a, surface, selection, overlay, k);
    }
  }

  // The two surfaces list resources of the same hashes, sizes and byte counts.
  predicate SameResources(a: Surface, b: Surface) {
    && |a.imageResources| == |b.imageResources|
    && forall k :: 0 <= k < |a.imageResources| ==>
         && a.imageResources[k].contentHash == b.imageResources[k].contentHash
         && a.imageResources[k].width == b.imageResources[k].width
         && a.imageResources[k].height == b.imageResources[k].height
         && |a.imageResources[k].rgba| == |b.imageResources[k].rgba|
  }

  lemma FingerprintsAgree(s: Surface, t: Surface)
    ensures FingerprintOf(s) == FingerprintOf(t) <==> SameResources(s, t) && s.imagePlacements == t.imagePlacements
  {
    var f, g := FingerprintOf(s).resources, FingerprintOf(t).resources;
    if SameResources(s, t) {
      assert f == g;
    }
    if f == g {
      forall k | 0 <= k < |f|
        ensures s.imageResources[k].contentHash == t.imageResources[k].contentHash
        ensures s.imageResources[k].width == t.imageResources[k].width
        ensures s.imageResources[k].height == t.imageResources[k].height
        ensures |s.imageResources[k].rgba| == |t.imageResources[k].rgba|
      {
        assert f[k] == g[k];
      }
    }
  }

  // What a render of s leaves for the next one to compare against.
  predicate Remembers(next: Atlas, a: Atlas, s: Surface, selection: Option<Selection>, overlay: Rgba) {
    && next.metrics == a.metrics && next.width == NextWidth(a, s) && next.height == NextHeight(a, s)
    && next.images == Some(FingerprintOf(s)) && |next.rowKeys| == s.rows
    && forall r :: 0 <= r < s.rows ==> next.rowKeys[r] == Some(KeyOf(s, selection, overlay, r))
  }

  lemma RenderRemembers(foreign: Foreign, a: Atlas, s: Surface, selection: Option<Selection>, overlay: Rgba)
    requires CanvasOk(CanvasFor(foreign, a, NextHeight(a, s)))
    ensures Remembers(Render(foreign, a, s, selection, overlay), a, s, selection, overlay)
  {
  }

  // After a render of one surface, a render of another repaints a row exactly if the size changed, images are or
  // were placed or their resources changed, or the row is new or what its painters read has changed.
  lemma RepaintsOnlyWhatChanged(foreign: Foreign, a: Atlas, s: Surface, selection: Option<Selection>, overlay: Rgba,
                                t: Surface, key: RowKey, row: nat)
    requires CanvasOk(CanvasFor(foreign, a, NextHeight(a, s)))
    ensures IsDirty(Render(foreign, a, s, selection, overlay), t, key, row) <==>
            || NextWidth(a, s) != NextWidth(a, t) || NextHeight(a, s) != NextHeight(a, t)
            || s.imagePlacements != [] || t.imagePlacements != [] || !SameResources(s, t)
            || row >= s.rows || KeyOf(s, selection, overlay, row) != key
  {
    RenderRemembers(foreign, a, s, selection, overlay);
    FingerprintsAgree(s, t);
    RemembersDecides(Render(foreign, a, s, selection, overlay), a, s, selection, overlay, t, key, row);
  }

  lemma RemembersDecides(next: Atlas, a: Atlas, s: Surface, selection: Option<Selection>, overlay: Rgba,
                         t: Surface, key: RowKey, row: nat)
    requires Remembers(next, a, s, selection, overlay)
    requires FingerprintOf(s) == FingerprintOf(t) <==> SameResources(s, t) && s.imagePlacements == t.imagePlacements
    ensures IsDirty(next, t, key, row) <==>
            || NextWidth(a, s) != NextWidth(a, t) || NextHeight(a, s) != NextHeight(a, t)
            || s.imagePlacements != [] || t.imagePlacements != [] || !SameResources(s, t)
            || row >= s.rows || KeyOf(s, selection, overlay, row) != key
  {
  }

  // ---------------------------------------------------------------- every operation keeps the invariant

  // Without images, a from-scratch picture shows each row's key.
  lemma FromScratchIsRepaint(cv: Canvas, surface: Surface, selection: Option<Selection>, overlay: Rgba,
                             row: nat, x: nat, y: nat, p: Pixel)
    requires CanvasOk(cv) && row < surface.rows && surface.imagePlacements == [] && InBand(cv, row, y)
    ensures FromScratch(cv, surface, selection, overlay, x, y)
            == RepaintRow(cv, KeyOf(surface, selection, overlay, row), row, x, y, p)
  {
    var keys := Keys(surface, selection, overlay);
    var gradient := GradientColor(cv, Rgba8(surface.rowBgEven), Rgba8(surface.rowBgOdd), y);
    ComposeWithoutImages(cv, surface, keys, x, y, gradient, row);
    RepaintOverwrites(cv, keys[row], row, x, y, gradient, p);
  }

  lemma FromScratchShowsBand(foreign: Foreign, a: Atlas, surface: Surface, selection: Option<Selection>, overlay: Rgba,
                             row: nat)
    requires CanvasOk(CanvasFor(foreign, a, a.height)) && a.width > 0
    requires row < surface.rows && surface.imagePlacements == []
    requires forall k :: 0 <= k < |a.pixels| ==>
               a.pixels[k] == FromScratch(CanvasFor(foreign, a, a.height), surface, selection, overlay,
                                          ColOf(k, a.width), RowOf(k, a.width))
    ensures BandShows(foreign, a, row, KeyOf(surface, selection, overlay, row))
  {
    var cv := CanvasFor(foreign, a, a.height);
    var key := KeyOf(surface, selection, overlay, row);
    forall k, p | 0 <= k < |a.pixels| && InBand(cv, row, RowOf(k, a.width))
      ensures a.pixels[k] == RepaintRow(cv, key, row, ColOf(k, a.width), RowOf(k, a.width), p)
    {
      FromScratchIsRepaint(cv, surface, selection, overlay, row, ColOf(k, a.width), RowOf(k, a.width), p);
    }
  }

  lemma RenderKeepsInv(foreign: Foreign, a: Atlas, surface: Surface, selection: Option<Selection>, overlay: Rgba)
    requires Inv(foreign, a)
    ensures CanvasOk(CanvasFor(foreign, a, NextHeight(a, surface)))
    ensures Inv(foreign, Render(foreign, a, surface, selection, overlay))
  {
    CanvasIsOk(foreign, a, NextHeight(a, surface));
    WidthIsPositive(a, surface);
    var next := Render(foreign, a, surface, selection, overlay);
    forall r | 0 <= r < |next.rowKeys| && surface.imagePlacements == []
      ensures BandShows(foreign, next, r, KeyOf(surface, selection, overlay, r))
    {
      RenderIsFromScratch(foreign, a, surface, selection, overlay);
      FromScratchShowsBand(foreign, next, surface, selection, overlay, r);
    }
  }

  lemma SetScaleKeepsInv(foreign: Foreign, a: Atlas, scale: Option<real>)
    requires Inv(foreign, a)
    ensures Inv(foreign, SetRasterScale(a, scale))
  {
    UnderlineFitsCell(a.logical, SanitizeScale(scale));
  }

  // A scale request is at least a tenth, or one when it is no number. Within a hundredth of the current scale it
  // changes nothing; else the scale is taken, every length follows, and nothing retained stays.
  lemma ScaleChangeMeans(a: Atlas, requested: Option<real>)
    ensures var next := match requested case None => 1.0 case Some(scale) => if scale >= 0.1 then scale else 0.1;
            var b := SetRasterScale(a, requested);
            if next - a.scale < 0.01 && a.scale - next < 0.01 then b == a
            else
              && b.scale == next && b.logical == a.logical && AreScaled(b.metrics, a.logical, next)
              && b.width == b.height == 0 && b.pixels == [] && b.rowKeys == [] && b.background == None && b.images == None
  {
    ScaledMetricsAreNearest(a.logical, SanitizeScale(requested));
  }

  // ---------------------------------------------------------------- runs

  datatype Op =
    | RenderOp(surface: Surface, selection: Option<Selection>, overlay: Rgba)
    | ScaleOp(scale: Option<real>)
    | ClearOp

  predicate LogicalOk(logical: Metrics) {
    1 <= logical.cellWidth < U32_LIMIT && 1 <= logical.cellHeight < U32_LIMIT
  }

  // The renderer after a run of operations from new.
  ghost function After(foreign: Foreign, logical: Metrics, ops: seq<Op>): (a: Atlas)
    requires SpritesFit(foreign) && LogicalOk(logical)
    ensures Inv(foreign, a)
  {
    if ops == [] then NewAtlas(logical)
    else
      var before := After(foreign, logical, ops[..|ops| - 1]);
      match ops[|ops| - 1]
      case RenderOp(surface, selection, overlay) =>
        RenderKeepsInv(foreign, before, surface, selection, overlay);
        Render(foreign, before, surface, selection, overlay)
      case ScaleOp(scale) =>
        SetScaleKeepsInv(foreign, before, scale);
        SetRasterScale(before, scale)
      case ClearOp => ClearTransientCaches(before)
  }

  // After any sequence of renders, scale changes and cache clears that ends in rendering a surface with
  // at least one row, every retained pixel is the one a from-scratch repaint of that surface would give.
  lemma RetainedFrameIsFromScratch(foreign: Foreign, logical: Metrics, ops: seq<Op>)
    requires SpritesFit(foreign) && LogicalOk(logical)
    requires ops != [] && ops[|ops| - 1].RenderOp? && ops[|ops| - 1].surface.rows >= 1
    ensures var last := ops[|ops| - 1];
            var a := After(foreign, logical, ops);
            var cv := CanvasFor(foreign, a, a.height);
            && a.width == Max(last.surface.cols, 1) * a.metrics.cellWidth > 0
            && a.height == last.surface.rows * a.metrics.cellHeight
            && |a.pixels| == a.width * a.height && CanvasOk(cv)
            && forall k :: 0 <= k < |a.pixels| ==>
                 a.pixels[k] == FromScratch(cv, last.surface, last.selection, last.overlay,
                                            ColOf(k, a.width), RowOf(k, a.width))
  {
    var before := After(foreign, logical, ops[..|ops| - 1]);
    var last := ops[|ops| - 1];
    RenderKeepsInv(foreign, before, last.surface, last.selection, last.overlay);
    RenderIsFromScratch(foreign, before, last.surface, last.selection, last.overlay);
    CanvasIsOk(foreign, After(foreign, logical, ops), After(foreign, logical, ops).height);
  }

  // ---------------------------------------------------------------- surfaces without rows

  lemma {:induction false} NoRowsNoImages(m: Metrics, surface: Surface, ps: seq<Placement>, x: nat, y: nat, p: Pixel)
    requires m.cellWidth < U32_LIMIT && m.cellHeight < U32_LIMIT && surface.rows == 0
    ensures PaintPlacements(m, surface, ps, x, y, p) == p
  {
    if ps != [] {
      NoRowsNoImages(m, surface, ps[..|ps| - 1], x, y, p);
    }
  }

  lemma NoRowsNoPaint(foreign: Foreign, a: Atlas, surface: Surface, keys: seq<RowKey>, k: nat)
    requires Inv(foreign, a) && surface.rows == 0 && keys == [] && NextWidth(a, surface) > 0
    ensures var cv := CanvasFor(foreign, a, NextHeight(a, surface));
            CanvasOk(cv) && RenderedPixel(cv, a, surface, keys, k) == Underlay(cv, a, surface, k)
  {
    var cv := CanvasFor(foreign, a, NextHeight(a, surface));
    CanvasIsOk(foreign, a, NextHeight(a, surface));
    var w := NextWidth(a, surface);
    var under := Underlay(cv, a, surface, k);
    NoRowsNoImages(a.metrics, surface, Layer(surface, true), ColOf(k, w), RowOf(k, w), under);
    NoRowsNoImages(a.metrics, surface, Layer(surface, false), ColOf(k, w), RowOf(k, w), under);
  }

  // The bare viewport gradient at flat index k: all there is to a surface without rows.
  function BareGradient(cv: Canvas, surface: Surface, w: nat, k: nat): Pixel
    requires w > 0
  {
    GradientColor(cv, Rgba8(surface.rowBgEven), Rgba8(surface.rowBgOdd), RowOf(k, w))
  }

  // A surface without rows repaints nothing unless the size or the background changed; so its frame is
  // the from-scratch one if and only if one of them did or every kept pixel already is the gradient.
  lemma RenderWithoutRows(foreign: Foreign, a: Atlas, surface: Surface, selection: Option<Selection>, overlay: Rgba)
    requires Inv(foreign, a) && surface.rows == 0
    ensures CanvasOk(CanvasFor(foreign, a, NextHeight(a, surface))) && NextWidth(a, surface) > 0
    ensures var cv := CanvasFor(foreign, a, NextHeight(a, surface));
            var w := NextWidth(a, surface);
            var next := Render(foreign, a, surface, selection, overlay);
            && (!BackgroundChanged(a, surface) ==> next.pixels == a.pixels)
            && |next.pixels| == w * NextHeight(a, surface)
            && ((forall k :: 0 <= k < |next.pixels| ==>
                  next.pixels[k] == FromScratch(cv, surface, selection, overlay, ColOf(k, w), RowOf(k, w)))
                <==>
                || BackgroundChanged(a, surface)
                || forall k :: 0 <= k < |a.pixels| ==> a.pixels[k] == BareGradient(cv, surface, w, k))
  {
    WidthIsPositive(a, surface);
    CanvasIsOk(foreign, a, NextHeight(a, surface));
    var cv := CanvasFor(foreign, a, NextHeight(a, surface));
    var w := NextWidth(a, surface);
    var keys := Keys(surface, selection, overlay);
    var next := Render(foreign, a, surface, selection, overlay);
    forall k | 0 <= k < |next.pixels|
      ensures next.pixels[k] == Underlay(cv, a, surface, k)
      ensures FromScratch(cv, surface, selection, overlay, ColOf(k, w), RowOf(k, w)) == BareGradient(cv, surface, w, k)
    {
      NoRowsNoPaint(foreign, a, surface, keys, k);
      NoRowsBareGradient(cv, surface, selection, overlay, w, k);
    }
  }

  lemma NoRowsBareGradient(cv: Canvas, surface: Surface, selection: Option<Selection>, overlay: Rgba, w: nat, k: nat)
    requires CanvasOk(cv) && surface.rows == 0 && w > 0
    ensures FromScratch(cv, surface, selection, overlay, ColOf(k, w), RowOf(k, w)) == BareGradient(cv, surface, w, k)
  {
    NoRowsNoImages(cv.metrics, surface, Layer(surface, true), ColOf(k, w), RowOf(k, w), BareGradient(cv, surface, w, k));
    NoRowsNoImages(cv.metrics, surface, Layer(surface, false), ColOf(k, w), RowOf(k, w), BareGradient(cv, surface, w, k));
  }

  const CELL_SHOWN := Surface(1, 1, 0, 0, 0, 0, [Cell(0, 0, 1, " ", false, false, 0, 1)], [], [])
  const ROWLESS := Surface(0, 1, 0, 0, 0, 0, [], [], [])

  lemma ShownCellPixel(cv: Canvas)
    requires CanvasOk(cv)
    ensures FromScratch(cv, CELL_SHOWN, None, 0, 0, 0) == Rgba8(1)
  {
    var cell := CELL_SHOWN.cells[0];
    var keys := Keys(CELL_SHOWN, None, 0);
    var own := Filter(CELL_SHOWN.cells, OfRow(0));
    assert CELL_SHOWN.cells[1..] == [];
    assert own == [cell];
    assert keys[0].cells == [Stripped(cell)];
    var black := GradientColor(cv, Rgba8(0), Rgba8(0), 0);
    ComposeWithoutImages(cv, CELL_SHOWN, keys, 0, 0, black, 0);
    var key := keys[0];
    assert IsBlank(" ");
    assert Covers(CellRect(cv, 0, key.cells[0]), 0, 0);
    assert PaintCellBackgrounds(cv, key, 0, 1, 0, 0, PaintRowBase(cv, key, 0, 0, 0, black)) == Rgba8(1);
    assert PaintRowForeground(cv, key, 0, 1, 0, 0, Rgba8(1)) == PaintRowForeground(cv, key, 0, 0, 0, 0, Rgba8(1));
  }

  lemma RowlessPixel(cv: Canvas)
    requires CanvasOk(cv)
    ensures FromScratch(cv, ROWLESS, None, 0, 0, 0) == Rgba8(0)
  {
    NoRowsBareGradient(cv, ROWLESS, None, 0, 1, 0);
  }

  lemma CellIsShown(foreign: Foreign, logical: Metrics)
    requires SpritesFit(foreign) && LogicalOk(logical)
    ensures var shown := After(foreign, logical, [RenderOp(CELL_SHOWN, None, 0)]);
            && |shown.pixels| > 0 && shown.pixels[0] == Rgba8(1)
            && !BackgroundChanged(shown, ROWLESS)
  {
    var first := RenderOp(CELL_SHOWN, None, 0);
    assert [first][..0] == [];
    var shown := After(foreign, logical, [first]);
    RetainedFrameIsFromScratch(foreign, logical, [first]);
    ShownCellPixel(CanvasFor(foreign, shown, shown.height));
    MulLe(1, shown.width, shown.height);
  }

  // With no rows the bound is real: one row with a coloured cell, then no rows, and the colour stays.
  lemma RowlessFrameIsStale(foreign: Foreign, logical: Metrics)
    requires SpritesFit(foreign) && LogicalOk(logical)
    ensures var a := After(foreign, logical, [RenderOp(CELL_SHOWN, None, 0), RenderOp(ROWLESS, None, 0)]);
            var cv := CanvasFor(foreign, a, a.height);
            && |a.pixels| > 0 && CanvasOk(cv)
            && a.pixels[0] == Rgba8(1) != FromScratch(cv, ROWLESS, None, 0, 0, 0)
  {
    var first := RenderOp(CELL_SHOWN, None, 0);
    var ops := [first, RenderOp(ROWLESS, None, 0)];
    assert ops[..1] == [first];
    CellIsShown(foreign, logical);
    RenderWithoutRows(foreign, After(foreign, logical, [first]), ROWLESS, None, 0);
    var a := After(foreign, logical, ops);
    CanvasIsOk(foreign, a, a.height);
    RowlessPixel(CanvasFor(foreign, a, a.height));
  }
}
