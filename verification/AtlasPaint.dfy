// What each painting step of the terminal atlas does to one pixel (src/app/terminal_atlas.rs), and the
// from-scratch repaint that the incremental renderer is held to.
//
// Every step acts on pixels independently, so a step is a function from a pixel's coordinates and old
// value to its new value.
module AtlasPaint {
  import opened Common
  import opened Pixels
  import opened ImageDrawRect

  datatype Metrics = Metrics(cellWidth: nat, cellHeight: nat, baseline: nat)

  datatype Cell = Cell(row: nat, col: nat, width: nat, text: string, bold: bool, underline: bool, fg: Rgba, bg: Rgba)

  datatype Resource = Resource(contentHash: nat, width: U32, height: U32, rgba: seq<Byte>)

  datatype Surface = Surface(
    rows: U32,
    cols: U32,
    defaultFg: Rgba,
    defaultBg: Rgba,
    rowBgEven: Rgba,
    rowBgOdd: Rgba,
    cells: seq<Cell>,
    imageResources: seq<Resource>,
    imagePlacements: seq<Placement>)

  datatype Selection = Selection(startRow: nat, startCol: nat, endRow: nat, endCol: nat)

  datatype ClusterKey = ClusterKey(text: string, span: nat, bold: bool)

  datatype Sprite =
    | MonoAlpha(width: nat, height: nat, alpha: seq<Byte>)
    | ColorRgba(width: nat, height: nat, rgba: seq<Pixel>)

  predicate SpriteOk(s: Sprite) {
    match s
    case MonoAlpha(w, h, alpha) => |alpha| == w * h
    case ColorRgba(w, h, rgba) => |rgba| == w * h
  }

  // Font rasterising and floating-point colour math, as fixed functions of their inputs.
  datatype Foreign = Foreign(
    sprite: (Metrics, real, ClusterKey) -> Sprite,
    lerp: (Pixel, Pixel, nat, nat) -> Pixel,
    contrast: (Pixel, Pixel) -> real)

  // What the painters read besides the row itself: the raster metrics and scale, and the surface height.
  datatype Canvas = Canvas(foreign: Foreign, metrics: Metrics, scale: real, height: nat)

  // Sprites are as tall as their cell at most, and underlines fit the cell: rows own disjoint bands.
  ghost predicate CanvasOk(cv: Canvas) {
    && 1 <= cv.metrics.cellWidth < U32_LIMIT && 1 <= cv.metrics.cellHeight < U32_LIMIT
    && UnderlineThickness(cv.scale) <= cv.metrics.cellHeight
    && forall key :: SpriteOk(cv.foreign.sprite(cv.metrics, cv.scale, key))
                     && cv.foreign.sprite(cv.metrics, cv.scale, key).height <= cv.metrics.cellHeight
  }

  // The row hash, taken as injective: everything the two row painters read except the row's position.
  datatype RowKey = RowKey(
    cols: nat,
    defaultFg: Rgba,
    defaultBg: Rgba,
    backgroundTop: Rgba,
    backgroundBottom: Rgba,
    selection: Option<(nat, nat)>,
    overlay: Rgba,
    cells: seq<CellKey>)

  datatype CellKey = CellKey(col: nat, width: nat, text: string, bold: bool, underline: bool, fg: Rgba, bg: Rgba)

  // ---------------------------------------------------------------- scale

  // f32::round for the non-negative values it is used on.
  function Round(x: real): int {
    (x + 0.5).Floor
  }

  // Rounding, max(1.0) and the saturating cast to u32.
  function WholePixels(x: real): (r: nat)
    ensures 1 <= r < U32_LIMIT
  {
    Min(Max(Round(x), 1), U32_LIMIT - 1)
  }

  function ScaledLength(length: nat, scale: real): (r: nat)
    ensures 1 <= r < U32_LIMIT
  {
    WholePixels(length as real * scale)
  }

  function ScaleMetrics(m: Metrics, scale: real): Metrics {
    Metrics(ScaledLength(m.cellWidth, scale), ScaledLength(m.cellHeight, scale), ScaledLength(m.baseline, scale))
  }

  function UnderlineThickness(scale: real): (r: nat)
    ensures r >= 1
  {
    WholePixels(scale)
  }

  // The nearest whole number of pixels, halves rounded up, at least one and at most what 32 bits hold.
  predicate IsNearest(r: nat, x: real) {
    if x < 1.0 then r == 1
    else if x >= U32_LIMIT as real - 0.5 then r == U32_LIMIT - 1
    else r as real - 0.5 <= x < r as real + 0.5
  }

  lemma WholePixelsIsNearest(x: real)
    ensures IsNearest(WholePixels(x), x)
  {
  }

  predicate IsScaled(r: nat, length: nat, scale: real) {
    IsNearest(r, length as real * scale)
  }

  lemma ScaledLengthIsNearest(length: nat, scale: real)
    ensures IsScaled(ScaledLength(length, scale), length, scale)
  {
    WholePixelsIsNearest(length as real * scale);
  }

  // Every length of the raster metrics is as near to its own logical length, scaled, as whole pixels allow.
  predicate AreScaled(raster: Metrics, logical: Metrics, scale: real) {
    && IsScaled(raster.cellWidth, logical.cellWidth, scale)
    && IsScaled(raster.cellHeight, logical.cellHeight, scale)
    && IsScaled(raster.baseline, logical.baseline, scale)
  }

  lemma ScaledMetricsAreNearest(m: Metrics, scale: real)
    ensures AreScaled(ScaleMetrics(m, scale), m, scale)
  {
    ScaledLengthIsNearest(m.cellWidth, scale);
    ScaledLengthIsNearest(m.cellHeight, scale);
    ScaledLengthIsNearest(m.baseline, scale);
  }

  lemma UnderlineIsNearest(scale: real)
    ensures IsNearest(UnderlineThickness(scale), scale)
  {
    WholePixelsIsNearest(scale);
  }

  lemma WholePixelsMonotone(x: real, y: real)
    requires x <= y
    ensures WholePixels(x) <= WholePixels(y)
  {
  }

  lemma ScaleUp(factor: real, scale: real)
    requires factor >= 1.0 && scale >= 0.0
    ensures factor * scale >= scale
  {
    assert factor * scale - scale == (factor - 1.0) * scale;
  }

  // At any positive scale an underline fits its cell.
  lemma UnderlineFitsCell(logical: Metrics, scale: real)
    requires logical.cellHeight >= 1 && scale >= 0.0
    ensures UnderlineThickness(scale) <= ScaleMetrics(logical, scale).cellHeight
  {
    ScaleUp(logical.cellHeight as real, scale);
    WholePixelsMonotone(scale, logical.cellHeight as real * scale);
  }

  // ---------------------------------------------------------------- painting steps

  function GradientColor(cv: Canvas, top: Pixel, bottom: Pixel, y: nat): Pixel {
    if cv.height <= 1 || top == bottom then top
    else cv.foreign.lerp(top, bottom, Min(y, cv.height - 1), cv.height - 1)
  }

  function FillSpan(cv: Canvas, startY: nat, height: nat, top: Pixel, bottom: Pixel, y: nat, p: Pixel): Pixel {
    if startY <= y < startY + height then GradientColor(cv, top, bottom, y) else p
  }

  datatype Rect = Rect(startX: nat, startY: nat, width: nat, height: nat)

  predicate Covers(r: Rect, x: nat, y: nat) {
    r.startX <= x < r.startX + r.width && r.startY <= y < r.startY + r.height
  }

  function Fill(r: Rect, color: Pixel, x: nat, y: nat, p: Pixel): Pixel {
    if Covers(r, x, y) then color else p
  }

  function BlendSeen(p: Pixel, source: Pixel, alpha: Byte): Pixel {
    if alpha == 0 then p else Blend(p, source, alpha)
  }

  lemma SpriteIndex(w: nat, h: nat, x: nat, y: nat)
    requires x < w && y < h
    ensures 0 <= y * w + x < w * h
  {
    FlatIndex(w, h, x, y);
  }

  function Blit(s: Sprite, cellX: nat, rowY: nat, fg: Pixel, x: nat, y: nat, p: Pixel): Pixel
    requires SpriteOk(s)
  {
    if !Covers(Rect(cellX, rowY, s.width, s.height), x, y) then p
    else
      SpriteIndex(s.width, s.height, x - cellX, y - rowY);
      match s
      case MonoAlpha(w, h, alpha) => BlendSeen(p, fg, alpha[(y - rowY) * w + (x - cellX)])
      case ColorRgba(w, h, rgba) =>
        var source := rgba[(y - rowY) * w + (x - cellX)];
        BlendSeen(p, source, source.a)
  }

  predicate Overlaps(selection: (nat, nat), col: nat, width: nat) {
    col + (if width == 0 then 0 else width - 1) >= selection.0 && col <= selection.1
  }

  // Iterator::max_by keeps the last of equal maxima.
  function Better(cv: Canvas, bg: Pixel, best: Pixel, candidate: Pixel): Pixel {
    if cv.foreign.contrast(candidate, bg) >= cv.foreign.contrast(best, bg) then candidate else best
  }

  const WHITE := Pixel(255, 255, 255, 255)
  const BLACK := Pixel(0, 0, 0, 255)

  function SelectedForeground(cv: Canvas, fg: Pixel, bg: Pixel, defaultFg: Pixel, selectedBg: Pixel): Pixel {
    if (fg.r, fg.g, fg.b) == (bg.r, bg.g, bg.b) then selectedBg
    else Better(cv, selectedBg, Better(cv, selectedBg, Better(cv, selectedBg, fg, defaultFg), WHITE), BLACK)
  }

  function Span(c: CellKey): nat {
    Max(c.width, 1)
  }

  function RowY(cv: Canvas, row: nat): nat {
    row * cv.metrics.cellHeight
  }

  function RowColor(cv: Canvas, key: RowKey, row: nat): Pixel {
    GradientColor(cv, Rgba8(key.backgroundTop), Rgba8(key.backgroundBottom),
                  RowY(cv, row) + cv.metrics.cellHeight / 2)
  }

  predicate IsSelected(key: RowKey, c: CellKey) {
    key.selection.Some? && Overlaps(key.selection.value, c.col, Span(c))
  }

  function CellBackground(cv: Canvas, key: RowKey, row: nat, c: CellKey): Pixel {
    if c.bg == key.defaultBg then RowColor(cv, key, row) else Rgba8(c.bg)
  }

  function ShownBackground(cv: Canvas, key: RowKey, row: nat, c: CellKey): Pixel {
    if IsSelected(key, c) then CompositeColor(CellBackground(cv, key, row, c), Rgba8(key.overlay))
    else CellBackground(cv, key, row, c)
  }

  function CellRect(cv: Canvas, row: nat, c: CellKey): Rect {
    Rect(c.col * cv.metrics.cellWidth, RowY(cv, row), Span(c) * cv.metrics.cellWidth, cv.metrics.cellHeight)
  }

  function PaintCellBackground(cv: Canvas, key: RowKey, row: nat, c: CellKey, x: nat, y: nat, p: Pixel): Pixel {
    if IsSelected(key, c) || c.bg != key.defaultBg
    then Fill(CellRect(cv, row, c), ShownBackground(cv, key, row, c), x, y, p)
    else p
  }

  function PaintCellBackgrounds(cv: Canvas, key: RowKey, row: nat, n: nat, x: nat, y: nat, p: Pixel): Pixel
    requires n <= |key.cells|
  {
    if n == 0 then p
    else PaintCellBackground(cv, key, row, key.cells[n - 1], x, y,
                             PaintCellBackgrounds(cv, key, row, n - 1, x, y, p))
  }

  function SelectionRect(cv: Canvas, row: nat, selection: (nat, nat)): Rect {
    Rect(selection.0 * cv.metrics.cellWidth, RowY(cv, row),
         Max(selection.1 - selection.0 + 1, 0) * cv.metrics.cellWidth, cv.metrics.cellHeight)
  }

  function PaintRowBase(cv: Canvas, key: RowKey, row: nat, x: nat, y: nat, p: Pixel): Pixel {
    var restored := FillSpan(cv, RowY(cv, row), cv.metrics.cellHeight,
                             Rgba8(key.backgroundTop), Rgba8(key.backgroundBottom), y, p);
    if key.selection.None? then restored
    else Fill(SelectionRect(cv, row, key.selection.value),
              CompositeColor(RowColor(cv, key, row), Rgba8(key.overlay)), x, y, restored)
  }

  function PaintRowBackground(cv: Canvas, key: RowKey, row: nat, x: nat, y: nat, p: Pixel): Pixel {
    PaintCellBackgrounds(cv, key, row, |key.cells|, x, y, PaintRowBase(cv, key, row, x, y, p))
  }

  function ShownForeground(cv: Canvas, key: RowKey, row: nat, c: CellKey): Pixel {
    if IsSelected(key, c)
    then SelectedForeground(cv, Rgba8(c.fg), CellBackground(cv, key, row, c), Rgba8(key.defaultFg),
                            ShownBackground(cv, key, row, c))
    else Rgba8(c.fg)
  }

  function UnderlineRect(cv: Canvas, row: nat, c: CellKey): Rect {
    var thickness := UnderlineThickness(cv.scale);
    Rect(c.col * cv.metrics.cellWidth, RowY(cv, row) + Max(cv.metrics.cellHeight - (thickness + 1), 0),
         Span(c) * cv.metrics.cellWidth, thickness)
  }

  function SpriteFor(cv: Canvas, c: CellKey): Sprite {
    cv.foreign.sprite(cv.metrics, cv.scale, ClusterKey(c.text, Span(c), c.bold))
  }

  function PaintCellForeground(cv: Canvas, key: RowKey, row: nat, c: CellKey, x: nat, y: nat, p: Pixel): Pixel
    requires CanvasOk(cv)
  {
    var underlined := if c.underline then Fill(UnderlineRect(cv, row, c), ShownForeground(cv, key, row, c), x, y, p) else p;
    if IsBlank(c.text) then underlined
    else Blit(SpriteFor(cv, c), c.col * cv.metrics.cellWidth, RowY(cv, row), ShownForeground(cv, key, row, c), x, y,
              underlined)
  }

  function PaintRowForeground(cv: Canvas, key: RowKey, row: nat, n: nat, x: nat, y: nat, p: Pixel): Pixel
    requires CanvasOk(cv) && n <= |key.cells|
  {
    if n == 0 then p
    else PaintCellForeground(cv, key, row, key.cells[n - 1], x, y,
                             PaintRowForeground(cv, key, row, n - 1, x, y, p))
  }

  // ---------------------------------------------------------------- images

  function SaturatingDouble(d: nat): nat {
    Min(2 * d, U32_LIMIT - 1)
  }

  function SaturatingOddDouble(d: nat): nat {
    Min(SaturatingDouble(d) + 1, U32_LIMIT - 1)
  }

  // The texture coordinate sampled for destination offset d out of n, and the source row or column.
  function SampleCoordinate(lo: nat, hi: nat, d: nat, n: nat): nat
    requires n > 0
  {
    lo + (if lo <= hi then hi - lo else 0) * SaturatingOddDouble(d) / SaturatingDouble(n)
  }

  function SourceIndex(lo: nat, hi: nat, d: nat, n: nat, size: nat): (r: nat)
    requires n > 0 && size > 0
    ensures r < size
  {
    Min(SampleCoordinate(lo, hi, d, n) * size / UV_SCALE, size - 1)
  }

  lemma ScaledMonotone(a: nat, b: nat, factor: nat, divisor: nat)
    requires a <= b && divisor > 0
    ensures factor * a / divisor <= factor * b / divisor
  {
    MulLe(a, b, factor);
    DivLe(factor * a, factor * b, divisor);
  }

  lemma SampleMonotone(lo: nat, hi: nat, d: nat, e: nat, n: nat)
    requires d <= e && n > 0
    ensures SampleCoordinate(lo, hi, d, n) <= SampleCoordinate(lo, hi, e, n)
  {
    ScaledMonotone(SaturatingOddDouble(d), SaturatingOddDouble(e), if lo <= hi then hi - lo else 0, SaturatingDouble(n));
  }

  lemma SourceOfSampleMonotone(a: nat, b: nat, size: nat)
    requires a <= b && size > 0
    ensures Min(a * size / UV_SCALE, size - 1) <= Min(b * size / UV_SCALE, size - 1)
  {
    ScaledMonotone(a, b, size, UV_SCALE);
    assert a * size == size * a && b * size == size * b;
  }

  // Destination rows and columns further on never sample further back.
  lemma SourceIndexMonotone(lo: nat, hi: nat, d: nat, e: nat, n: nat, size: nat)
    requires d <= e && n > 0 && size > 0
    ensures SourceIndex(lo, hi, d, n, size) <= SourceIndex(lo, hi, e, n, size)
  {
    SampleMonotone(lo, hi, d, e, n);
    SourceOfSampleMonotone(SampleCoordinate(lo, hi, d, n), SampleCoordinate(lo, hi, e, n), size);
  }

  // An image shown whole at its own size is copied pixel for pixel, as long as twice the size is at
  // most the texture scale.
  lemma WholeImageIsCopied(d: nat, n: nat)
    requires d < n && 2 * n <= UV_SCALE
    ensures SourceIndex(0, UV_SCALE, d, n, n) == d
  {
    var u := SampleCoordinate(0, UV_SCALE, d, n);
    assert u == UV_SCALE * (2 * d + 1) / (2 * n);
    assert u * (2 * n) <= UV_SCALE * (2 * d + 1) < (u + 1) * (2 * n);
    assert 2 * (u * n) <= UV_SCALE * (2 * d + 1) < 2 * (u * n) + 2 * n;
    assert d * UV_SCALE <= u * n < (d + 1) * UV_SCALE;
    DivIs(u * n, UV_SCALE, d);
  }

  // The sampled texel holds the centre of the destination pixel in the texture, up to one texture step: the
  // centre is at (lo * 2n + (hi - lo) * (2d + 1)) / 2n texture steps, and texels are UV_SCALE / size steps wide.
  lemma SampleIsNearest(lo: nat, hi: nat, d: nat, n: nat, size: nat)
    requires lo < hi <= UV_SCALE && d < n && 2 * n < U32_LIMIT && size > 0
    ensures var texel := SourceIndex(lo, hi, d, n, size);
            var centre := lo * (2 * n) + (hi - lo) * (2 * d + 1);
            texel * (UV_SCALE * (2 * n)) <= centre * size < (texel + 1) * (UV_SCALE * (2 * n)) + size * (2 * n)
  {
    var u := SampleCoordinate(lo, hi, d, n);
    var centre := lo * (2 * n) + (hi - lo) * (2 * d + 1);
    StepHolds(lo, (hi - lo) * (2 * d + 1), 2 * n, u);
    CentreIsInside(lo, hi, d, n, u);
    TexelHolds(u, size, UV_SCALE);
    BothHold(u * size / UV_SCALE, UV_SCALE, u, centre, 2 * n, size);
  }

  lemma StepHolds(lo: nat, range: nat, m: nat, u: nat)
    requires m > 0 && u == lo + range / m
    ensures u * m <= lo * m + range < (u + 1) * m
  {
    assert range / m * m <= range < (range / m + 1) * m;
    assert u * m == lo * m + range / m * m;
  }

  lemma CentreIsInside(lo: nat, hi: nat, d: nat, n: nat, u: nat)
    requires lo < hi && d < n && u * (2 * n) <= lo * (2 * n) + (hi - lo) * (2 * d + 1)
    ensures u < hi
  {
    BelowAll(lo, hi - lo, 2 * d + 1, 2 * n);
    LessFromProducts(u, hi, 2 * n);
  }

  lemma BelowAll(lo: nat, range: nat, part: nat, whole: nat)
    requires range > 0 && part < whole
    ensures lo * whole + range * part < (lo + range) * whole
  {
    MulLe(part + 1, whole, range);
  }

  lemma TexelHolds(u: nat, size: nat, scale: nat)
    requires u < scale && size > 0
    ensures u * size / scale < size
    ensures u * size / scale * scale <= u * size < (u * size / scale + 1) * scale
  {
    assert u * size / scale * scale <= u * size < (u * size / scale + 1) * scale;
    assert u * size < scale * size;
    LessFromProducts(u * size / scale, size, scale);
  }

  lemma BothHold(t: nat, scale: nat, u: nat, centre: nat, m: nat, size: nat)
    requires t * scale <= u * size < (t + 1) * scale && u * m <= centre < (u + 1) * m && m > 0 && size > 0
    ensures t * (scale * m) <= centre * size < (t + 1) * (scale * m) + size * m
  {
    LowerHolds(t * scale, u, centre, m, size);
    UpperHolds((t + 1) * scale, u, centre, m, size);
    Regroup(t, scale, m);
    Regroup(t + 1, scale, m);
  }

  lemma Regroup(a: nat, b: nat, c: nat)
    ensures a * b * c == a * (b * c)
  {
  }

  lemma LowerHolds(low: nat, u: nat, centre: nat, m: nat, size: nat)
    requires low <= u * size && u * m <= centre
    ensures low * m <= centre * size
  {
    MulLe(low, u * size, m);
    MulLe(u * m, centre, size);
    assert u * size * m == u * m * size;
  }

  lemma UpperHolds(high: nat, u: nat, centre: nat, m: nat, size: nat)
    requires u * size < high && centre < (u + 1) * m && m > 0 && size > 0
    ensures centre * size < high * m + size * m
  {
    MulLe(u * size, high, m);
    MulLe(centre + 1, (u + 1) * m, size);
    assert (u + 1) * m * size == u * size * m + size * m;
  }

  predicate ResourceOk(r: Resource) {
    r.width > 0 && r.height > 0 && r.width * r.height * 4 <= |r.rgba|
  }

  lemma ResourceIndex(r: Resource, x: nat, y: nat)
    requires ResourceOk(r) && x < r.width && y < r.height
    ensures 0 <= (y * r.width + x) * 4 && (y * r.width + x) * 4 + 3 < |r.rgba|
  {
    FlatIndex(r.width, r.height, x, y);
  }

  function ResourcePixel(r: Resource, x: nat, y: nat): Pixel
    requires ResourceOk(r) && x < r.width && y < r.height
  {
    ResourceIndex(r, x, y);
    var i := (y * r.width + x) * 4;
    Pixel(r.rgba[i], r.rgba[i + 1], r.rgba[i + 2], r.rgba[i + 3])
  }

  function BlitImage(r: Resource, d: DrawRect, x: nat, y: nat, p: Pixel): Pixel {
    if !ResourceOk(r) || !Covers(Rect(d.destX, d.destY, d.destWidth, d.destHeight), x, y) then p
    else
      var sx := SourceIndex(d.uv.left, d.uv.right, x - d.destX, d.destWidth, r.width);
      var sy := SourceIndex(d.uv.top, d.uv.bottom, y - d.destY, d.destHeight, r.height);
      var source := ResourcePixel(r, sx, sy);
      BlendSeen(p, source, source.a)
  }

  // The last resource with the placement's hash, as collecting into a map leaves it.
  function LookUp(resources: seq<Resource>, hash: nat): Option<Resource> {
    if resources == [] then None
    else if resources[|resources| - 1].contentHash == hash then Some(resources[|resources| - 1])
    else LookUp(resources[..|resources| - 1], hash)
  }

  lemma {:induction false} LookUpIsLast(resources: seq<Resource>, hash: nat)
    ensures LookUp(resources, hash).None? <==> forall i :: 0 <= i < |resources| ==> resources[i].contentHash != hash
    ensures LookUp(resources, hash).Some? ==>
              exists i :: 0 <= i < |resources| && resources[i].contentHash == hash
                          && LookUp(resources, hash).value == resources[i]
                          && forall j :: i < j < |resources| ==> resources[j].contentHash != hash
  {
    if resources != [] {
      var front := resources[..|resources| - 1];
      LookUpIsLast(front, hash);
      assert forall i :: 0 <= i < |front| ==> front[i] == resources[i];
      if resources[|resources| - 1].contentHash == hash {
        assert LookUp(resources, hash).value == resources[|resources| - 1];
      }
    }
  }

  function PaintPlacement(m: Metrics, surface: Surface, p: Placement, x: nat, y: nat, px: Pixel): Pixel
    requires m.cellWidth < U32_LIMIT && m.cellHeight < U32_LIMIT
  {
    var resource := LookUp(surface.imageResources, p.resourceKey);
    var rect := TerminalImageDrawRect(p, surface.rows, surface.cols, m.cellWidth, m.cellHeight);
    if resource.None? || rect.None? then px else BlitImage(resource.value, rect.value, x, y, px)
  }

  function PaintPlacements(m: Metrics, surface: Surface, ps: seq<Placement>, x: nat, y: nat, px: Pixel): Pixel
    requires m.cellWidth < U32_LIMIT && m.cellHeight < U32_LIMIT
  {
    if ps == [] then px
    else PaintPlacement(m, surface, ps[|ps| - 1], x, y, PaintPlacements(m, surface, ps[..|ps| - 1], x, y, px))
  }

  predicate DrawsBefore(a: Placement, b: Placement) {
    a.zIndex < b.zIndex || (a.zIndex == b.zIndex && a.protocolOrder <= b.protocolOrder)
  }

  // Stable insertion by (z-index, protocol order): what sort_by_key does.
  function InsertPlacement(p: Placement, sorted: seq<Placement>): seq<Placement> {
    if sorted == [] then [p]
    else if DrawsBefore(sorted[|sorted| - 1], p) then sorted + [p]
    else InsertPlacement(p, sorted[..|sorted| - 1]) + [sorted[|sorted| - 1]]
  }

  function SortPlacements(ps: seq<Placement>): seq<Placement> {
    if ps == [] then [] else InsertPlacement(ps[|ps| - 1], SortPlacements(ps[..|ps| - 1]))
  }

  predicate DrawnInOrder(ps: seq<Placement>) {
    forall i, j :: 0 <= i < j < |ps| ==> DrawsBefore(ps[i], ps[j])
  }

  lemma {:induction false} InsertKeepsElements(p: Placement, sorted: seq<Placement>)
    ensures multiset(InsertPlacement(p, sorted)) == multiset(sorted) + multiset{p}
  {
    if sorted != [] {
      assert sorted == sorted[..|sorted| - 1] + [sorted[|sorted| - 1]];
      if !DrawsBefore(sorted[|sorted| - 1], p) {
        InsertKeepsElements(p, sorted[..|sorted| - 1]);
      }
    }
  }

  lemma InsertedFrom(p: Placement, sorted: seq<Placement>, q: Placement)
    requires q in InsertPlacement(p, sorted)
    ensures q == p || q in sorted
  {
    InsertKeepsElements(p, sorted);
    assert q in multiset(InsertPlacement(p, sorted));
  }

  lemma {:induction false} InsertKeepsOrder(p: Placement, sorted: seq<Placement>)
    requires DrawnInOrder(sorted)
    ensures DrawnInOrder(InsertPlacement(p, sorted))
  {
    if sorted != [] && !DrawsBefore(sorted[|sorted| - 1], p) {
      var front := sorted[..|sorted| - 1];
      InsertKeepsOrder(p, front);
      var inner := InsertPlacement(p, front);
      forall i | 0 <= i < |inner| ensures DrawsBefore(inner[i], sorted[|sorted| - 1]) {
        InsertedFrom(p, front, inner[i]);
      }
    }
  }

  lemma {:induction false} SortKeepsElements(ps: seq<Placement>)
    ensures multiset(SortPlacements(ps)) == multiset(ps)
  {
    if ps != [] {
      var front, last := ps[..|ps| - 1], ps[|ps| - 1];
      SortKeepsElements(front);
      InsertKeepsElements(last, SortPlacements(front));
      assert ps == front + [last];
    }
  }

  lemma InsertSnoc(p: Placement, front: seq<Placement>, last: Placement)
    ensures InsertPlacement(p, front + [last])
            == if DrawsBefore(last, p) then front + [last, p] else InsertPlacement(p, front) + [last]
  {
    var s := front + [last];
    assert s[|s| - 1] == last && s[..|s| - 1] == front;
  }

  lemma InsertLast(p: Placement, sorted: seq<Placement>)
    requires forall q :: q in sorted ==> DrawsBefore(q, p)
    ensures InsertPlacement(p, sorted) == sorted + [p]
  {
    if sorted != [] {
      assert sorted[|sorted| - 1] in sorted;
    }
  }

  lemma DrawsBeforeTransitive(a: Placement, b: Placement, c: Placement)
    requires DrawsBefore(a, b) && DrawsBefore(b, c)
    ensures DrawsBefore(a, c)
  {
  }

  lemma AllDrawBefore(sorted: seq<Placement>, p: Placement, q: Placement)
    requires sorted != [] && DrawnInOrder(sorted) && DrawsBefore(sorted[|sorted| - 1], p) && q in sorted
    ensures DrawsBefore(q, p)
  {
    var i :| 0 <= i < |sorted| && sorted[i] == q;
    if i < |sorted| - 1 {
      DrawsBeforeTransitive(q, sorted[|sorted| - 1], p);
    }
  }

  lemma KeptDrawBefore(sorted: seq<Placement>, p: Placement, keep: Placement -> bool, q: Placement)
    requires sorted != [] && DrawnInOrder(sorted) && DrawsBefore(sorted[|sorted| - 1], p)
    requires q in Filter(sorted, keep)
    ensures DrawsBefore(q, p)
  {
    FilterOnlyKeeps(sorted, keep, q);
    AllDrawBefore(sorted, p, q);
  }

  // Dropping placements before an insertion or after it comes to the same.
  lemma {:induction false} InsertThenFilter(p: Placement, sorted: seq<Placement>, keep: Placement -> bool)
    requires DrawnInOrder(sorted)
    ensures Filter(InsertPlacement(p, sorted), keep)
            == if keep(p) then InsertPlacement(p, Filter(sorted, keep)) else Filter(sorted, keep)
    decreases |sorted|, 0
  {
    if sorted == [] {
      FilterAppend([], p, keep);
      assert [] + [p] == [p];
    } else if DrawsBefore(sorted[|sorted| - 1], p) {
      FilterAppend(sorted, p, keep);
      forall q | q in Filter(sorted, keep) ensures DrawsBefore(q, p) {
        KeptDrawBefore(sorted, p, keep, q);
      }
      InsertLast(p, Filter(sorted, keep));
    } else {
      assert sorted == sorted[..|sorted| - 1] + [sorted[|sorted| - 1]];
      InsertInside(p, sorted[..|sorted| - 1], sorted[|sorted| - 1], keep);
    }
  }

  lemma {:induction false} InsertInside(p: Placement, front: seq<Placement>, last: Placement, keep: Placement -> bool)
    requires DrawnInOrder(front + [last]) && !DrawsBefore(last, p)
    ensures var sorted := front + [last];
            Filter(InsertPlacement(p, sorted), keep)
            == if keep(p) then InsertPlacement(p, Filter(sorted, keep)) else Filter(sorted, keep)
    decreases |front|, 1
  {
    var inner := InsertPlacement(p, front);
    assert DrawnInOrder(front) by {
      assert forall i :: 0 <= i < |front| ==> (front + [last])[i] == front[i];
    }
    InsertThenFilter(p, front, keep);
    InsertSnoc(p, front, last);
    FilterSnoc(inner, last, keep);
    FilterSnoc(front, last, keep);
    if keep(last) {
      InsertSnoc(p, Filter(front, keep), last);
    }
  }

  lemma FilterSnoc(front: seq<Placement>, last: Placement, keep: Placement -> bool)
    ensures Filter(front + [last], keep) == if keep(last) then Filter(front, keep) + [last] else Filter(front, keep)
  {
    FilterAppend(front, last, keep);
  }

  lemma {:induction false} SortThenFilter(ps: seq<Placement>, keep: Placement -> bool)
    ensures Filter(SortPlacements(ps), keep) == SortPlacements(Filter(ps, keep))
  {
    if ps != [] {
      var front, last := ps[..|ps| - 1], ps[|ps| - 1];
      SortThenFilter(front, keep);
      assert ps == front + [last];
      SortSnocThenFilter(front, last, keep);
    }
  }

  lemma SortSnocThenFilter(front: seq<Placement>, last: Placement, keep: Placement -> bool)
    requires Filter(SortPlacements(front), keep) == SortPlacements(Filter(front, keep))
    ensures Filter(SortPlacements(front + [last]), keep) == SortPlacements(Filter(front + [last], keep))
  {
    SortPlacementsSorts(front);
    SortSnoc(front, last);
    InsertThenFilter(last, SortPlacements(front), keep);
    FilterSnoc(front, last, keep);
    if keep(last) {
      SortSnoc(Filter(front, keep), last);
    }
  }

  lemma SortSnoc(front: seq<Placement>, last: Placement)
    ensures SortPlacements(front + [last]) == InsertPlacement(last, SortPlacements(front))
  {
    var ps := front + [last];
    assert ps[|ps| - 1] == last && ps[..|ps| - 1] == front;
  }

  function SameRank(z: int, order: nat): Placement -> bool {
    (p: Placement) => p.zIndex == z && p.protocolOrder == order
  }

  // Placements of equal z-index and protocol order are drawn in the order they are listed.
  lemma SortIsStable(ps: seq<Placement>, z: int, order: nat)
    ensures Filter(SortPlacements(ps), SameRank(z, order)) == Filter(ps, SameRank(z, order))
  {
    SortThenFilter(ps, SameRank(z, order));
    var idx := FilterIndices(ps, SameRank(z, order));
    SortOfEquals(Filter(ps, SameRank(z, order)), z, order);
  }

  lemma {:induction false} SortOfEquals(ps: seq<Placement>, z: int, order: nat)
    requires forall k :: 0 <= k < |ps| ==> SameRank(z, order)(ps[k])
    ensures SortPlacements(ps) == ps
  {
    if ps != [] {
      SortOfEquals(ps[..|ps| - 1], z, order);
      assert ps == ps[..|ps| - 1] + [ps[|ps| - 1]];
    }
  }

  // Images are drawn in (z-index, protocol order), each exactly as often as it is placed.
  lemma {:induction false} SortPlacementsSorts(ps: seq<Placement>)
    ensures DrawnInOrder(SortPlacements(ps)) && multiset(SortPlacements(ps)) == multiset(ps)
  {
    SortKeepsElements(ps);
    if ps != [] {
      var front := ps[..|ps| - 1];
      SortPlacementsSorts(front);
      InsertKeepsOrder(ps[|ps| - 1], SortPlacements(front));
    }
  }

  function InLayer(below: bool): Placement -> bool {
    (p: Placement) => (p.zIndex < 0) == below
  }

  function Layer(surface: Surface, below: bool): seq<Placement> {
    SortPlacements(Filter(surface.imagePlacements, InLayer(below)))
  }

  // ---------------------------------------------------------------- rows of a surface

  // The atlas keeps selection bounds inclusive on both ends.
  function RowBounds(s: Selection, row: nat, cols: nat): Option<(nat, nat)> {
    if cols == 0 || row < s.startRow || row > s.endRow then None
    else
      var start := if row == s.startRow then Min(s.startCol, cols) else 0;
      var end := if row == s.endRow then Min(s.endCol, cols) else cols;
      if start >= end then None else Some((Min(start, cols - 1), Min(end - 1, cols - 1)))
  }

  function Stripped(c: Cell): CellKey {
    CellKey(c.col, c.width, c.text, c.bold, c.underline, c.fg, c.bg)
  }

  function OfRow(row: nat): Cell -> bool {
    (c: Cell) => c.row == row
  }

  function RowCells(cells: seq<Cell>, row: nat): seq<CellKey> {
    var own := Filter(cells, OfRow(row));
    seq(|own|, k requires 0 <= k < |own| => Stripped(own[k]))
  }

  function KeyOf(surface: Surface, selection: Option<Selection>, overlay: Rgba, row: nat): RowKey {
    var bounds := if selection.None? then None else RowBounds(selection.value, row, surface.cols);
    RowKey(surface.cols, surface.defaultFg, surface.defaultBg, surface.rowBgEven, surface.rowBgOdd,
           bounds, if bounds.Some? then overlay else 0, RowCells(surface.cells, row))
  }

  function PaintBackgrounds(cv: Canvas, keys: seq<RowKey>, x: nat, y: nat, p: Pixel): Pixel {
    if keys == [] then p
    else PaintRowBackground(cv, keys[|keys| - 1], |keys| - 1, x, y,
                            PaintBackgrounds(cv, keys[..|keys| - 1], x, y, p))
  }

  function PaintForegrounds(cv: Canvas, keys: seq<RowKey>, x: nat, y: nat, p: Pixel): Pixel
    requires CanvasOk(cv)
  {
    if keys == [] then p
    else
      var key := keys[|keys| - 1];
      PaintRowForeground(cv, key, |keys| - 1, |key.cells|, x, y,
                         PaintForegrounds(cv, keys[..|keys| - 1], x, y, p))
  }

  function Keys(surface: Surface, selection: Option<Selection>, overlay: Rgba): (keys: seq<RowKey>)
    ensures |keys| == surface.rows
  {
    seq(surface.rows, r requires 0 <= r < surface.rows => KeyOf(surface, selection, overlay, r))
  }

  // All rows' backgrounds, the images below text, all rows' text, the images above text.
  function Compose(cv: Canvas, surface: Surface, keys: seq<RowKey>, x: nat, y: nat, p: Pixel): Pixel
    requires CanvasOk(cv)
  {
    var backgrounds := PaintBackgrounds(cv, keys, x, y, p);
    var below := PaintPlacements(cv.metrics, surface, Layer(surface, true), x, y, backgrounds);
    var text := PaintForegrounds(cv, keys, x, y, below);
    PaintPlacements(cv.metrics, surface, Layer(surface, false), x, y, text)
  }

  // The reference: the whole viewport gradient, then everything painted on top.
  function FromScratch(cv: Canvas, surface: Surface, selection: Option<Selection>, overlay: Rgba, x: nat, y: nat): Pixel
    requires CanvasOk(cv)
  {
    Compose(cv, surface, Keys(surface, selection, overlay), x, y,
            GradientColor(cv, Rgba8(surface.rowBgEven), Rgba8(surface.rowBgOdd), y))
  }

  // ---------------------------------------------------------------- rows own disjoint bands

  predicate InBand(cv: Canvas, row: nat, y: nat) {
    RowY(cv, row) <= y < RowY(cv, row) + cv.metrics.cellHeight
  }

  lemma {:induction false} BackgroundsStayInBand(cv: Canvas, key: RowKey, row: nat, n: nat, x: nat, y: nat, p: Pixel)
    requires n <= |key.cells| && !InBand(cv, row, y)
    ensures PaintCellBackgrounds(cv, key, row, n, x, y, p) == p
  {
    if n > 0 {
      BackgroundsStayInBand(cv, key, row, n - 1, x, y, p);
    }
  }

  lemma RowBackgroundStaysInBand(cv: Canvas, key: RowKey, row: nat, x: nat, y: nat, p: Pixel)
    requires !InBand(cv, row, y)
    ensures PaintRowBackground(cv, key, row, x, y, p) == p
  {
    BackgroundsStayInBand(cv, key, row, |key.cells|, x, y, PaintRowBase(cv, key, row, x, y, p));
  }

  lemma CellForegroundStaysInBand(cv: Canvas, key: RowKey, row: nat, c: CellKey, x: nat, y: nat, p: Pixel)
    requires CanvasOk(cv) && !InBand(cv, row, y)
    ensures PaintCellForeground(cv, key, row, c, x, y, p) == p
  {
    assert SpriteFor(cv, c).height <= cv.metrics.cellHeight;
  }

  lemma {:induction false} RowForegroundStaysInBand(cv: Canvas, key: RowKey, row: nat, n: nat, x: nat, y: nat, p: Pixel)
    requires CanvasOk(cv) && n <= |key.cells| && !InBand(cv, row, y)
    ensures PaintRowForeground(cv, key, row, n, x, y, p) == p
  {
    if n > 0 {
      RowForegroundStaysInBand(cv, key, row, n - 1, x, y, p);
      CellForegroundStaysInBand(cv, key, row, key.cells[n - 1], x, y, p);
    }
  }

  // A row's background leaves nothing of what was in its band before.
  lemma RowBackgroundOverwrites(cv: Canvas, key: RowKey, row: nat, x: nat, y: nat, p: Pixel, q: Pixel)
    requires InBand(cv, row, y)
    ensures PaintRowBackground(cv, key, row, x, y, p) == PaintRowBackground(cv, key, row, x, y, q)
  {
    assert PaintRowBase(cv, key, row, x, y, p) == PaintRowBase(cv, key, row, x, y, q);
  }

  lemma BandsAreDisjoint(cv: Canvas, a: nat, b: nat, y: nat)
    requires cv.metrics.cellHeight >= 1 && InBand(cv, a, y)
    ensures y / cv.metrics.cellHeight == a
    ensures a != b ==> !InBand(cv, b, y)
  {
    BandOf(y, cv.metrics.cellHeight, a, a + 1);
    if InBand(cv, b, y) {
      BandOf(y, cv.metrics.cellHeight, b, b + 1);
    }
  }

  lemma {:induction false} BackgroundsActOnOwnBand(cv: Canvas, keys: seq<RowKey>, x: nat, y: nat, p: Pixel, row: nat)
    requires cv.metrics.cellHeight >= 1 && InBand(cv, row, y)
    ensures PaintBackgrounds(cv, keys, x, y, p)
            == if row < |keys| then PaintRowBackground(cv, keys[row], row, x, y, p) else p
  {
    if keys != [] {
      var last := |keys| - 1;
      BackgroundsActOnOwnBand(cv, keys[..last], x, y, p, row);
      if row != last {
        BandsAreDisjoint(cv, row, last, y);
        RowBackgroundStaysInBand(cv, keys[last], last, x, y, PaintBackgrounds(cv, keys[..last], x, y, p));
      }
    }
  }

  lemma {:induction false} ForegroundsActOnOwnBand(cv: Canvas, keys: seq<RowKey>, x: nat, y: nat, p: Pixel, row: nat)
    requires CanvasOk(cv) && InBand(cv, row, y)
    ensures PaintForegrounds(cv, keys, x, y, p)
            == if row < |keys| then PaintRowForeground(cv, keys[row], row, |keys[row].cells|, x, y, p) else p
  {
    if keys != [] {
      var last := |keys| - 1;
      ForegroundsActOnOwnBand(cv, keys[..last], x, y, p, row);
      if row != last {
        BandsAreDisjoint(cv, row, last, y);
        RowForegroundStaysInBand(cv, keys[last], last, |keys[last].cells|, x, y,
                                 PaintForegrounds(cv, keys[..last], x, y, p));
      }
    }
  }
}
