// Frames as the pixels the atlas draws for them (src/app/terminal_presenter.rs hands each frame to
// src/app/terminal_atlas.rs as a surface): equal row hashes mean equal pixels in the row's band, on grids
// of any two sizes, as far as the background gradient and the image clipping agree there.
module FramePixels {
  import opened Common
  import opened ImageDrawRect
  import opened Pixels
  import opened AtlasPaint
  import opened Selections
  import opened SemanticOverlay
  import opened FrameRows

  // ---------------------------------------------------------------- a frame as a surface

  function FrameCells(rows: seq<Row>): seq<Cell> {
    if rows == [] then [] else FrameCells(rows[..|rows| - 1]) + rows[|rows| - 1].cells
  }

  function SurfaceOf(f: Frame): Surface {
    Surface(f.gridRows, f.gridCols, f.palette.defaultFg, f.palette.defaultBg, f.palette.rowBgEven, f.palette.rowBgOdd,
            FrameCells(f.rows), f.imageResources, f.imagePlacements)
  }

  function SelectionOf(f: Frame): Option<Selection> {
    if f.selection.None? then None
    else
      var s := f.selection.value;
      Some(Selection(s.start.row, s.start.col, s.end.row, s.end.col))
  }

  // The surface is the frame, field by field, and each of its rows has the frame row's cells.
  lemma SurfaceIsFrame(f: Frame, row: nat)
    requires HashesAreCurrent(f) && row < f.gridRows
    ensures var s := SurfaceOf(f);
            && s.rows == f.gridRows && s.cols == f.gridCols
            && s.defaultFg == f.palette.defaultFg && s.defaultBg == f.palette.defaultBg
            && s.rowBgEven == f.palette.rowBgEven && s.rowBgOdd == f.palette.rowBgOdd
            && s.imageResources == f.imageResources && s.imagePlacements == f.imagePlacements
            && Filter(s.cells, (c: Cell) => c.row == row) == f.rows[row].cells
  {
    FiltersAgree(FrameCells(f.rows), OfRow(row), (c: Cell) => c.row == row);
    FrameCellsOfRow(f.rows, row);
  }

  // What stays the same from frame to frame: fonts, cell size, scale and selection colour.
  datatype Look = Look(foreign: Foreign, metrics: Metrics, scale: real, overlay: Rgba)

  function CanvasOf(look: Look, gridRows: nat): Canvas {
    Canvas(look.foreign, look.metrics, look.scale, Max(gridRows, 1) * look.metrics.cellHeight)
  }

  ghost predicate LookOk(look: Look) {
    CanvasOk(CanvasOf(look, 0))
  }

  lemma LookFitsEveryGrid(look: Look, gridRows: nat)
    requires LookOk(look)
    ensures CanvasOk(CanvasOf(look, gridRows))
  {
    var a, b := CanvasOf(look, 0), CanvasOf(look, gridRows);
    forall key
      ensures SpriteOk(b.foreign.sprite(b.metrics, b.scale, key))
              && b.foreign.sprite(b.metrics, b.scale, key).height <= b.metrics.cellHeight
    {
      assert SpriteOk(a.foreign.sprite(a.metrics, a.scale, key));
    }
  }

  // The pixel the atlas draws for the frame at (x, y).
  function Shown(look: Look, f: Frame, x: nat, y: nat): Pixel
    requires LookOk(look)
  {
    LookFitsEveryGrid(look, f.gridRows);
    FromScratch(CanvasOf(look, f.gridRows), SurfaceOf(f), SelectionOf(f), look.overlay, x, y)
  }

  // ---------------------------------------------------------------- a row's key is its content

  function Inclusive(b: Option<(nat, nat)>): Option<(nat, nat)>
    requires b.Some? ==> b.value.1 > 0
  {
    if b.None? then None else Some((b.value.0, b.value.1 - 1))
  }

  lemma BoundsAreInclusive(s: SelectionModel, row: nat, cols: nat)
    ensures var b := Selections.RowBounds(s, row, cols);
            && (b.Some? ==> b.value.1 > 0)
            && AtlasPaint.RowBounds(Selection(s.start.row, s.start.col, s.end.row, s.end.col), row, cols) == Inclusive(b)
  {
  }

  lemma {:induction false} CellsOfOwnRow(cells: seq<Cell>, own: nat, row: nat)
    requires CellsInRow(cells, own)
    ensures Filter(cells, OfRow(row)) == if own == row then cells else []
  {
    if cells != [] {
      CellsOfOwnRow(cells[1..], own, row);
    }
  }

  lemma {:induction false} FrameCellsOfRow(rows: seq<Row>, row: nat)
    requires forall r :: 0 <= r < |rows| ==> CellsInRow(rows[r].cells, r)
    ensures Filter(FrameCells(rows), OfRow(row)) == if row < |rows| then rows[row].cells else []
  {
    if rows == [] {
    } else {
      var last := |rows| - 1;
      var front, own := FrameCells(rows[..last]), rows[last].cells;
      FrameCellsOfRow(rows[..last], row);
      CellsOfOwnRow(own, last, row);
      FilterConcat(front, own, OfRow(row));
      assert FrameCells(rows) == front + own;
    }
  }

  function KeyOfContent(c: Content, cols: nat, overlay: Rgba): RowKey
    requires c.selection.Some? ==> c.selection.value.1 > 0
  {
    RowKey(cols, c.palette.defaultFg, c.palette.defaultBg, c.palette.rowBgEven, c.palette.rowBgOdd,
           Inclusive(c.selection), if c.selection.Some? then overlay else 0, c.cells)
  }

  // The painters' row key depends on the frame only through the row's content and the grid's width.
  lemma KeyIsContent(f: Frame, row: nat, overlay: Rgba)
    requires HashesAreCurrent(f) && row < f.gridRows
    ensures var c := ContentOf(f, row);
            && (c.selection.Some? ==> c.selection.value.1 > 0)
            && KeyOf(SurfaceOf(f), SelectionOf(f), overlay, row) == KeyOfContent(c, f.gridCols, overlay)
  {
    if f.selection.Some? {
      BoundsAreInclusive(f.selection.value, row, f.gridCols);
    }
    FrameCellsOfRow(f.rows, row);
    assert RowCells(FrameCells(f.rows), row) == StripAll(f.rows[row].cells);
  }

  // ---------------------------------------------------------------- images over a row

  // A placement that does not cover the row leaves the row's band alone.
  lemma UncoveringLeavesBand(m: Metrics, surface: Surface, p: Placement, row: nat, x: nat, y: nat, px: Pixel)
    requires 1 <= m.cellHeight < U32_LIMIT && m.cellWidth < U32_LIMIT
    requires !CoversRow(p, row) && y / m.cellHeight == row
    ensures PaintPlacement(m, surface, p, x, y, px) == px
  {
    var rect := TerminalImageDrawRect(p, surface.rows, surface.cols, m.cellWidth, m.cellHeight);
    if rect.Some? && rect.value.destY <= y < rect.value.destY + rect.value.destHeight {
      DrawsOnlyItsRows(p, surface.rows, surface.cols, m.cellWidth, m.cellHeight, y);
      assert false;
    }
  }

  // In a row's band the images that cover the row are all there is.
  lemma {:induction false} OnlyCoveringPaint(m: Metrics, surface: Surface, ps: seq<Placement>, row: nat,
                                             x: nat, y: nat, px: Pixel)
    requires 1 <= m.cellHeight < U32_LIMIT && m.cellWidth < U32_LIMIT && y / m.cellHeight == row
    ensures PaintPlacements(m, surface, ps, x, y, px)
            == PaintPlacements(m, surface, Filter(ps, Covering(row)), x, y, px)
  {
    if ps != [] {
      var front, last := ps[..|ps| - 1], ps[|ps| - 1];
      OnlyCoveringPaint(m, surface, front, row, x, y, px);
      assert ps == front + [last];
      CoveringSnoc(m, surface, front, last, row, x, y, px);
    }
  }

  lemma CoveringSnoc(m: Metrics, surface: Surface, front: seq<Placement>, last: Placement, row: nat,
                     x: nat, y: nat, px: Pixel)
    requires 1 <= m.cellHeight < U32_LIMIT && m.cellWidth < U32_LIMIT && y / m.cellHeight == row
    requires PaintPlacements(m, surface, front, x, y, px)
             == PaintPlacements(m, surface, Filter(front, Covering(row)), x, y, px)
    ensures PaintPlacements(m, surface, front + [last], x, y, px)
            == PaintPlacements(m, surface, Filter(front + [last], Covering(row)), x, y, px)
  {
    PaintSnoc(m, surface, front, last, x, y, px);
    FilterSnoc(front, last, Covering(row));
    if CoversRow(last, row) {
      PaintSnoc(m, surface, Filter(front, Covering(row)), last, x, y, px);
    } else {
      UncoveringLeavesBand(m, surface, last, row, x, y, PaintPlacements(m, surface, front, x, y, px));
    }
  }

  lemma PaintSnoc(m: Metrics, surface: Surface, front: seq<Placement>, last: Placement, x: nat, y: nat, px: Pixel)
    requires m.cellHeight < U32_LIMIT && m.cellWidth < U32_LIMIT
    ensures PaintPlacements(m, surface, front + [last], x, y, px)
            == PaintPlacement(m, surface, last, x, y, PaintPlacements(m, surface, front, x, y, px))
  {
    var ps := front + [last];
    assert ps[|ps| - 1] == last && ps[..|ps| - 1] == front;
  }

  // The covering placements of one layer, in drawing order.
  function BandLayer(placements: seq<Placement>, row: nat, below: bool): seq<Placement> {
    SortPlacements(Filter(Filter(placements, Covering(row)), InLayer(below)))
  }

  lemma LayerInBand(surface: Surface, row: nat, below: bool)
    ensures Filter(Layer(surface, below), Covering(row)) == BandLayer(surface.imagePlacements, row, below)
  {
    SortThenFilter(Filter(surface.imagePlacements, InLayer(below)), Covering(row));
    FiltersCommute(surface.imagePlacements, InLayer(below), Covering(row));
  }

  lemma LayerPaintsBand(m: Metrics, surface: Surface, row: nat, below: bool, x: nat, y: nat, px: Pixel)
    requires 1 <= m.cellHeight < U32_LIMIT && m.cellWidth < U32_LIMIT && y / m.cellHeight == row
    ensures PaintPlacements(m, surface, Layer(surface, below), x, y, px)
            == PaintPlacements(m, surface, BandLayer(surface.imagePlacements, row, below), x, y, px)
  {
    OnlyCoveringPaint(m, surface, Layer(surface, below), row, x, y, px);
    LayerInBand(surface, row, below);
  }

  // Drawing depends on the surface through where the placements land and the images they name.
  lemma {:induction false} SameImagesSamePaint(m: Metrics, a: Surface, b: Surface, ps: seq<Placement>,
                                               x: nat, y: nat, px: Pixel)
    requires m.cellHeight < U32_LIMIT && m.cellWidth < U32_LIMIT
    requires forall p :: p in ps ==> LandsAlike(m, a, b, p)
    requires forall p :: p in ps ==> LookUp(a.imageResources, p.resourceKey) == LookUp(b.imageResources, p.resourceKey)
    ensures PaintPlacements(m, a, ps, x, y, px) == PaintPlacements(m, b, ps, x, y, px)
  {
    if ps != [] {
      var front, last := ps[..|ps| - 1], ps[|ps| - 1];
      SameImagesSamePaint(m, a, b, front, x, y, px);
      assert last in ps;
    }
  }

  predicate LandsAlike(m: Metrics, a: Surface, b: Surface, p: Placement)
    requires m.cellHeight < U32_LIMIT && m.cellWidth < U32_LIMIT
  {
    TerminalImageDrawRect(p, a.rows, a.cols, m.cellWidth, m.cellHeight)
    == TerminalImageDrawRect(p, b.rows, b.cols, m.cellWidth, m.cellHeight)
  }

  lemma BandLayerCovers(placements: seq<Placement>, row: nat, below: bool, p: Placement)
    requires p in BandLayer(placements, row, below)
    ensures p in Filter(placements, Covering(row))
  {
    var own := Filter(Filter(placements, Covering(row)), InLayer(below));
    SortKeepsElements(own);
    assert p in multiset(SortPlacements(own));
    FilterOnlyKeeps(Filter(placements, Covering(row)), InLayer(below), p);
  }

  lemma PlacedImagesDecide(f: Frame, g: Frame, row: nat)
    requires PlacedImages(f, row) == PlacedImages(g, row)
    ensures Filter(f.imagePlacements, Covering(row)) == Filter(g.imagePlacements, Covering(row))
    ensures forall p :: p in Filter(f.imagePlacements, Covering(row)) ==>
                          LookUp(f.imageResources, p.resourceKey) == LookUp(g.imageResources, p.resourceKey)
  {
    var a, b := Filter(f.imagePlacements, Covering(row)), Filter(g.imagePlacements, Covering(row));
    var p, q := PlacedImages(f, row), PlacedImages(g, row);
    assert |a| == |p| && |b| == |q|;
    forall k | 0 <= k < |a|
      ensures a[k] == b[k] && LookUp(f.imageResources, a[k].resourceKey) == LookUp(g.imageResources, a[k].resourceKey)
    {
      assert p[k] == q[k];
    }
  }

  // The images over the row are clipped alike on both grids.
  ghost predicate SameClips(m: Metrics, f: Frame, g: Frame, row: nat)
    requires m.cellHeight < U32_LIMIT && m.cellWidth < U32_LIMIT
  {
    forall p :: p in Filter(f.imagePlacements, Covering(row)) ==> LandsAlike(m, SurfaceOf(f), SurfaceOf(g), p)
  }

  lemma SameLayerPaint(m: Metrics, f: Frame, g: Frame, row: nat, below: bool, x: nat, y: nat, px: Pixel)
    requires 1 <= m.cellHeight < U32_LIMIT && m.cellWidth < U32_LIMIT && y / m.cellHeight == row
    requires SameClips(m, f, g, row) && PlacedImages(f, row) == PlacedImages(g, row)
    ensures PaintPlacements(m, SurfaceOf(f), Layer(SurfaceOf(f), below), x, y, px)
            == PaintPlacements(m, SurfaceOf(g), Layer(SurfaceOf(g), below), x, y, px)
  {
    LayerPaintsBand(m, SurfaceOf(f), row, below, x, y, px);
    LayerPaintsBand(m, SurfaceOf(g), row, below, x, y, px);
    PlacedImagesDecide(f, g, row);
    var layer := BandLayer(f.imagePlacements, row, below);
    forall p | p in layer
      ensures LandsAlike(m, SurfaceOf(f), SurfaceOf(g), p)
      ensures LookUp(f.imageResources, p.resourceKey) == LookUp(g.imageResources, p.resourceKey)
    {
      BandLayerCovers(f.imagePlacements, row, below, p);
    }
    SameImagesSamePaint(m, SurfaceOf(f), SurfaceOf(g), layer, x, y, px);
  }

  // ---------------------------------------------------------------- a row on two canvases

  // Two viewports that differ in height at most.
  ghost predicate SameButHeight(a: Canvas, b: Canvas) {
    b == a.(height := b.height)
  }

  // The background gradient is the same over the row's lines.
  ghost predicate SameLines(a: Canvas, b: Canvas, top: Rgba, bottom: Rgba, row: nat) {
    forall y: nat :: InBand(a, row, y) ==>
                       GradientColor(a, Rgba8(top), Rgba8(bottom), y) == GradientColor(b, Rgba8(top), Rgba8(bottom), y)
  }

  // What two rows share that are painted alike: all of the key but the grid's width, on canvases whose
  // gradients agree over the row.
  ghost predicate Alike(a: Canvas, b: Canvas, key: RowKey, other: RowKey, row: nat) {
    && SameButHeight(a, b) && a.metrics.cellHeight >= 1
    && other == key.(cols := other.cols)
    && SameLines(a, b, key.backgroundTop, key.backgroundBottom, row)
  }

  lemma SameRowColor(a: Canvas, b: Canvas, key: RowKey, other: RowKey, row: nat)
    requires Alike(a, b, key, other, row)
    ensures RowColor(a, key, row) == RowColor(b, other, row)
  {
    assert InBand(a, row, RowY(a, row) + a.metrics.cellHeight / 2);
  }

  lemma SameRowBase(a: Canvas, b: Canvas, key: RowKey, other: RowKey, row: nat, x: nat, y: nat, p: Pixel)
    requires Alike(a, b, key, other, row) && InBand(a, row, y)
    ensures PaintRowBase(a, key, row, x, y, p) == PaintRowBase(b, other, row, x, y, p)
  {
    SameRowColor(a, b, key, other, row);
  }

  lemma {:induction false} SameCellBackgrounds(a: Canvas, b: Canvas, key: RowKey, other: RowKey, row: nat, n: nat,
                                               x: nat, y: nat, p: Pixel)
    requires Alike(a, b, key, other, row) && n <= |key.cells|
    ensures PaintCellBackgrounds(a, key, row, n, x, y, p) == PaintCellBackgrounds(b, other, row, n, x, y, p)
  {
    if n > 0 {
      SameCellBackgrounds(a, b, key, other, row, n - 1, x, y, p);
      SameRowColor(a, b, key, other, row);
    }
  }

  lemma SameCellForeground(a: Canvas, b: Canvas, key: RowKey, other: RowKey, row: nat, c: CellKey,
                           x: nat, y: nat, p: Pixel)
    requires Alike(a, b, key, other, row) && CanvasOk(a) && CanvasOk(b)
    ensures PaintCellForeground(a, key, row, c, x, y, p) == PaintCellForeground(b, other, row, c, x, y, p)
  {
    SameRowColor(a, b, key, other, row);
    assert ShownForeground(a, key, row, c) == ShownForeground(b, other, row, c);
  }

  lemma {:induction false} SameRowForeground(a: Canvas, b: Canvas, key: RowKey, other: RowKey, row: nat, n: nat,
                                             x: nat, y: nat, p: Pixel)
    requires Alike(a, b, key, other, row) && CanvasOk(a) && CanvasOk(b) && n <= |key.cells|
    ensures PaintRowForeground(a, key, row, n, x, y, p) == PaintRowForeground(b, other, row, n, x, y, p)
  {
    if n > 0 {
      SameRowForeground(a, b, key, other, row, n - 1, x, y, p);
      SameCellForeground(a, b, key, other, row, key.cells[n - 1], x, y, PaintRowForeground(a, key, row, n - 1, x, y, p));
    }
  }

  lemma SameRowBackground(a: Canvas, b: Canvas, key: RowKey, other: RowKey, row: nat, x: nat, y: nat, p: Pixel, q: Pixel)
    requires Alike(a, b, key, other, row) && InBand(a, row, y)
    ensures PaintRowBackground(a, key, row, x, y, p) == PaintRowBackground(b, other, row, x, y, q)
  {
    RowBackgroundOverwrites(a, key, row, x, y, p, q);
    SameRowBase(a, b, key, other, row, x, y, q);
    SameCellBackgrounds(a, b, key, other, row, |key.cells|, x, y, PaintRowBase(a, key, row, x, y, q));
  }

  // In a row's band, composing is the row's background, the images below, the row's text, the images above.
  function BandPixel(cv: Canvas, surface: Surface, key: RowKey, row: nat, x: nat, y: nat, p: Pixel): Pixel
    requires CanvasOk(cv)
  {
    var ground := PaintRowBackground(cv, key, row, x, y, p);
    var under := PaintPlacements(cv.metrics, surface, Layer(surface, true), x, y, ground);
    PaintPlacements(cv.metrics, surface, Layer(surface, false), x, y,
                    PaintRowForeground(cv, key, row, |key.cells|, x, y, under))
  }

  lemma ComposeInBand(cv: Canvas, surface: Surface, keys: seq<RowKey>, row: nat, x: nat, y: nat, p: Pixel)
    requires CanvasOk(cv) && InBand(cv, row, y) && row < |keys|
    ensures Compose(cv, surface, keys, x, y, p) == BandPixel(cv, surface, keys[row], row, x, y, p)
  {
    BackgroundsActOnOwnBand(cv, keys, x, y, p, row);
    var under := PaintPlacements(cv.metrics, surface, Layer(surface, true), x, y, PaintBackgrounds(cv, keys, x, y, p));
    ForegroundsActOnOwnBand(cv, keys, x, y, under, row);
  }

  lemma SameBandPixel(a: Canvas, b: Canvas, f: Frame, g: Frame, key: RowKey, other: RowKey, row: nat,
                      x: nat, y: nat, p: Pixel, q: Pixel)
    requires CanvasOk(a) && CanvasOk(b) && InBand(a, row, y) && Alike(a, b, key, other, row)
    requires SameClips(a.metrics, f, g, row) && PlacedImages(f, row) == PlacedImages(g, row)
    ensures BandPixel(a, SurfaceOf(f), key, row, x, y, p) == BandPixel(b, SurfaceOf(g), other, row, x, y, q)
  {
    BandsAreDisjoint(a, row, row, y);
    SameRowBackground(a, b, key, other, row, x, y, p, q);
    var ground := PaintRowBackground(a, key, row, x, y, p);
    SameLayerPaint(a.metrics, f, g, row, true, x, y, ground);
    var under := PaintPlacements(a.metrics, SurfaceOf(f), Layer(SurfaceOf(f), true), x, y, ground);
    SameRowForeground(a, b, key, other, row, |key.cells|, x, y, under);
    SameLayerPaint(a.metrics, f, g, row, false, x, y, PaintRowForeground(a, key, row, |key.cells|, x, y, under));
  }

  // ---------------------------------------------------------------- equal hashes, equal pixels

  function FrameKey(look: Look, f: Frame, row: nat): RowKey {
    KeyOf(SurfaceOf(f), SelectionOf(f), look.overlay, row)
  }

  lemma ShownInBand(look: Look, f: Frame, row: nat, x: nat, y: nat) returns (p: Pixel)
    requires LookOk(look) && row < f.gridRows && InBand(CanvasOf(look, f.gridRows), row, y)
    ensures CanvasOk(CanvasOf(look, f.gridRows))
    ensures Shown(look, f, x, y)
            == BandPixel(CanvasOf(look, f.gridRows), SurfaceOf(f), FrameKey(look, f, row), row, x, y, p)
  {
    LookFitsEveryGrid(look, f.gridRows);
    var cv := CanvasOf(look, f.gridRows);
    p := GradientColor(cv, Rgba8(f.palette.rowBgEven), Rgba8(f.palette.rowBgOdd), y);
    ComposeInBand(cv, SurfaceOf(f), Keys(SurfaceOf(f), SelectionOf(f), look.overlay), row, x, y, p);
  }

  // Over the row, the background gradient does not tell the two frames' heights apart.
  ghost predicate SameGradient(look: Look, f: Frame, g: Frame, row: nat) {
    SameLines(CanvasOf(look, f.gridRows), CanvasOf(look, g.gridRows), f.palette.rowBgEven, f.palette.rowBgOdd, row)
  }

  // Rows with equal contents have equal pixels, on grids of any two sizes, if the gradient agrees over the
  // row and the images over it are clipped alike.
  lemma EqualContentsEqualPixels(look: Look, f: Frame, g: Frame, row: nat, x: nat, y: nat)
    requires LookOk(look) && HashesAreCurrent(f) && HashesAreCurrent(g)
    requires row < f.gridRows && row < g.gridRows && ContentOf(f, row) == ContentOf(g, row)
    requires SameGradient(look, f, g, row) && SameClips(look.metrics, f, g, row)
    requires InBand(CanvasOf(look, f.gridRows), row, y)
    ensures Shown(look, f, x, y) == Shown(look, g, x, y)
  {
    var p := ShownInBand(look, f, row, x, y);
    var q := ShownInBand(look, g, row, x, y);
    KeyIsContent(f, row, look.overlay);
    KeyIsContent(g, row, look.overlay);
    SameBandPixel(CanvasOf(look, f.gridRows), CanvasOf(look, g.gridRows), f, g,
                  FrameKey(look, f, row), FrameKey(look, g, row), row, x, y, p, q);
  }

  // The same for rows with equal hashes, selection and images included.
  lemma EqualHashesEqualPixels(look: Look, f: Frame, g: Frame, content: nat -> Resource, row: nat, x: nat, y: nat)
    requires LookOk(look) && HashesAreCurrent(f) && HashesAreCurrent(g)
    requires ContentAddressed(f, content) && ContentAddressed(g, content)
    requires row < f.gridRows && row < g.gridRows && f.rows[row].hash == g.rows[row].hash
    requires SameGradient(look, f, g, row) && SameClips(look.metrics, f, g, row)
    requires InBand(CanvasOf(look, f.gridRows), row, y)
    ensures Shown(look, f, x, y) == Shown(look, g, x, y)
  {
    EqualHashesIffEqualContents(f, g, row, content);
    EqualContentsEqualPixels(look, f, g, row, x, y);
  }
}
