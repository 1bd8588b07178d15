// Replaying a frame's dirty rows over a screen that shows the frame before (src/app/terminal_model.rs
// lists them): exactly when that shows the new frame, for grids of any two sizes.
module FrameReplay {
  import opened Common
  import opened ImageDrawRect
  import opened Pixels
  import opened AtlasPaint
  import opened SemanticOverlay
  import opened FrameRows
  import opened FramePixels

  // ---------------------------------------------------------------- screens

  type Screen = (nat, nat) -> Pixel

  function FrameWidth(look: Look, f: Frame): nat {
    Max(f.gridCols, 1) * look.metrics.cellWidth
  }

  function FrameHeight(look: Look, f: Frame): nat {
    f.gridRows * look.metrics.cellHeight
  }

  // Draw the bands of the given rows of f over what is on screen.
  function Redraw(look: Look, f: Frame, rows: seq<nat>, screen: Screen): Screen
    requires LookOk(look)
  {
    (x: nat, y: nat) => if y / look.metrics.cellHeight in rows then Shown(look, f, x, y) else screen(x, y)
  }

  // The screen shows the frame, in all its rows.
  ghost predicate Shows(look: Look, f: Frame, screen: Screen)
    requires LookOk(look)
  {
    forall x: nat, y: nat :: x < FrameWidth(look, f) && y < FrameHeight(look, f) ==> screen(x, y) == Shown(look, f, x, y)
  }

  lemma RowOfPixel(look: Look, gridRows: nat, y: nat) returns (row: nat)
    requires LookOk(look) && y < gridRows * look.metrics.cellHeight
    ensures row == y / look.metrics.cellHeight < gridRows && InBand(CanvasOf(look, gridRows), row, y)
  {
    row := RowOfLine(y, look.metrics.cellHeight, gridRows);
  }

  lemma BandIsInFrame(look: Look, f: Frame, row: nat, y: nat)
    requires LookOk(look) && row < f.gridRows && InBand(CanvasOf(look, f.gridRows), row, y)
    ensures y < FrameHeight(look, f) && y / look.metrics.cellHeight == row
  {
    BandsAreDisjoint(CanvasOf(look, f.gridRows), row, row, y);
    BandIsAbove(look.metrics.cellHeight, row, f.gridRows, y);
  }

  // ---------------------------------------------------------------- clean rows

  // Of the grid, but not listed as dirty.
  predicate Clean(f: Frame, row: nat) {
    row < f.gridRows && row !in f.dirtyRows
  }

  // A clean row has the content it had in the previous frame.
  ghost predicate CleanRowsAreKept(previous: Frame, f: Frame) {
    && HashesAreCurrent(previous) && HashesAreCurrent(f)
    && forall row: nat :: Clean(f, row) ==> row < previous.gridRows && ContentOf(previous, row) == ContentOf(f, row)
  }

  lemma CleanRowKeepsHash(previous: Frame, f: Frame, row: nat)
    requires HashesAreCurrent(previous) && Follows(Some(previous), f)
    ensures Clean(f, row) <==>
            row < f.gridRows && row < previous.gridRows && previous.rows[row].hash == f.rows[row].hash
  {
    DirtyRowsContains(Some(previous), f.rows, row);
  }

  lemma ContentAddressedKeeps(previous: Frame, f: Frame, content: nat -> Resource)
    requires HashesAreCurrent(previous) && Follows(Some(previous), f)
    requires ContentAddressed(previous, content) && ContentAddressed(f, content)
    ensures CleanRowsAreKept(previous, f)
  {
    forall row: nat | Clean(f, row)
      ensures row < previous.gridRows && ContentOf(previous, row) == ContentOf(f, row)
    {
      CleanRowKeepsHash(previous, f, row);
      EqualHashesIffEqualContents(previous, f, row, content);
    }
  }

  lemma ImageFreeKeeps(previous: Frame, f: Frame)
    requires HashesAreCurrent(previous) && Follows(Some(previous), f)
    requires previous.imagePlacements == [] && f.imagePlacements == []
    ensures CleanRowsAreKept(previous, f)
  {
    forall row: nat | Clean(f, row)
      ensures row < previous.gridRows && ContentOf(previous, row) == ContentOf(f, row)
    {
      CleanRowKeepsHash(previous, f, row);
      assert PlacedImages(previous, row) == PlacedImages(f, row) == [];
    }
  }

  // ---------------------------------------------------------------- enough

  // Where rows are clean, the new frame is no wider and the gradient does not tell the heights apart.
  ghost predicate SizesAgree(look: Look, previous: Frame, f: Frame)
    requires LookOk(look)
  {
    forall row: nat :: Clean(f, row) ==>
      FrameWidth(look, f) <= FrameWidth(look, previous) && SameGradient(look, previous, f, row)
  }

  ghost predicate ClipsAgree(look: Look, previous: Frame, f: Frame)
    requires LookOk(look)
  {
    forall row: nat :: Clean(f, row) ==> SameClips(look.metrics, previous, f, row)
  }

  predicate SameGrid(f: Frame, g: Frame) {
    f.gridRows == g.gridRows && f.gridCols == g.gridCols
  }

  lemma SameGridAgrees(look: Look, previous: Frame, f: Frame)
    requires LookOk(look) && SameGrid(previous, f)
    ensures SizesAgree(look, previous, f) && ClipsAgree(look, previous, f)
  {
  }

  // Redrawing the dirty rows over any screen that shows the previous frame shows the new one.
  ghost predicate Replays(look: Look, previous: Frame, f: Frame)
    requires LookOk(look)
  {
    forall screen: Screen :: Shows(look, previous, screen) ==> Shows(look, f, Redraw(look, f, f.dirtyRows, screen))
  }

  // A pixel of the frame in a row not listed as dirty.
  predicate CleanPixel(look: Look, f: Frame, x: nat, y: nat)
    requires LookOk(look)
  {
    x < FrameWidth(look, f) && y < FrameHeight(look, f) && y / look.metrics.cellHeight !in f.dirtyRows
  }

  // The previous frame has the pixel, and shows the same there.
  predicate PixelStays(look: Look, previous: Frame, f: Frame, x: nat, y: nat)
    requires LookOk(look)
  {
    && x < FrameWidth(look, previous) && y < FrameHeight(look, previous)
    && Shown(look, previous, x, y) == Shown(look, f, x, y)
  }

  // A screen that shows the frame and holds the given pixel everywhere beside it.
  function ShowingBeside(look: Look, f: Frame, beside: Pixel): Screen
    requires LookOk(look)
  {
    (x: nat, y: nat) => if x < FrameWidth(look, f) && y < FrameHeight(look, f) then Shown(look, f, x, y) else beside
  }

  lemma ShowsItself(look: Look, f: Frame, beside: Pixel)
    requires LookOk(look)
    ensures Shows(look, f, ShowingBeside(look, f, beside))
  {
  }

  lemma AnotherPixel(p: Pixel) returns (q: Pixel)
    ensures q != p
  {
    q := p.(a := if p.a == 0 then 1 else 0);
  }

  lemma CleanPixelReplayed(look: Look, f: Frame, x: nat, y: nat, screen: Screen)
    requires LookOk(look) && Shows(look, f, Redraw(look, f, f.dirtyRows, screen)) && CleanPixel(look, f, x, y)
    ensures screen(x, y) == Shown(look, f, x, y)
  {
    assert Redraw(look, f, f.dirtyRows, screen)(x, y) == screen(x, y);
  }

  // Whatever the two frames: replaying works on all screens if and only if no clean pixel is new or changed.
  lemma ReplaysIffCleanPixelsStay(look: Look, previous: Frame, f: Frame)
    requires LookOk(look)
    ensures Replays(look, previous, f) <==>
            forall x: nat, y: nat :: CleanPixel(look, f, x, y) ==> PixelStays(look, previous, f, x, y)
  {
    if Replays(look, previous, f) {
      forall x: nat, y: nat | CleanPixel(look, f, x, y) ensures PixelStays(look, previous, f, x, y) {
        var other := AnotherPixel(Shown(look, f, x, y));
        ShowsItself(look, previous, other);
        CleanPixelReplayed(look, f, x, y, ShowingBeside(look, previous, other));
      }
    }
    if forall x: nat, y: nat :: CleanPixel(look, f, x, y) ==> PixelStays(look, previous, f, x, y) {
      forall screen: Screen | Shows(look, previous, screen)
        ensures Shows(look, f, Redraw(look, f, f.dirtyRows, screen))
      {
        var after := Redraw(look, f, f.dirtyRows, screen);
        forall x: nat, y: nat | x < FrameWidth(look, f) && y < FrameHeight(look, f)
          ensures after(x, y) == Shown(look, f, x, y)
        {
          assert CleanPixel(look, f, x, y) ==> PixelStays(look, previous, f, x, y);
        }
      }
    }
  }

  lemma CleanPixelStays(look: Look, previous: Frame, f: Frame, x: nat, y: nat)
    requires LookOk(look) && CleanRowsAreKept(previous, f) && SizesAgree(look, previous, f) && ClipsAgree(look, previous, f)
    requires CleanPixel(look, f, x, y)
    ensures PixelStays(look, previous, f, x, y)
  {
    var row := RowOfPixel(look, f.gridRows, y);
    assert Clean(f, row);
    BandIsInFrame(look, previous, row, y);
    EqualContentsEqualPixels(look, previous, f, row, x, y);
  }

  // One frame: redrawing the dirty rows shows the new frame, if over each clean row the sizes agree and the
  // images are clipped alike.
  lemma ReplayReproduces(look: Look, previous: Frame, f: Frame)
    requires LookOk(look) && CleanRowsAreKept(previous, f) && SizesAgree(look, previous, f) && ClipsAgree(look, previous, f)
    ensures Replays(look, previous, f)
  {
    forall x: nat, y: nat | CleanPixel(look, f, x, y) ensures PixelStays(look, previous, f, x, y) {
      CleanPixelStays(look, previous, f, x, y);
    }
    ReplaysIffCleanPixelsStay(look, previous, f);
  }

  // ---------------------------------------------------------------- bare columns

  predicate Across(r: Rect, x: nat) {
    r.startX <= x < r.startX + r.width
  }

  // The cell paints nothing over column x.
  predicate CellSpares(cv: Canvas, key: RowKey, c: CellKey, x: nat) {
    && (IsSelected(key, c) || c.bg != key.defaultBg || c.underline ==> !Across(CellRect(cv, 0, c), x))
    && (!IsBlank(c.text) ==>
          !(c.col * cv.metrics.cellWidth <= x < c.col * cv.metrics.cellWidth + SpriteFor(cv, c).width))
  }

  // Neither selection nor cell of the row paints over column x.
  predicate RowSpares(cv: Canvas, key: RowKey, x: nat) {
    && (key.selection.Some? ==> !Across(SelectionRect(cv, 0, key.selection.value), x))
    && forall k :: 0 <= k < |key.cells| ==> CellSpares(cv, key, key.cells[k], x)
  }

  predicate PlacementSpares(m: Metrics, surface: Surface, p: Placement, x: nat)
    requires m.cellHeight < U32_LIMIT && m.cellWidth < U32_LIMIT
  {
    var r := TerminalImageDrawRect(p, surface.rows, surface.cols, m.cellWidth, m.cellHeight);
    r.Some? ==> !(r.value.destX <= x < r.value.destX + r.value.destWidth)
  }

  ghost predicate ImagesSpare(m: Metrics, f: Frame, row: nat, x: nat)
    requires m.cellHeight < U32_LIMIT && m.cellWidth < U32_LIMIT
  {
    forall p :: p in Filter(f.imagePlacements, Covering(row)) ==> PlacementSpares(m, SurfaceOf(f), p, x)
  }

  // Column x of the row shows nothing but the background gradient.
  ghost predicate Bare(look: Look, f: Frame, row: nat, x: nat)
    requires LookOk(look)
  {
    && RowSpares(CanvasOf(look, f.gridRows), FrameKey(look, f, row), x)
    && ImagesSpare(look.metrics, f, row, x)
  }

  lemma {:induction false} SparedBackgrounds(cv: Canvas, key: RowKey, row: nat, n: nat, x: nat, y: nat, p: Pixel)
    requires RowSpares(cv, key, x) && n <= |key.cells|
    ensures PaintCellBackgrounds(cv, key, row, n, x, y, p) == p
  {
    if n > 0 {
      SparedBackgrounds(cv, key, row, n - 1, x, y, p);
      assert CellSpares(cv, key, key.cells[n - 1], x);
    }
  }

  lemma SparedCellForeground(cv: Canvas, key: RowKey, row: nat, c: CellKey, x: nat, y: nat, p: Pixel)
    requires CanvasOk(cv) && CellSpares(cv, key, c, x)
    ensures PaintCellForeground(cv, key, row, c, x, y, p) == p
  {
  }

  lemma {:induction false} SparedForeground(cv: Canvas, key: RowKey, row: nat, n: nat, x: nat, y: nat, p: Pixel)
    requires CanvasOk(cv) && RowSpares(cv, key, x) && n <= |key.cells|
    ensures PaintRowForeground(cv, key, row, n, x, y, p) == p
  {
    if n > 0 {
      SparedForeground(cv, key, row, n - 1, x, y, p);
      SparedCellForeground(cv, key, row, key.cells[n - 1], x, y, p);
    }
  }

  lemma {:induction false} SparedByImages(m: Metrics, surface: Surface, ps: seq<Placement>, x: nat, y: nat, px: Pixel)
    requires m.cellHeight < U32_LIMIT && m.cellWidth < U32_LIMIT
    requires forall p :: p in ps ==> PlacementSpares(m, surface, p, x)
    ensures PaintPlacements(m, surface, ps, x, y, px) == px
  {
    if ps != [] {
      SparedByImages(m, surface, ps[..|ps| - 1], x, y, px);
      assert ps[|ps| - 1] in ps;
    }
  }

  lemma SparedByLayer(m: Metrics, f: Frame, row: nat, below: bool, x: nat, y: nat, px: Pixel)
    requires 1 <= m.cellHeight < U32_LIMIT && m.cellWidth < U32_LIMIT && y / m.cellHeight == row
    requires ImagesSpare(m, f, row, x)
    ensures PaintPlacements(m, SurfaceOf(f), Layer(SurfaceOf(f), below), x, y, px) == px
  {
    LayerPaintsBand(m, SurfaceOf(f), row, below, x, y, px);
    var layer := BandLayer(f.imagePlacements, row, below);
    forall p | p in layer ensures PlacementSpares(m, SurfaceOf(f), p, x) {
      BandLayerCovers(f.imagePlacements, row, below, p);
    }
    SparedByImages(m, SurfaceOf(f), layer, x, y, px);
  }

  lemma BareShowsGradient(look: Look, f: Frame, row: nat, x: nat, y: nat)
    requires LookOk(look) && row < f.gridRows && Bare(look, f, row, x) && InBand(CanvasOf(look, f.gridRows), row, y)
    ensures Shown(look, f, x, y)
            == GradientColor(CanvasOf(look, f.gridRows), Rgba8(f.palette.rowBgEven), Rgba8(f.palette.rowBgOdd), y)
  {
    var cv, key := CanvasOf(look, f.gridRows), FrameKey(look, f, row);
    var p := ShownInBand(look, f, row, x, y);
    BandsAreDisjoint(cv, row, row, y);
    SparedBackgrounds(cv, key, row, |key.cells|, x, y, PaintRowBase(cv, key, row, x, y, p));
    var ground := PaintRowBackground(cv, key, row, x, y, p);
    assert ground == GradientColor(cv, Rgba8(f.palette.rowBgEven), Rgba8(f.palette.rowBgOdd), y);
    SparedByLayer(look.metrics, f, row, true, x, y, ground);
    SparedForeground(cv, key, row, |key.cells|, x, y, ground);
    SparedByLayer(look.metrics, f, row, false, x, y, ground);
  }

  // A row of one content is bare in the same columns of both frames.
  lemma BareInBoth(look: Look, previous: Frame, f: Frame, row: nat, x: nat)
    requires LookOk(look) && CleanRowsAreKept(previous, f) && Clean(f, row)
    requires SameClips(look.metrics, previous, f, row) && Bare(look, f, row, x)
    ensures Bare(look, previous, row, x)
  {
    KeyIsContent(previous, row, look.overlay);
    KeyIsContent(f, row, look.overlay);
    PlacedImagesDecide(previous, f, row);
    var a, b := CanvasOf(look, previous.gridRows), CanvasOf(look, f.gridRows);
    var key, other := FrameKey(look, previous, row), FrameKey(look, f, row);
    forall k | 0 <= k < |key.cells| ensures CellSpares(a, key, key.cells[k], x) {
      assert CellSpares(b, other, other.cells[k], x);
    }
    forall p | p in Filter(previous.imagePlacements, Covering(row))
      ensures PlacementSpares(look.metrics, SurfaceOf(previous), p, x)
    {
      assert LandsAlike(look.metrics, SurfaceOf(previous), SurfaceOf(f), p);
    }
  }

  // ---------------------------------------------------------------- and needed

  // One screen that is replayed right tells that the gradient agrees over a row with a bare column.
  lemma ReplayNeedsGradient(look: Look, previous: Frame, f: Frame, row: nat, x: nat, screen: Screen)
    requires LookOk(look) && CleanRowsAreKept(previous, f)
    requires Shows(look, previous, screen) && Shows(look, f, Redraw(look, f, f.dirtyRows, screen))
    requires Clean(f, row) && SameClips(look.metrics, previous, f, row)
    requires x < FrameWidth(look, f) <= FrameWidth(look, previous) && Bare(look, f, row, x)
    ensures SameGradient(look, previous, f, row)
  {
    BareInBoth(look, previous, f, row, x);
    assert previous.palette == f.palette by {
      assert ContentOf(previous, row).palette == ContentOf(f, row).palette;
    }
    forall y: nat | InBand(CanvasOf(look, previous.gridRows), row, y)
      ensures var top, bottom := Rgba8(f.palette.rowBgEven), Rgba8(f.palette.rowBgOdd);
              GradientColor(CanvasOf(look, previous.gridRows), top, bottom, y)
              == GradientColor(CanvasOf(look, f.gridRows), top, bottom, y)
    {
      BareShowsGradient(look, previous, row, x, y);
      BareShowsGradient(look, f, row, x, y);
      BandIsInFrame(look, previous, row, y);
      BandIsInFrame(look, f, row, y);
      CleanPixelReplayed(look, f, x, y, screen);
    }
  }

  lemma ReplayNeedsWidth(look: Look, previous: Frame, f: Frame, row: nat)
    requires LookOk(look) && Replays(look, previous, f) && Clean(f, row)
    ensures FrameWidth(look, f) <= FrameWidth(look, previous)
  {
    var x, y := FrameWidth(look, previous), RowY(CanvasOf(look, f.gridRows), row);
    BandIsInFrame(look, f, row, y);
    ReplaysIffCleanPixelsStay(look, previous, f);
    assert CleanPixel(look, f, x, y) ==> PixelStays(look, previous, f, x, y);
  }

  // Each clean row has a column of the new frame that nothing paints over.
  ghost predicate CleanRowsHaveBareColumns(look: Look, f: Frame)
    requires LookOk(look)
  {
    forall row: nat :: Clean(f, row) ==> exists x: nat :: x < FrameWidth(look, f) && Bare(look, f, row, x)
  }

  ghost predicate GradientsAgree(look: Look, previous: Frame, f: Frame)
    requires LookOk(look)
  {
    forall row: nat :: Clean(f, row) ==> SameGradient(look, previous, f, row)
  }

  // What both if-and-only-ifs below suppose: images are clipped alike over the clean rows, and each of
  // those shows the background somewhere.
  ghost predicate Comparable(look: Look, previous: Frame, f: Frame)
    requires LookOk(look)
  {
    CleanRowsAreKept(previous, f) && ClipsAgree(look, previous, f) && CleanRowsHaveBareColumns(look, f)
  }

  // For any one screen that shows a previous frame no narrower than the new one, redrawing the dirty rows
  // shows the new frame if and only if the gradient does not tell the two heights apart over the clean rows.
  lemma ShowsIffGradientsAgree(look: Look, previous: Frame, f: Frame, screen: Screen)
    requires LookOk(look) && Comparable(look, previous, f) && Shows(look, previous, screen)
    requires FrameWidth(look, f) <= FrameWidth(look, previous)
    ensures Shows(look, f, Redraw(look, f, f.dirtyRows, screen)) <==> GradientsAgree(look, previous, f)
  {
    if GradientsAgree(look, previous, f) {
      ReplayReproduces(look, previous, f);
    }
    if Shows(look, f, Redraw(look, f, f.dirtyRows, screen)) {
      forall row: nat | Clean(f, row) ensures SameGradient(look, previous, f, row) {
        var x: nat :| x < FrameWidth(look, f) && Bare(look, f, row, x);
        ReplayNeedsGradient(look, previous, f, row, x, screen);
      }
    }
  }

  // For all such screens it does if and only if nothing is clean, or the new frame is no wider and the
  // gradients agree.
  lemma ReplaysIffSizesAgree(look: Look, previous: Frame, f: Frame)
    requires LookOk(look) && Comparable(look, previous, f)
    ensures Replays(look, previous, f) <==>
            || (forall row: nat :: !Clean(f, row))
            || (FrameWidth(look, f) <= FrameWidth(look, previous) && GradientsAgree(look, previous, f))
  {
    if (forall row: nat :: !Clean(f, row))
       || (FrameWidth(look, f) <= FrameWidth(look, previous) && GradientsAgree(look, previous, f))
    {
      ReplayReproduces(look, previous, f);
    } else if Replays(look, previous, f) {
      var row: nat :| Clean(f, row);
      ReplayNeedsWidth(look, previous, f, row);
      var screen := ShowingBeside(look, previous, BLACK);
      ShowsItself(look, previous, BLACK);
      ShowsIffGradientsAgree(look, previous, f, screen);
      assert false;
    }
  }

  // ---------------------------------------------------------------- chains of frames

  function AllRows(n: nat): (rows: seq<nat>)
    ensures forall r: nat :: r in rows <==> r < n
  {
    if n == 0 then [] else AllRows(n - 1) + [n - 1]
  }

  // A rule that is always safe: the dirty rows while the grid keeps its size, else every row.
  function RowsDue(previous: Option<Frame>, f: Frame): seq<nat> {
    if previous.Some? && SameGrid(previous.value, f) then f.dirtyRows else AllRows(f.gridRows)
  }

  lemma RedrawReproduces(look: Look, previous: Option<Frame>, f: Frame, content: nat -> Resource, screen: Screen)
    requires LookOk(look) && Follows(previous, f) && ContentAddressed(f, content)
    requires previous.Some? ==> HashesAreCurrent(previous.value) && ContentAddressed(previous.value, content)
    requires previous.Some? ==> Shows(look, previous.value, screen)
    ensures Shows(look, f, Redraw(look, f, RowsDue(previous, f), screen))
  {
    if previous.Some? && SameGrid(previous.value, f) {
      ContentAddressedKeeps(previous.value, f, content);
      SameGridAgrees(look, previous.value, f);
      ReplayReproduces(look, previous.value, f);
    } else {
      var after := Redraw(look, f, AllRows(f.gridRows), screen);
      forall x: nat, y: nat | x < FrameWidth(look, f) && y < FrameHeight(look, f)
        ensures after(x, y) == Shown(look, f, x, y)
      {
        var row := RowOfPixel(look, f.gridRows, y);
      }
    }
  }

  // Each frame was built, or restyled, against the one before.
  ghost predicate IsChain(frames: seq<Frame>) {
    && (frames != [] ==> Follows(None, frames[0]))
    && forall i :: 0 < i < |frames| ==> Follows(Some(frames[i - 1]), frames[i])
  }

  function Last(frames: seq<Frame>): Option<Frame> {
    if frames == [] then None else Some(frames[|frames| - 1])
  }

  function RedrawAll(look: Look, frames: seq<Frame>, blank: Screen): Screen
    requires LookOk(look)
  {
    if frames == [] then blank
    else
      var front, f := frames[..|frames| - 1], frames[|frames| - 1];
      Redraw(look, f, RowsDue(Last(front), f), RedrawAll(look, front, blank))
  }

  // Along any chain of frames, over any initial screen, redrawing the rows that are due shows every
  // pixel of the last frame.
  lemma {:induction false} ChainReproduces(look: Look, frames: seq<Frame>, content: nat -> Resource, blank: Screen)
    requires LookOk(look) && frames != [] && IsChain(frames)
    requires forall i :: 0 <= i < |frames| ==> ContentAddressed(frames[i], content)
    ensures Shows(look, frames[|frames| - 1], RedrawAll(look, frames, blank))
  {
    var last := |frames| - 1;
    var front := frames[..last];
    if last > 0 {
      assert IsChain(front) by {
        forall i | 0 < i < |front| ensures Follows(Some(front[i - 1]), front[i]) {
          assert Follows(Some(frames[i - 1]), frames[i]);
        }
      }
      ChainReproduces(look, front, content, blank);
      assert HashesAreCurrent(frames[last - 1]);
      assert Follows(Some(frames[last - 1]), frames[last]);
    }
    RedrawReproduces(look, Last(front), frames[last], content, RedrawAll(look, front, blank));
  }

  // ---------------------------------------------------------------- a resize in terms of sizes

  // Two frames of these sizes and palette without images, the second built against the first.
  ghost predicate ImageFreePair(palette: Palette, m: U32, c: U32, n: U32, d: U32, previous: Frame, f: Frame) {
    && HashesAreCurrent(previous) && Follows(Some(previous), f)
    && previous.imagePlacements == [] && f.imagePlacements == []
    && previous.palette == palette == f.palette
    && previous.gridRows == m && previous.gridCols == c && f.gridRows == n && f.gridCols == d
  }

  // The gradients over m rows and over n agree as far as both reach.
  ghost predicate HeightsAgree(look: Look, palette: Palette, m: nat, n: nat) {
    forall y: nat :: y < Min(m, n) * look.metrics.cellHeight ==>
      var top, bottom := Rgba8(palette.rowBgEven), Rgba8(palette.rowBgOdd);
      GradientColor(CanvasOf(look, m), top, bottom, y) == GradientColor(CanvasOf(look, n), top, bottom, y)
  }

  predicate NoWider(d: nat, c: nat) {
    Max(d, 1) <= Max(c, 1)
  }

  lemma WidthsCompare(look: Look, c: nat, d: nat)
    requires look.metrics.cellWidth >= 1
    ensures NoWider(d, c) <==> Max(d, 1) * look.metrics.cellWidth <= Max(c, 1) * look.metrics.cellWidth
  {
    if NoWider(d, c) {
      MulLe(Max(d, 1), Max(c, 1), look.metrics.cellWidth);
    } else {
      MulLe(Max(c, 1) + 1, Max(d, 1), look.metrics.cellWidth);
    }
  }

  lemma RowLinesAgree(look: Look, palette: Palette, m: nat, n: nat, row: nat)
    requires HeightsAgree(look, palette, m, n) && row < m && row < n
    ensures SameLines(CanvasOf(look, m), CanvasOf(look, n), palette.rowBgEven, palette.rowBgOdd, row)
  {
    var cv := CanvasOf(look, m);
    forall y: nat | InBand(cv, row, y)
      ensures GradientColor(cv, Rgba8(palette.rowBgEven), Rgba8(palette.rowBgOdd), y)
              == GradientColor(CanvasOf(look, n), Rgba8(palette.rowBgEven), Rgba8(palette.rowBgOdd), y)
    {
      BandIsAbove(look.metrics.cellHeight, row, Min(m, n), y);
    }
  }

  lemma BandIsAbove(h: nat, row: nat, rows: nat, y: nat)
    requires row < rows && y < row * h + h
    ensures y < rows * h
  {
    MulLe(row + 1, rows, h);
  }

  // An empty frame of n rows and d columns, built against the previous one.
  function EmptyRow(palette: Palette, row: nat): Row {
    var bare := Row(row, "", false, [], Plain(NO_HASH));
    bare.(hash := Plain(HashRow(bare, palette, None)))
  }

  function EmptyFrame(palette: Palette, n: U32, d: U32, previous: Option<Frame>): Frame {
    var rows := seq(n, r requires 0 <= r < n => EmptyRow(palette, r));
    Frame(n, d, rows, None, palette, [], [], DirtyRows(previous, rows))
  }

  lemma EmptyFrameFollows(palette: Palette, n: U32, d: U32, previous: Option<Frame>)
    ensures Follows(previous, EmptyFrame(palette, n, d, previous))
  {
    var f := EmptyFrame(palette, n, d, previous);
    forall r | 0 <= r < n ensures f.rows[r].hash == HashOf(f, f.rows[r]) {
      assert f.rows[r] == EmptyRow(palette, r);
    }
  }

  // The two frames are such a pair, and share the rows that both have.
  lemma EmptyFramesArePair(palette: Palette, m: U32, c: U32, n: U32, d: U32, previous: Frame, f: Frame)
    requires previous == EmptyFrame(palette, m, c, None) && f == EmptyFrame(palette, n, d, Some(previous))
    ensures ImageFreePair(palette, m, c, n, d, previous, f)
    ensures SharesRows(f, m, n)
  {
    EmptyFrameFollows(palette, m, c, None);
    EmptyFrameFollows(palette, n, d, Some(previous));
    forall row: nat ensures Clean(f, row) <==> row < m && row < n {
      CleanRowKeepsHash(previous, f, row);
    }
  }

  // Every row that both heights have is clean.
  ghost predicate SharesRows(f: Frame, m: nat, n: nat) {
    forall row: nat :: Clean(f, row) <==> row < m && row < n
  }

  lemma EmptyFrameIsBare(look: Look, palette: Palette, n: U32, d: U32, previous: Option<Frame>, row: nat, x: nat)
    requires LookOk(look) && row < n
    ensures Bare(look, EmptyFrame(palette, n, d, previous), row, x)
  {
    var f := EmptyFrame(palette, n, d, previous);
    FrameCellsOfRow(f.rows, row);
    assert FrameKey(look, f, row).cells == [];
  }

  lemma EmptyFramesAreComparable(look: Look, palette: Palette, m: U32, c: U32, n: U32, d: U32, previous: Frame, f: Frame)
    requires LookOk(look)
    requires previous == EmptyFrame(palette, m, c, None) && f == EmptyFrame(palette, n, d, Some(previous))
    ensures Comparable(look, previous, f)
  {
    EmptyFramesArePair(palette, m, c, n, d, previous, f);
    ImageFreeKeeps(previous, f);
    forall row: nat | Clean(f, row) ensures exists x: nat :: x < FrameWidth(look, f) && Bare(look, f, row, x) {
      EmptyFrameIsBare(look, palette, n, d, Some(previous), row, 0);
      MulLe(1, Max(d, 1), look.metrics.cellWidth);
      assert 0 < FrameWidth(look, f);
    }
  }

  // Between grids of m by c and n by d cells: the dirty rows are enough for every pair of frames without
  // images if and only if the grids share no row, or the new one is no wider and the gradients over the two
  // heights agree on the lines both have.
  lemma ResizeReplaysIff(look: Look, palette: Palette, m: U32, c: U32, n: U32, d: U32)
    requires LookOk(look)
    ensures (forall previous: Frame, f: Frame ::
               ImageFreePair(palette, m, c, n, d, previous, f) ==> Replays(look, previous, f))
            <==> Min(m, n) == 0 || (NoWider(d, c) && HeightsAgree(look, palette, m, n))
  {
    if Min(m, n) == 0 || (NoWider(d, c) && HeightsAgree(look, palette, m, n)) {
      forall previous: Frame, f: Frame | ImageFreePair(palette, m, c, n, d, previous, f)
        ensures Replays(look, previous, f)
      {
        FittingSizesReplay(look, palette, m, c, n, d, previous, f);
      }
    } else {
      var previous := EmptyFrame(palette, m, c, None);
      var f := EmptyFrame(palette, n, d, Some(previous));
      EmptyFramesArePair(palette, m, c, n, d, previous, f);
      EmptyFramesAreComparable(look, palette, m, c, n, d, previous, f);
      UnfitSizesDoNotReplay(look, palette, m, c, n, d, previous, f);
    }
  }

  lemma FittingSizesReplay(look: Look, palette: Palette, m: U32, c: U32, n: U32, d: U32, previous: Frame, f: Frame)
    requires LookOk(look) && ImageFreePair(palette, m, c, n, d, previous, f)
    requires Min(m, n) == 0 || (NoWider(d, c) && HeightsAgree(look, palette, m, n))
    ensures Replays(look, previous, f)
  {
    ImageFreeKeeps(previous, f);
    forall row: nat | Clean(f, row)
      ensures FrameWidth(look, f) <= FrameWidth(look, previous) && SameGradient(look, previous, f, row)
    {
      WidthsCompare(look, c, d);
      RowLinesAgree(look, palette, m, n, row);
    }
    ReplayReproduces(look, previous, f);
  }

  lemma UnfitSizesDoNotReplay(look: Look, palette: Palette, m: U32, c: U32, n: U32, d: U32, previous: Frame, f: Frame)
    requires LookOk(look) && ImageFreePair(palette, m, c, n, d, previous, f)
    requires SharesRows(f, m, n) && Comparable(look, previous, f)
    requires Min(m, n) > 0 && !(NoWider(d, c) && HeightsAgree(look, palette, m, n))
    ensures !Replays(look, previous, f)
  {
    ReplaysIffSizesAgree(look, previous, f);
    assert Clean(f, 0);
    WidthsCompare(look, c, d);
    if NoWider(d, c) {
      var row := RowThatDisagrees(look, palette, m, n);
      assert Clean(f, row) && !SameGradient(look, previous, f, row);
    }
  }

  lemma RowThatDisagrees(look: Look, palette: Palette, m: nat, n: nat) returns (row: nat)
    requires LookOk(look) && !HeightsAgree(look, palette, m, n)
    ensures row < m && row < n
    ensures !SameLines(CanvasOf(look, m), CanvasOf(look, n), palette.rowBgEven, palette.rowBgOdd, row)
  {
    var y: nat :| y < Min(m, n) * look.metrics.cellHeight
                  && GradientColor(CanvasOf(look, m), Rgba8(palette.rowBgEven), Rgba8(palette.rowBgOdd), y)
                     != GradientColor(CanvasOf(look, n), Rgba8(palette.rowBgEven), Rgba8(palette.rowBgOdd), y);
    row := RowOfPixel(look, Min(m, n), y);
    assert InBand(CanvasOf(look, m), row, y);
  }

  // A look for which no change of height is harmless: cells two pixels high and a gradient that reaches its
  // end colour at the last line.
  const EXAMPLE_LOOK: Look :=
    Look(Foreign((_, _, _) => MonoAlpha(0, 0, []), (top, bottom, k, n) => if k == n then bottom else top, (_, _) => 0.0),
         Metrics(1, 2, 1), 1.0, 0)

  lemma ResizeExample(palette: Palette, m: nat, n: nat)
    requires Rgba8(palette.rowBgEven) != Rgba8(palette.rowBgOdd) && Min(m, n) > 0
    ensures LookOk(EXAMPLE_LOOK)
    ensures HeightsAgree(EXAMPLE_LOOK, palette, m, n) <==> m == n
  {
    var top, bottom := Rgba8(palette.rowBgEven), Rgba8(palette.rowBgOdd);
    var y := 2 * Min(m, n) - 1;
    if m < n {
      assert GradientColor(CanvasOf(EXAMPLE_LOOK, m), top, bottom, y) == bottom;
      assert GradientColor(CanvasOf(EXAMPLE_LOOK, n), top, bottom, y) == top;
    } else if n < m {
      assert GradientColor(CanvasOf(EXAMPLE_LOOK, n), top, bottom, y) == bottom;
      assert GradientColor(CanvasOf(EXAMPLE_LOOK, m), top, bottom, y) == top;
    }
  }
}
