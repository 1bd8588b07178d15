// The bitmap presenter (src/app/terminal_presenter.rs): each surface becomes a frame, the frame is restyled,
// and the atlas renders it incrementally. Over any run the retained pixels show the last styled frame, and
// between two presents only the rows that frame lists as dirty change.
module TerminalPresenter {
  import opened Common
  import opened Pixels
  import opened ImageDrawRect
  import opened AtlasPaint
  import opened AtlasIncremental
  import opened AtlasRenderer
  import opened Selections
  import opened SemanticOverlay
  import opened FrameRows
  import opened FramePixels
  import opened FrameReplay

  // The atlas's selection, whose constructor puts the earlier end first.
  predicate InOrder(s: Selection) {
    Le(Position(s.startRow, s.startCol), Position(s.endRow, s.endCol))
  }

  type AtlasSelection = s: Selection | InOrder(s) witness Selection(0, 0, 0, 0)

  // What a present is given besides the surface; annotate is the semantic analysis of the frame.
  datatype Options = Options(
    selection: Option<AtlasSelection>,
    overlay: Rgba,
    theme: Theme,
    annotate: Frame -> seq<SpanMark>)

  datatype Presenter = Presenter(atlas: Atlas, source: Option<Frame>, styled: Option<Frame>)

  function NewPresenter(logical: Metrics): Presenter {
    Presenter(NewAtlas(logical), None, None)
  }

  function ModelSelection(s: Option<AtlasSelection>): Option<SelectionModel> {
    if s.None? then None
    else Some(NewSelection(Position(s.value.startRow, s.value.startCol), Position(s.value.endRow, s.value.endCol)))
  }

  function NextSource(p: Presenter, surface: TerminalSurface, o: Options): Frame {
    SourceFrame(surface, p.source, ModelSelection(o.selection))
  }

  function NextStyled(p: Presenter, surface: TerminalSurface, o: Options): Frame {
    var source := NextSource(p, surface, o);
    Restyled(source, p.styled, o.theme, o.annotate(source))
  }

  ghost predicate PresenterOk(foreign: Foreign, p: Presenter) {
    && AtlasIncremental.Inv(foreign, p.atlas)
    && (p.styled.Some? ==> HashesAreCurrent(p.styled.value))
  }

  ghost function Presented(foreign: Foreign, p: Presenter, surface: TerminalSurface, o: Options): Presenter
    requires PresenterOk(foreign, p)
  {
    var styled := NextStyled(p, surface, o);
    RenderKeepsInv(foreign, p.atlas, SurfaceOf(styled), o.selection, o.overlay);
    Presenter(Render(foreign, p.atlas, SurfaceOf(styled), o.selection, o.overlay),
              Some(NextSource(p, surface, o)), Some(styled))
  }

  function Cleared(p: Presenter): Presenter {
    Presenter(AtlasIncremental.ClearTransientCaches(p.atlas), None, None)
  }

  // ---------------------------------------------------------------- the stateful presenter

  class BitmapAtlasPresenter {
    const renderer: TerminalAtlasRenderer
    var previousSourceFrame: Option<Frame>
    var previousStyledFrame: Option<Frame>

    ghost function Abs(): Presenter
      reads this, renderer, renderer.pixels
    {
      Presenter(renderer.Abs(), previousSourceFrame, previousStyledFrame)
    }

    ghost predicate Valid()
      reads this, renderer, renderer.pixels
    {
      renderer.Valid() && PresenterOk(renderer.foreign, Abs())
    }

    constructor (foreign: Foreign, logical: Metrics)
      requires SpritesFit(foreign) && LogicalOk(logical)
      ensures Valid() && Abs() == NewPresenter(logical) && renderer.foreign == foreign
      ensures fresh(renderer) && fresh(renderer.pixels)
    {
      renderer := new TerminalAtlasRenderer(foreign, logical);
      previousSourceFrame, previousStyledFrame := None, None;
    }

    method SetRasterScale(requested: Option<real>)
      requires Valid()
      modifies renderer
      ensures Valid() && Abs() == old(Abs()).(atlas := AtlasIncremental.SetRasterScale(old(Abs()).atlas, requested))
      ensures renderer.pixels == old(renderer.pixels) || fresh(renderer.pixels)
    {
      renderer.SetRasterScale(requested);
    }

    method Present(surface: TerminalSurface, o: Options) returns (rerendered: seq<nat>)
      requires Valid()
      modifies this, renderer, renderer.pixels
      ensures PresenterOk(renderer.foreign, old(Abs()))
      ensures Valid() && Abs() == Presented(renderer.foreign, old(Abs()), surface, o)
      ensures renderer.pixels == old(renderer.pixels) || fresh(renderer.pixels)
    {
      var selection := ModelSelection(o.selection);
      var frame := new TerminalModelFrame.FromSurfaceWithSelection(surface, previousSourceFrame, selection);
      var source := frame.Abs();
      frame.ApplySemanticStyleOverlays(previousStyledFrame, o.theme, o.annotate(source));
      rerendered := renderer.RenderWithSelection(SurfaceOf(frame.Abs()), o.selection, o.overlay);
      previousSourceFrame, previousStyledFrame := Some(source), Some(frame.Abs());
    }

    method ClearTransientCaches()
      requires Valid()
      modifies this, renderer
      ensures Valid() && Abs() == Cleared(old(Abs())) && fresh(renderer.pixels)
    {
      previousSourceFrame, previousStyledFrame := None, None;
      renderer.ClearTransientCaches();
    }
  }

  // ---------------------------------------------------------------- one present

  lemma StyledFollows(p: Presenter, surface: TerminalSurface, o: Options)
    ensures Follows(p.styled, NextStyled(p, surface, o))
    ensures SelectionOf(NextStyled(p, surface, o)) == o.selection
  {
    var source := NextSource(p, surface, o);
    BuiltRowsInPlace(surface, ModelSelection(o.selection));
    forall r | 0 <= r < |source.rows|
      ensures CellsInRow(RestyledRow(source, o.theme, o.annotate(source), r).cells, r)
    {
      OverlaidStayInRow(o.theme, source.palette, source.rows[r].cells, SpansOfRow(o.annotate(source), r), r);
    }
  }

  // The styled frame a present shows: the surface's cells of each row under the spans found for that row in the
  // frame, in the surface's palette, with its images and the given selection.
  lemma StyledMeans(p: Presenter, surface: TerminalSurface, o: Options, r: nat)
    requires r < surface.rows
    ensures var f, source := NextStyled(p, surface, o), NextSource(p, surface, o);
            && f.gridRows == surface.rows && f.gridCols == surface.cols && f.palette == surface.palette
            && f.imageResources == surface.imageResources && f.imagePlacements == surface.imagePlacements
            && SelectionOf(f) == o.selection && Follows(p.source, source)
            && f.rows[r].cells == OverlaidCells(o.theme, surface.palette, Filter(surface.cells, (c: Cell) => c.row == r),
                                                Filter(o.annotate(source), (s: SpanMark) => s.row == r))
  {
    StyledFollows(p, surface, o);
    SourceFollows(surface, p.source, ModelSelection(o.selection));
    SourceRowMeans(surface, p.source, ModelSelection(o.selection), r);
    assert SpansOfRow(o.annotate(NextSource(p, surface, o)), r)
           == Filter(o.annotate(NextSource(p, surface, o)), (s: SpanMark) => s.row == r);
  }

  lemma PresentedIsOk(foreign: Foreign, p: Presenter, surface: TerminalSurface, o: Options)
    requires PresenterOk(foreign, p)
    ensures PresenterOk(foreign, Presented(foreign, p, surface, o))
  {
    var styled := NextStyled(p, surface, o);
    StyledFollows(p, surface, o);
    RenderKeepsInv(foreign, p.atlas, SurfaceOf(styled), o.selection, o.overlay);
  }

  // The look an atlas draws with.
  function LookOf(foreign: Foreign, a: Atlas, overlay: Rgba): Look {
    Look(foreign, a.metrics, a.scale, overlay)
  }

  lemma LookIsOk(foreign: Foreign, a: Atlas, overlay: Rgba)
    requires AtlasIncremental.Inv(foreign, a)
    ensures LookOk(LookOf(foreign, a, overlay))
  {
    CanvasIsOk(foreign, a, 0);
  }

  // The retained pixels are those of the frame.
  ghost predicate Retains(foreign: Foreign, a: Atlas, overlay: Rgba, f: Frame)
    requires LookOk(LookOf(foreign, a, overlay))
  {
    var look := LookOf(foreign, a, overlay);
    && a.width == FrameWidth(look, f) > 0 && a.height == FrameHeight(look, f) && |a.pixels| == a.width * a.height
    && forall k :: 0 <= k < |a.pixels| ==> a.pixels[k] == Shown(look, f, ColOf(k, a.width), RowOf(k, a.width))
  }

  lemma PresentedRetains(foreign: Foreign, p: Presenter, surface: TerminalSurface, o: Options)
    requires PresenterOk(foreign, p) && surface.rows >= 1
    ensures var next := Presented(foreign, p, surface, o);
            LookOk(LookOf(foreign, next.atlas, o.overlay))
            && Retains(foreign, next.atlas, o.overlay, NextStyled(p, surface, o))
  {
    var styled := NextStyled(p, surface, o);
    PresentedIsOk(foreign, p, surface, o);
    LookIsOk(foreign, Presented(foreign, p, surface, o).atlas, o.overlay);
    StyledFollows(p, surface, o);
    RenderIsFromScratch(foreign, p.atlas, SurfaceOf(styled), o.selection, o.overlay);
  }

  // ---------------------------------------------------------------- runs

  datatype Op =
    | PresentOp(surface: TerminalSurface, options: Options)
    | ScaleOp(scale: Option<real>)
    | ClearOp

  ghost function Next(foreign: Foreign, p: Presenter, op: Op): (next: Presenter)
    requires PresenterOk(foreign, p)
    ensures PresenterOk(foreign, next)
  {
    match op
    case PresentOp(surface, options) =>
      PresentedIsOk(foreign, p, surface, options);
      Presented(foreign, p, surface, options)
    case ScaleOp(scale) =>
      SetScaleKeepsInv(foreign, p.atlas, scale);
      p.(atlas := AtlasIncremental.SetRasterScale(p.atlas, scale))
    case ClearOp => Cleared(p)
  }

  // The presenter after a run of operations from new.
  ghost function After(foreign: Foreign, logical: Metrics, ops: seq<Op>): (p: Presenter)
    requires SpritesFit(foreign) && LogicalOk(logical)
    ensures PresenterOk(foreign, p)
  {
    if ops == [] then NewPresenter(logical)
    else Next(foreign, After(foreign, logical, ops[..|ops| - 1]), ops[|ops| - 1])
  }

  // The selection overlay of the last present.
  function LastOverlay(ops: seq<Op>): Rgba {
    if ops == [] then 0
    else if ops[|ops| - 1].PresentOp? then ops[|ops| - 1].options.overlay
    else LastOverlay(ops[..|ops| - 1])
  }

  // Whatever the presenter retains is the last styled frame.
  ghost predicate ShowsLast(foreign: Foreign, p: Presenter, overlay: Rgba)
    requires PresenterOk(foreign, p)
  {
    LookIsOk(foreign, p.atlas, overlay);
    && (p.styled.None? ==> p.atlas.pixels == [])
    && (p.styled.Some? && p.styled.value.gridRows >= 1 ==>
          p.atlas.pixels == [] || Retains(foreign, p.atlas, overlay, p.styled.value))
  }

  // After any run of presents, scale changes and cache clears, the retained pixels, if there are any, are
  // those of the last styled frame, as long as it has a row.
  lemma {:induction false} RetainedShowsLastFrame(foreign: Foreign, logical: Metrics, ops: seq<Op>)
    requires SpritesFit(foreign) && LogicalOk(logical)
    ensures ShowsLast(foreign, After(foreign, logical, ops), LastOverlay(ops))
  {
    if ops != [] {
      var front, last := ops[..|ops| - 1], ops[|ops| - 1];
      RetainedShowsLastFrame(foreign, logical, front);
      NextShowsLast(foreign, After(foreign, logical, front), LastOverlay(front), last);
    }
  }

  lemma NextShowsLast(foreign: Foreign, p: Presenter, overlay: Rgba, op: Op)
    requires PresenterOk(foreign, p) && ShowsLast(foreign, p, overlay)
    ensures ShowsLast(foreign, Next(foreign, p, op), if op.PresentOp? then op.options.overlay else overlay)
  {
    if op.PresentOp? && op.surface.rows >= 1 {
      PresentedRetains(foreign, p, op.surface, op.options);
    }
  }

  // The styled frames presented since the last cache clear.
  ghost function FramesSince(foreign: Foreign, logical: Metrics, ops: seq<Op>): seq<Frame>
    requires SpritesFit(foreign) && LogicalOk(logical)
  {
    if ops == [] then []
    else
      var front, last := ops[..|ops| - 1], ops[|ops| - 1];
      match last
      case PresentOp(surface, o) =>
        FramesSince(foreign, logical, front) + [NextStyled(After(foreign, logical, front), surface, o)]
      case ScaleOp(_) => FramesSince(foreign, logical, front)
      case ClearOp => []
  }

  // They are a chain, each built against the one before, scale changes between them or not: what
  // ChainReproduces says of chains holds of the presenter's own frames.
  lemma {:induction false} PresentedFramesAreAChain(foreign: Foreign, logical: Metrics, ops: seq<Op>)
    requires SpritesFit(foreign) && LogicalOk(logical)
    ensures IsChain(FramesSince(foreign, logical, ops))
    ensures Last(FramesSince(foreign, logical, ops)) == After(foreign, logical, ops).styled
    ensures After(foreign, logical, ops).source.Some? <==> After(foreign, logical, ops).styled.Some?
  {
    if ops != [] {
      var front, last := ops[..|ops| - 1], ops[|ops| - 1];
      PresentedFramesAreAChain(foreign, logical, front);
      if last.PresentOp? {
        var p := After(foreign, logical, front);
        StyledFollows(p, last.surface, last.options);
        ChainSnoc(FramesSince(foreign, logical, front), NextStyled(p, last.surface, last.options));
      }
    }
  }

  lemma ChainSnoc(frames: seq<Frame>, f: Frame)
    requires IsChain(frames) && Follows(Last(frames), f)
    ensures IsChain(frames + [f]) && Last(frames + [f]) == Some(f)
  {
    var longer := frames + [f];
    forall i | 0 < i < |longer| ensures Follows(Some(longer[i - 1]), longer[i]) {
      if i < |frames| {
        assert Follows(Some(frames[i - 1]), frames[i]);
      }
    }
  }

  // ---------------------------------------------------------------- what a present changes

  lemma RetainedPixel(foreign: Foreign, a: Atlas, overlay: Rgba, f: Frame, x: nat, y: nat)
    requires LookOk(LookOf(foreign, a, overlay)) && Retains(foreign, a, overlay, f)
    requires x < a.width && y < a.height
    ensures 0 <= y * a.width + x < |a.pixels|
    ensures a.pixels[y * a.width + x] == Shown(LookOf(foreign, a, overlay), f, x, y)
  {
    FlatIndex(a.width, a.height, x, y);
  }

  lemma PresentKeepsLook(foreign: Foreign, p: Presenter, surface: TerminalSurface, o: Options)
    requires PresenterOk(foreign, p)
    ensures LookOf(foreign, Presented(foreign, p, surface, o).atlas, o.overlay) == LookOf(foreign, p.atlas, o.overlay)
  {
  }

  // What the presenter retains of its last frame, and the frame of the next present.
  ghost predicate Steady(foreign: Foreign, p: Presenter, overlay: Rgba, f: Frame, content: nat -> Resource)
    requires PresenterOk(foreign, p)
  {
    LookIsOk(foreign, p.atlas, overlay);
    && p.styled.Some? && p.styled.value.gridRows >= 1 && p.atlas.pixels != []
    && ContentAddressed(p.styled.value, content) && ContentAddressed(f, content)
    && SizesAgree(LookOf(foreign, p.atlas, overlay), p.styled.value, f)
    && ClipsAgree(LookOf(foreign, p.atlas, overlay), p.styled.value, f)
  }

  // The pixel at (x, y) was retained, and is the same in both.
  predicate SamePixel(before: Atlas, after: Atlas, x: nat, y: nat) {
    && y * before.width + x < |before.pixels| && y * after.width + x < |after.pixels|
    && after.pixels[y * after.width + x] == before.pixels[y * before.width + x]
  }

  // A present without a change of overlay or scale, whatever it repaints, changes no retained pixel outside
  // the rows its styled frame lists as dirty, if over the clean rows the sizes agree and the images are
  // clipped alike; on a grid that keeps its size they do (SameGridAgrees).
  lemma OnlyDirtyRowsChange(foreign: Foreign, logical: Metrics, ops: seq<Op>, p: Presenter,
                            surface: TerminalSurface, o: Options, content: nat -> Resource, x: nat, y: nat)
    requires SpritesFit(foreign) && LogicalOk(logical) && surface.rows >= 1
    requires p == After(foreign, logical, ops) && o.overlay == LastOverlay(ops)
    requires Steady(foreign, p, o.overlay, NextStyled(p, surface, o), content)
    requires var look := LookOf(foreign, p.atlas, o.overlay);
             LookOk(look) && CleanPixel(look, NextStyled(p, surface, o), x, y)
    ensures SamePixel(p.atlas, Presented(foreign, p, surface, o).atlas, x, y)
  {
    RetainedShowsLastFrame(foreign, logical, ops);
    LookIsOk(foreign, p.atlas, o.overlay);
    PresentedRetains(foreign, p, surface, o);
    PresentKeepsLook(foreign, p, surface, o);
    StyledFollows(p, surface, o);
    CleanPixelIsKept(foreign, p.atlas, Presented(foreign, p, surface, o).atlas, o.overlay,
                     p.styled.value, NextStyled(p, surface, o), content, x, y);
  }

  lemma CleanPixelIsKept(foreign: Foreign, before: Atlas, after: Atlas, overlay: Rgba, previous: Frame, f: Frame,
                         content: nat -> Resource, x: nat, y: nat)
    requires LookOk(LookOf(foreign, before, overlay)) && LookOf(foreign, before, overlay) == LookOf(foreign, after, overlay)
    requires Retains(foreign, before, overlay, previous) && Retains(foreign, after, overlay, f)
    requires HashesAreCurrent(previous) && Follows(Some(previous), f)
    requires ContentAddressed(previous, content) && ContentAddressed(f, content)
    requires SizesAgree(LookOf(foreign, before, overlay), previous, f)
    requires ClipsAgree(LookOf(foreign, before, overlay), previous, f)
    requires CleanPixel(LookOf(foreign, before, overlay), f, x, y)
    ensures SamePixel(before, after, x, y)
  {
    ContentAddressedKeeps(previous, f, content);
    CleanPixelStays(LookOf(foreign, before, overlay), previous, f, x, y);
    RetainedPixel(foreign, before, overlay, previous, x, y);
    RetainedPixel(foreign, after, overlay, f, x, y);
  }
}
