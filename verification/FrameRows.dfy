// The renderer-facing frame: its rows, their hashes and its dirty-row list (src/app/terminal_model.rs),
// and that the list names exactly the rows whose content changed.
module FrameRows {
  import opened Common
  import opened ImageDrawRect
  import opened Pixels
  import opened AtlasPaint
  import opened Selections
  import opened SemanticOverlay

  datatype RowMeta = RowMeta(index: nat, text: string, wrapped: bool)

  datatype TerminalSurface = TerminalSurface(
    rows: U32,
    cols: U32,
    palette: Palette,
    visibleRows: seq<RowMeta>,
    visibleLines: seq<string>,
    cells: seq<Cell>,
    imageResources: seq<Resource>,
    imagePlacements: seq<Placement>)

  // Row hashes, taken as injective. A cell's own row number is not hashed.
  datatype BaseHash = BaseHash(
    index: nat,
    palette: Palette,
    selection: Option<(nat, nat)>,
    text: string,
    wrapped: bool,
    cells: seq<CellKey>)

  // A placement and the metadata (width, height, decoded bytes) of the resource it names.
  datatype PlacedImage = PlacedImage(placement: Placement, resource: Option<(nat, nat, nat)>)

  datatype RowHash = Plain(base: BaseHash) | WithImages(base: BaseHash, images: seq<PlacedImage>)

  datatype Row = Row(index: nat, text: string, wrapped: bool, cells: seq<Cell>, hash: RowHash)

  datatype Frame = Frame(
    gridRows: U32,
    gridCols: U32,
    rows: seq<Row>,
    selection: Option<SelectionModel>,
    palette: Palette,
    imageResources: seq<Resource>,
    imagePlacements: seq<Placement>,
    dirtyRows: seq<nat>)

  // ---------------------------------------------------------------- hashing

  function StripAll(cells: seq<Cell>): (r: seq<CellKey>)
    ensures |r| == |cells|
  {
    seq(|cells|, k requires 0 <= k < |cells| => Stripped(cells[k]))
  }

  function BoundsIn(selection: Option<SelectionModel>, row: nat, cols: nat): Option<(nat, nat)> {
    if selection.None? then None else Selections.RowBounds(selection.value, row, cols)
  }

  function HashRow(row: Row, palette: Palette, selection: Option<(nat, nat)>): BaseHash {
    BaseHash(row.index, palette, selection, row.text, row.wrapped, StripAll(row.cells))
  }

  predicate CoversRow(p: Placement, row: nat) {
    p.rowSpan > 0 && p.row <= row < Min(p.row + p.rowSpan, U32_LIMIT - 1)
  }

  function Covering(row: nat): Placement -> bool {
    (p: Placement) => CoversRow(p, row)
  }

  function MetaOf(resources: seq<Resource>, key: nat): Option<(nat, nat, nat)> {
    var r := LookUp(resources, key);
    if r.None? then None else Some((r.value.width, r.value.height, |r.value.rgba|))
  }

  function Placed(resources: seq<Resource>, placements: seq<Placement>, row: nat): (r: seq<PlacedImage>)
  {
    var own := Filter(placements, Covering(row));
    seq(|own|, k requires 0 <= k < |own| => PlacedImage(own[k], MetaOf(resources, own[k].resourceKey)))
  }

  function ImageHash(base: BaseHash, resources: seq<Resource>, placements: seq<Placement>, row: nat): RowHash {
    var images := Placed(resources, placements, row);
    if images == [] then Plain(base) else WithImages(base, images)
  }

  // A row whose hash counts the images that cover it.
  function ImagesFolded(resources: seq<Resource>, placements: seq<Placement>, row: Row): Row {
    var placed := Placed(resources, placements, row.index);
    if placed == [] then row else row.(hash := WithImages(row.hash.base, placed))
  }

  // The hash a row should carry, from the frame's current contents.
  function HashOf(f: Frame, row: Row): RowHash {
    ImageHash(HashRow(row, f.palette, BoundsIn(f.selection, row.index, f.gridCols)),
              f.imageResources, f.imagePlacements, row.index)
  }

  // Every row of the grid once, holding its own cells.
  ghost predicate RowsInPlace(rows: seq<Row>, n: nat) {
    && |rows| == n
    && (forall r :: 0 <= r < n ==> rows[r].index == r)
    && forall r :: 0 <= r < n ==> CellsInRow(rows[r].cells, r)
  }

  ghost predicate CellsInRow(cells: seq<Cell>, row: nat) {
    forall k :: 0 <= k < |cells| ==> cells[k].row == row
  }

  ghost predicate HashesAreCurrent(f: Frame) {
    && RowsInPlace(f.rows, f.gridRows)
    && forall r :: 0 <= r < |f.rows| ==> f.rows[r].hash == HashOf(f, f.rows[r])
  }

  // ---------------------------------------------------------------- building rows

  function RowText(surface: TerminalSurface, row: nat): (string, bool) {
    var meta := LastMeta(surface.visibleRows, row);
    if meta.Some? then meta.value
    else if row < |surface.visibleLines| then (surface.visibleLines[row], false)
    else ("", false)
  }

  function LastMeta(metas: seq<RowMeta>, row: nat): Option<(string, bool)> {
    if metas == [] then None
    else if metas[|metas| - 1].index == row then Some((metas[|metas| - 1].text, metas[|metas| - 1].wrapped))
    else LastMeta(metas[..|metas| - 1], row)
  }

  function CellsOf(cells: seq<Cell>, row: nat): seq<Cell> {
    Filter(cells, OfRow(row))
  }

  function RowFrom(surface: TerminalSurface, selection: Option<SelectionModel>, row: nat): Row {
    var (text, wrapped) := RowText(surface, row);
    var bare := Row(row, text, wrapped, CellsOf(surface.cells, row), Plain(NO_HASH));
    bare.(hash := ImageHash(HashRow(bare, surface.palette, BoundsIn(selection, row, surface.cols)),
                            surface.imageResources, surface.imagePlacements, row))
  }

  const NO_HASH := BaseHash(0, SemanticOverlay.Palette(0, 0, 0, 0), None, "", false, [])

  // A row's text is that of the last row entry with its number, else the visible line there, else empty.
  lemma RowTextMeans(surface: TerminalSurface, row: nat)
    ensures var metas, (text, wrapped) := surface.visibleRows, RowText(surface, row);
            if exists i :: IsLastMeta(metas, row, i) then
              exists i :: IsLastMeta(metas, row, i) && text == metas[i].text && wrapped == metas[i].wrapped
            else if row < |surface.visibleLines| then text == surface.visibleLines[row] && !wrapped
            else text == "" && !wrapped
  {
    LastMetaIsLast(surface.visibleRows, row);
  }

  predicate IsLastMeta(metas: seq<RowMeta>, row: nat, i: int) {
    0 <= i < |metas| && metas[i].index == row && forall j :: i < j < |metas| ==> metas[j].index != row
  }

  lemma {:induction false} LastMetaIsLast(metas: seq<RowMeta>, row: nat)
    ensures var m := LastMeta(metas, row);
            if m.None? then forall i :: 0 <= i < |metas| ==> metas[i].index != row
            else exists i :: IsLastMeta(metas, row, i) && m.value == (metas[i].text, metas[i].wrapped)
  {
    if metas != [] {
      var front := metas[..|metas| - 1];
      if metas[|metas| - 1].index == row {
        assert IsLastMeta(metas, row, |metas| - 1);
      } else {
        LastMetaIsLast(front, row);
        if LastMeta(front, row).Some? {
          var i :| IsLastMeta(front, row, i) && LastMeta(front, row).value == (front[i].text, front[i].wrapped);
          assert IsLastMeta(metas, row, i);
        } else {
          assert forall i :: 0 <= i < |front| ==> metas[i] == front[i];
        }
      }
    }
  }

  // A frame row holds the surface's cells of that row, in order, and counts the images that span it.
  lemma SourceRowMeans(surface: TerminalSurface, previous: Option<Frame>, selection: Option<SelectionModel>, r: nat)
    requires r < surface.rows
    ensures var row := SourceFrame(surface, previous, selection).rows[r];
            && row.index == r && (row.text, row.wrapped) == RowText(surface, r)
            && row.cells == Filter(surface.cells, (c: Cell) => c.row == r)
            && (row.hash.WithImages? <==> exists p :: p in surface.imagePlacements && Spans(p, r))
  {
    FiltersAgree(surface.cells, OfRow(r), (c: Cell) => c.row == r);
    CoveringIffSpanned(surface.imagePlacements, r);
  }

  lemma CoveringIffSpanned(placements: seq<Placement>, r: nat)
    ensures Filter(placements, Covering(r)) != [] <==> exists p :: p in placements && Spans(p, r)
  {
    var own := Filter(placements, Covering(r));
    if own != [] {
      FilterOnlyKeeps(placements, Covering(r), own[0]);
      assert Spans(own[0], r);
    }
    if p :| p in placements && Spans(p, r) {
      var i :| 0 <= i < |placements| && placements[i] == p;
      FilterHas(placements, Covering(r), i);
    }
  }

  // The placement spans the row, rows below the last 32-bit one left out.
  predicate Spans(p: Placement, row: nat) {
    p.row <= row < p.row + p.rowSpan && row < U32_LIMIT - 1
  }

  // ---------------------------------------------------------------- dirty rows

  predicate SameHash(previous: Option<Frame>, row: Row) {
    previous.Some? && row.index < |previous.value.rows| && previous.value.rows[row.index].hash == row.hash
  }

  function DirtyRows(previous: Option<Frame>, rows: seq<Row>): seq<nat> {
    if rows == [] then []
    else DirtyRows(previous, rows[..|rows| - 1])
         + (if SameHash(previous, rows[|rows| - 1]) then [] else [rows[|rows| - 1].index])
  }

  lemma {:induction false} DirtyRowsContains(previous: Option<Frame>, rows: seq<Row>, r: nat)
    requires forall k :: 0 <= k < |rows| ==> rows[k].index == k
    ensures r in DirtyRows(previous, rows) <==> r < |rows| && !SameHash(previous, rows[r])
  {
    if rows != [] {
      DirtyRowsContains(previous, rows[..|rows| - 1], r);
    }
  }

  // f was built, or restyled, against previous.
  ghost predicate Follows(previous: Option<Frame>, f: Frame) {
    HashesAreCurrent(f) && f.dirtyRows == DirtyRows(previous, f.rows)
  }

  // The frame built from a surface, and the frame restyled by the spans of its rows.
  function SourceFrame(surface: TerminalSurface, previous: Option<Frame>, selection: Option<SelectionModel>): Frame {
    var rows := RowsFrom(surface, selection);
    Frame(surface.rows, surface.cols, rows, selection, surface.palette, surface.imageResources, surface.imagePlacements,
          DirtyRows(previous, rows))
  }

  function RestyledRow(f: Frame, theme: Theme, spans: seq<SpanMark>, r: nat): Row
    requires r < |f.rows|
  {
    var row := f.rows[r].(cells := OverlaidCells(theme, f.palette, f.rows[r].cells, SpansOfRow(spans, r)));
    row.(hash := HashOf(f, row))
  }

  function Restyled(f: Frame, previous: Option<Frame>, theme: Theme, spans: seq<SpanMark>): Frame {
    var rows := seq(|f.rows|, r requires 0 <= r < |f.rows| => RestyledRow(f, theme, spans, r));
    f.(rows := rows, dirtyRows := DirtyRows(previous, rows))
  }

  lemma RestyledIs(before: Frame, after: Frame, previous: Option<Frame>, theme: Theme, spans: seq<SpanMark>)
    requires Follows(previous, after) && after == before.(rows := after.rows, dirtyRows := after.dirtyRows)
    requires |after.rows| == |before.rows|
    requires forall r :: 0 <= r < |after.rows| ==>
               after.rows[r] == before.rows[r].(
                 cells := OverlaidCells(theme, before.palette, before.rows[r].cells, SpansOfRow(spans, r)),
                 hash := after.rows[r].hash)
    ensures after == Restyled(before, previous, theme, spans)
  {
    var rows := Restyled(before, previous, theme, spans).rows;
    forall r | 0 <= r < |rows| ensures rows[r] == after.rows[r] {
      assert after.rows[r].hash == HashOf(after, after.rows[r]) == HashOf(before, after.rows[r]);
    }
    assert rows == after.rows;
  }

  // ---------------------------------------------------------------- the stateful frame

  class TerminalModelFrame {
    const gridRows: U32
    const gridCols: U32
    const selection: Option<SelectionModel>
    const palette: Palette
    const imageResources: seq<Resource>
    const imagePlacements: seq<Placement>
    var rows: seq<Row>
    var dirtyRows: seq<nat>

    function Abs(): Frame
      reads this
    {
      Frame(gridRows, gridCols, rows, selection, palette, imageResources, imagePlacements, dirtyRows)
    }

    constructor FromSurfaceWithSelection(surface: TerminalSurface, previous: Option<Frame>,
                                         selection: Option<SelectionModel>)
      ensures Follows(previous, Abs())
      ensures Abs() == SourceFrame(surface, previous, selection)
    {
      gridRows, gridCols := surface.rows, surface.cols;
      this.selection, palette := selection, surface.palette;
      imageResources, imagePlacements := surface.imageResources, surface.imagePlacements;
      rows, dirtyRows := [], [];
      new;
      rows := BuildRows(surface, selection);
      ApplyTerminalImageRowHashes();
      dirtyRows := CollectDirtyRows(previous, rows);
      FoldedRowsAre(surface, selection, rows);
      SourceFollows(surface, previous, selection);
    }

    // In place: fold the images that cover a row into its hash.
    method ApplyTerminalImageRowHashes()
      modifies this`rows
      ensures |rows| == |old(rows)|
      ensures forall k :: 0 <= k < |rows| ==> rows[k] == ImagesFolded(imageResources, imagePlacements, old(rows)[k])
    {
      if imagePlacements == [] {
        return;
      }
      for r := 0 to |rows|
        invariant |rows| == |old(rows)|
        invariant forall k :: r <= k < |rows| ==> rows[k] == old(rows)[k]
        invariant forall k :: 0 <= k < r ==> rows[k] == ImagesFolded(imageResources, imagePlacements, old(rows)[k])
      {
        var placed := Placed(imageResources, imagePlacements, rows[r].index);
        if placed != [] {
          rows := rows[r := rows[r].(hash := WithImages(rows[r].hash.base, placed))];
        }
      }
    }

    // Recolour the cells of every row that has spans, then rehash everything.
    method ApplySemanticStyleOverlays(previous: Option<Frame>, theme: Theme, spans: seq<SpanMark>)
      requires HashesAreCurrent(Abs())
      modifies this
      ensures Follows(previous, Abs()) && Abs() == Restyled(old(Abs()), previous, theme, spans)
      ensures |rows| == |old(rows)|
      ensures forall r :: 0 <= r < |rows| ==>
                && rows[r].text == old(rows)[r].text && rows[r].wrapped == old(rows)[r].wrapped
                && rows[r].cells == OverlaidCells(theme, palette, old(rows)[r].cells, SpansOfRow(spans, r))
    {
      for r := 0 to |rows|
        invariant |rows| == |old(rows)|
        invariant forall k :: r <= k < |rows| ==> rows[k] == old(rows)[k]
        invariant forall k :: 0 <= k < r ==>
                    rows[k] == old(rows)[k].(cells := OverlaidCells(theme, palette, old(rows)[k].cells, SpansOfRow(spans, k)))
      {
        var rowSpans := SpansOfRow(spans, rows[r].index);
        if rowSpans == [] {
          NoSpansNoChange(theme, palette, rows[r].cells);
          continue;
        }
        var cells := OverlayCells(theme, palette, rows[r].cells, rowSpans);
        rows := rows[r := rows[r].(cells := cells)];
      }
      forall r | 0 <= r < |rows| ensures CellsInRow(rows[r].cells, r) {
        OverlaidStayInRow(theme, palette, old(rows)[r].cells, SpansOfRow(spans, r), r);
      }
      RecomputeRowHashes(previous);
      RestyledIs(old(Abs()), Abs(), previous, theme, spans);
    }

    // In place: every row's hash from its own content.
    method RehashRows()
      modifies this`rows
      ensures |rows| == |old(rows)|
      ensures forall r :: 0 <= r < |rows| ==> rows[r] == Rehashed(old(rows)[r], palette, selection, gridCols)
    {
      for r := 0 to |rows|
        invariant |rows| == |old(rows)|
        invariant forall k :: r <= k < |rows| ==> rows[k] == old(rows)[k]
        invariant forall k :: 0 <= k < r ==> rows[k] == Rehashed(old(rows)[k], palette, selection, gridCols)
      {
        var hash := Plain(HashRow(rows[r], palette, BoundsIn(selection, rows[r].index, gridCols)));
        rows := rows[r := rows[r].(hash := hash)];
      }
    }

    method RecomputeRowHashes(previous: Option<Frame>)
      requires RowsInPlace(rows, gridRows)
      modifies this
      ensures Follows(previous, Abs())
      ensures |rows| == |old(rows)|
      ensures forall r :: 0 <= r < |rows| ==> rows[r] == old(rows)[r].(hash := rows[r].hash)
    {
      RehashRows();
      ApplyTerminalImageRowHashes();
      forall r | 0 <= r < |rows| ensures RowIsCurrent(Abs(), r) && rows[r] == old(rows)[r].(hash := rows[r].hash) {
        FoldedIsCurrent(Abs(), old(rows)[r], r);
      }
      dirtyRows := CollectDirtyRows(previous, rows);
    }
  }

  function Rehashed(row: Row, palette: Palette, selection: Option<SelectionModel>, cols: nat): Row {
    row.(hash := Plain(HashRow(row, palette, BoundsIn(selection, row.index, cols))))
  }

  predicate RowIsCurrent(f: Frame, r: nat)
    requires r < |f.rows|
  {
    f.rows[r].hash == HashOf(f, f.rows[r])
  }

  lemma FoldedIsCurrent(f: Frame, row: Row, r: nat)
    requires r < |f.rows|
    requires f.rows[r] == ImagesFolded(f.imageResources, f.imagePlacements,
                                       Rehashed(row, f.palette, f.selection, f.gridCols))
    ensures RowIsCurrent(f, r) && f.rows[r] == row.(hash := f.rows[r].hash)
  {
  }

  function BareRow(surface: TerminalSurface, selection: Option<SelectionModel>, row: nat): Row {
    var full := RowFrom(surface, selection, row);
    full.(hash := Plain(full.hash.base))
  }

  function RowsFrom(surface: TerminalSurface, selection: Option<SelectionModel>): (rows: seq<Row>)
    ensures |rows| == surface.rows
  {
    seq(surface.rows, r requires 0 <= r < surface.rows => RowFrom(surface, selection, r))
  }

  lemma BuiltRowsInPlace(surface: TerminalSurface, selection: Option<SelectionModel>)
    ensures RowsInPlace(RowsFrom(surface, selection), surface.rows)
  {
    forall r | 0 <= r < surface.rows ensures CellsInRow(RowsFrom(surface, selection)[r].cells, r) {
      var idx := FilterIndices(surface.cells, OfRow(r));
    }
  }

  lemma FoldedRowsAre(surface: TerminalSurface, selection: Option<SelectionModel>, rows: seq<Row>)
    requires |rows| == surface.rows
    requires forall k :: 0 <= k < |rows| ==>
               rows[k] == ImagesFolded(surface.imageResources, surface.imagePlacements, BareRow(surface, selection, k))
    ensures rows == RowsFrom(surface, selection)
  {
    forall k | 0 <= k < |rows| ensures rows[k] == RowFrom(surface, selection, k) {
    }
  }

  lemma SourceFollows(surface: TerminalSurface, previous: Option<Frame>, selection: Option<SelectionModel>)
    ensures Follows(previous, SourceFrame(surface, previous, selection))
  {
    BuiltRowsInPlace(surface, selection);
  }

  lemma OverlaidStayInRow(theme: Theme, palette: Palette, cells: seq<Cell>, spans: seq<SpanMark>, row: nat)
    requires CellsInRow(cells, row)
    ensures CellsInRow(OverlaidCells(theme, palette, cells, spans), row)
  {
  }

  // The first n rows with the hash of their own content only.
  function BareRows(surface: TerminalSurface, selection: Option<SelectionModel>, n: nat): (rows: seq<Row>)
    ensures |rows| == n && forall k :: 0 <= k < n ==> rows[k] == BareRow(surface, selection, k)
  {
    if n == 0 then [] else BareRows(surface, selection, n - 1) + [BareRow(surface, selection, n - 1)]
  }

  method BuildRows(surface: TerminalSurface, selection: Option<SelectionModel>) returns (rows: seq<Row>)
    ensures |rows| == surface.rows && forall k :: 0 <= k < |rows| ==> rows[k] == BareRow(surface, selection, k)
  {
    var byRow := GroupCells(surface.cells);
    rows := [];
    for r := 0 to surface.rows
      invariant rows == BareRows(surface, selection, r)
    {
      var cells := if r in byRow then byRow[r] else [];
      assert cells == CellsOf(surface.cells, r);
      var row := BuildRow(surface, selection, r, cells);
      rows := rows + [row];
    }
  }

  method BuildRow(surface: TerminalSurface, selection: Option<SelectionModel>, r: nat, cells: seq<Cell>)
    returns (row: Row)
    requires cells == CellsOf(surface.cells, r)
    ensures row == BareRow(surface, selection, r)
  {
    var (text, wrapped) := RowText(surface, r);
    row := Row(r, text, wrapped, cells, Plain(NO_HASH));
    row := row.(hash := Plain(HashRow(row, surface.palette, BoundsIn(selection, r, surface.cols))));
  }

  method GroupCells(cells: seq<Cell>) returns (byRow: map<nat, seq<Cell>>)
    ensures forall r :: (if r in byRow then byRow[r] else []) == CellsOf(cells, r)
  {
    byRow := map[];
    for i := 0 to |cells|
      invariant forall r :: (if r in byRow then byRow[r] else []) == CellsOf(cells[..i], r)
    {
      var cell := cells[i];
      assert cells[..i + 1] == cells[..i] + [cell];
      forall r ensures CellsOf(cells[..i + 1], r) == CellsOf(cells[..i], r) + (if cell.row == r then [cell] else []) {
        FilterAppend(cells[..i], cell, OfRow(r));
      }
      byRow := byRow[cell.row := (if cell.row in byRow then byRow[cell.row] else []) + [cell]];
    }
    assert cells[..|cells|] == cells;
  }

  method CollectDirtyRows(previous: Option<Frame>, rows: seq<Row>) returns (dirty: seq<nat>)
    ensures dirty == DirtyRows(previous, rows)
  {
    dirty := [];
    for k := 0 to |rows|
      invariant dirty == DirtyRows(previous, rows[..k])
    {
      assert rows[..k + 1][..k] == rows[..k];
      if !SameHash(previous, rows[k]) {
        dirty := dirty + [rows[k].index];
      }
    }
    assert rows[..|rows|] == rows;
  }

  // The overlay loop over one row's cells, with the source's five local variables.
  method OverlayCells(theme: Theme, palette: Palette, cells: seq<Cell>, spans: seq<SpanMark>) returns (r: seq<Cell>)
    ensures r == OverlaidCells(theme, palette, cells, spans)
  {
    r := cells;
    for k := 0 to |cells|
      invariant |r| == |cells|
      invariant forall j :: 0 <= j < k ==> r[j] == OverlaidCell(theme, palette, cells[j], spans)
      invariant forall j :: k <= j < |cells| ==> r[j] == cells[j]
    {
      var cell := r[k];
      if cell.width == 0 || cell.text == "" {
        continue;
      }
      var desiredFg: Option<(nat, Rgba)>, desiredBg: Option<(nat, Rgba)> := None, None;
      var underline, bold := cell.underline, cell.bold;
      var searchBackground: Option<Rgba> := None;
      for s := 0 to |spans|
        invariant Desired(desiredFg, desiredBg, underline, bold, searchBackground)
                  == ConsiderSpans(theme, palette, cell, spans[..s])
      {
        assert spans[..s + 1][..s] == spans[..s];
        if !OverlapsSpan(cell, spans[s]) {
          continue;
        }
        if spans[s].role == OutputGrepMatch {
          searchBackground := Some(theme.searchBlend(cell.bg));
          continue;
        }
        if PreservesPaint(spans[s].role) {
          continue;
        }
        var style, priority := theme.style(spans[s].role), Priority(spans[s].role);
        if style.underline {
          underline := true;
        }
        if style.bold {
          bold := true;
        }
        if cell.fg == palette.defaultFg && (desiredFg.None? || priority >= desiredFg.value.0) {
          desiredFg := Some((priority, Opaque(style.foreground)));
        }
        if style.background.Some? && cell.bg == palette.defaultBg
           && (desiredBg.None? || priority >= desiredBg.value.0)
        {
          desiredBg := Some((priority, Opaque(style.background.value)));
        }
      }
      assert spans[..|spans|] == spans;
      if desiredFg.Some? {
        cell := cell.(fg := desiredFg.value.1);
      }
      if desiredBg.Some? {
        cell := cell.(bg := desiredBg.value.1);
      }
      if searchBackground.Some? {
        cell := cell.(bg := searchBackground.value);
      }
      r := r[k := cell.(underline := underline, bold := bold)];
    }
  }

  lemma NoSpansNoChange(theme: Theme, palette: Palette, cells: seq<Cell>)
    ensures OverlaidCells(theme, palette, cells, []) == cells
  {
    forall k | 0 <= k < |cells| ensures OverlaidCell(theme, palette, cells[k], []) == cells[k] {
      PreservingRolesChangeNothing(theme, palette, cells[k], []);
    }
  }

  // ---------------------------------------------------------------- replaying dirty rows

  // What a row's hash is to detect a change of: everything that goes into the row's own hash, and the
  // images over the row with their pixels, of which only the metadata is hashed.
  datatype Content = Content(
    text: string,
    wrapped: bool,
    cells: seq<CellKey>,
    palette: Palette,
    selection: Option<(nat, nat)>,
    images: seq<(Placement, Option<Resource>)>)

  function PlacedImages(f: Frame, row: nat): seq<(Placement, Option<Resource>)> {
    var own := Filter(f.imagePlacements, Covering(row));
    seq(|own|, k requires 0 <= k < |own| => (own[k], LookUp(f.imageResources, own[k].resourceKey)))
  }

  function ContentOf(f: Frame, row: nat): Content
    requires row < |f.rows|
  {
    var r := f.rows[row];
    Content(r.text, r.wrapped, StripAll(r.cells), f.palette, BoundsIn(f.selection, row, f.gridCols), PlacedImages(f, row))
  }

  // A content hash identifies an image: resources with the same hash are the same image.
  ghost predicate ContentAddressed(f: Frame, content: nat -> Resource) {
    forall r :: r in f.imageResources ==> r == content(r.contentHash)
  }

  lemma {:induction false} LookUpIsContent(resources: seq<Resource>, key: nat, content: nat -> Resource)
    requires forall r :: r in resources ==> r == content(r.contentHash)
    ensures LookUp(resources, key).Some? ==> LookUp(resources, key).value == content(key)
  {
    if resources != [] {
      LookUpIsContent(resources[..|resources| - 1], key, content);
    }
  }

  // Hashing placements with mere metadata is enough: equal placed lists name equal images.
  lemma PlacedDeterminesImages(f: Frame, g: Frame, row: nat, content: nat -> Resource)
    requires ContentAddressed(f, content) && ContentAddressed(g, content)
    requires Placed(f.imageResources, f.imagePlacements, row) == Placed(g.imageResources, g.imagePlacements, row)
    ensures PlacedImages(f, row) == PlacedImages(g, row)
  {
    var a, b := Placed(f.imageResources, f.imagePlacements, row), Placed(g.imageResources, g.imagePlacements, row);
    assert |PlacedImages(f, row)| == |a| && |PlacedImages(g, row)| == |b|;
    forall k | 0 <= k < |a| ensures PlacedImages(f, row)[k] == PlacedImages(g, row)[k] {
      assert a[k] == b[k];
      LookUpIsContent(f.imageResources, a[k].placement.resourceKey, content);
      LookUpIsContent(g.imageResources, a[k].placement.resourceKey, content);
    }
  }

  // Rows have equal hashes if and only if they have equal contents, although images are hashed by
  // metadata only.
  lemma EqualHashesIffEqualContents(f: Frame, g: Frame, row: nat, content: nat -> Resource)
    requires HashesAreCurrent(f) && HashesAreCurrent(g)
    requires ContentAddressed(f, content) && ContentAddressed(g, content)
    requires row < |f.rows| && row < |g.rows|
    ensures f.rows[row].hash == g.rows[row].hash <==> ContentOf(f, row) == ContentOf(g, row)
  {
    if f.rows[row].hash == g.rows[row].hash {
      PlacedDeterminesImages(f, g, row, content);
    } else if ContentOf(f, row) == ContentOf(g, row) {
      EqualContentsEqualHashes(f, g, row);
    }
  }

  lemma EqualContentsEqualHashes(f: Frame, g: Frame, row: nat)
    requires HashesAreCurrent(f) && HashesAreCurrent(g)
    requires row < |f.rows| && row < |g.rows| && ContentOf(f, row) == ContentOf(g, row)
    ensures f.rows[row].hash == g.rows[row].hash
  {
    var a, b := Placed(f.imageResources, f.imagePlacements, row), Placed(g.imageResources, g.imagePlacements, row);
    var p, q := PlacedImages(f, row), PlacedImages(g, row);
    assert |a| == |p| && |b| == |q|;
    forall k | 0 <= k < |a| ensures a[k] == b[k] {
      assert p[k] == q[k];
    }
    assert a == b;
  }

  // The dirty list names exactly the rows whose content is new or changed: no row is redrawn in vain.
  lemma DirtyRowsAreExact(previous: Frame, f: Frame, content: nat -> Resource, r: nat)
    requires HashesAreCurrent(previous) && Follows(Some(previous), f)
    requires ContentAddressed(previous, content) && ContentAddressed(f, content)
    ensures r in f.dirtyRows <==>
            r < |f.rows| && (r >= |previous.rows| || ContentOf(f, r) != ContentOf(previous, r))
  {
    DirtyRowsContains(Some(previous), f.rows, r);
    if r < |f.rows| && r < |previous.rows| {
      EqualHashesIffEqualContents(f, previous, r, content);
    }
  }
}
