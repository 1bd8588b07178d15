// What a pixel of a frame shows, read off the surface: which cell's background, underline or glyph, which
// image, or the bare gradient (src/app/terminal_atlas.rs). The laws speak of cells, columns and lines, and hold
// of the from-scratch repaint, so of every retained pixel of the renderer.
module AtlasPixelLaws {
  import opened Common
  import opened Pixels
  import opened ImageDrawRect
  import opened AtlasPaint
  import opened Selections

  // All that a frame is drawn from.
  datatype Scene = Scene(cv: Canvas, surface: Surface, selection: Option<Selection>, overlay: Rgba)

  // The pixel drawn at (x, y).
  function Drawn(s: Scene, x: nat, y: nat): Pixel
    requires CanvasOk(s.cv)
  {
    FromScratch(s.cv, s.surface, s.selection, s.overlay, x, y)
  }

  // ---------------------------------------------------------------- colours

  // Mixing a colour in by its alpha; the result is opaque.
  function Mixed(p: Pixel, color: Pixel, alpha: Byte): Pixel {
    Pixel(Mix(p.r, color.r, alpha), Mix(p.g, color.g, alpha), Mix(p.b, color.b, alpha), 255)
  }

  // The same, where a fully transparent colour leaves the pixel as it is.
  function Over(p: Pixel, color: Pixel, alpha: Byte): Pixel {
    if alpha == 0 then p else Mixed(p, color, alpha)
  }

  function Opaque(color: Pixel): Pixel {
    Pixel(color.r, color.g, color.b, 255)
  }

  // The background gradient on one line, from the first row colour at the top to the second at the bottom.
  function LineColor(s: Scene, y: nat): Pixel {
    var top, bottom := Rgba8(s.surface.rowBgEven), Rgba8(s.surface.rowBgOdd);
    if s.cv.height <= 1 || top == bottom then top
    else s.cv.foreign.lerp(top, bottom, Min(y, s.cv.height - 1), s.cv.height - 1)
  }

  // The one colour a row's cells take for its gradient: that of its middle line.
  function Tint(s: Scene, row: nat): Pixel {
    LineColor(s, row * s.cv.metrics.cellHeight + s.cv.metrics.cellHeight / 2)
  }

  function Highlighted(s: Scene, p: Pixel): Pixel {
    Mixed(p, Rgba8(s.overlay), Rgba8(s.overlay).a)
  }

  // The four colours a selected cell's text may take.
  function TextCandidates(fg: Pixel, defaultFg: Pixel): seq<Pixel> {
    [fg, defaultFg, Pixel(255, 255, 255, 255), Pixel(0, 0, 0, 255)]
  }

  // Hidden text stays hidden; other text takes the candidate of highest contrast to the highlighted background,
  // the latest of equals.
  lemma SelectedTextIsReadable(cv: Canvas, fg: Pixel, bg: Pixel, defaultFg: Pixel, shown: Pixel)
    ensures var colors, r := TextCandidates(fg, defaultFg), SelectedForeground(cv, fg, bg, defaultFg, shown);
            if fg.r == bg.r && fg.g == bg.g && fg.b == bg.b then r == shown
            else exists i :: 0 <= i < 4 && r == colors[i] && IsBest(cv, colors, shown, i)
  {
    var colors := TextCandidates(fg, defaultFg);
    var i := if cv.foreign.contrast(colors[1], shown) >= cv.foreign.contrast(colors[0], shown) then 1 else 0;
    var j := if cv.foreign.contrast(colors[2], shown) >= cv.foreign.contrast(colors[i], shown) then 2 else i;
    var k := if cv.foreign.contrast(colors[3], shown) >= cv.foreign.contrast(colors[j], shown) then 3 else j;
    assert IsBest(cv, colors, shown, k);
  }

  predicate IsBest(cv: Canvas, colors: seq<Pixel>, shown: Pixel, i: nat)
    requires i < |colors|
  {
    forall j :: 0 <= j < |colors| ==>
                  && cv.foreign.contrast(colors[j], shown) <= cv.foreign.contrast(colors[i], shown)
                  && (j > i ==> cv.foreign.contrast(colors[j], shown) < cv.foreign.contrast(colors[i], shown))
  }

  // ---------------------------------------------------------------- cells

  // The cells of the row, in the order they are listed.
  function CellsOn(s: Scene, row: nat): seq<Cell> {
    Filter(s.surface.cells, (c: Cell) => c.row == row)
  }

  function Columns(c: Cell): nat {
    Max(c.width, 1)
  }

  // The column lies in the selection, in reading order, and in the grid.
  predicate Marked(s: Scene, row: nat, col: nat) {
    && s.selection.Some? && col < s.surface.cols
    && Le(Position(s.selection.value.startRow, s.selection.value.startCol), Position(row, col))
    && Lt(Position(row, col), Position(s.selection.value.endRow, s.selection.value.endCol))
  }

  // Some column of the cell is selected.
  ghost predicate CellMarked(s: Scene, row: nat, c: Cell) {
    exists col :: c.col <= col < c.col + Columns(c) && Marked(s, row, col)
  }

  function PlainColor(s: Scene, row: nat, c: Cell): Pixel {
    if c.bg == s.surface.defaultBg then Tint(s, row) else Rgba8(c.bg)
  }

  ghost function BackColor(s: Scene, row: nat, c: Cell): Pixel {
    if CellMarked(s, row, c) then Highlighted(s, PlainColor(s, row, c)) else PlainColor(s, row, c)
  }

  // A selected cell's text takes the most readable of four colours, see SelectedTextIsReadable.
  ghost function TextColor(s: Scene, row: nat, c: Cell): Pixel {
    if CellMarked(s, row, c)
    then SelectedForeground(s.cv, Rgba8(c.fg), PlainColor(s, row, c), Rgba8(s.surface.defaultFg), BackColor(s, row, c))
    else Rgba8(c.fg)
  }

  predicate InRow(m: Metrics, row: nat, y: nat) {
    row * m.cellHeight <= y < (row + 1) * m.cellHeight
  }

  predicate InCell(m: Metrics, c: Cell, x: nat) {
    c.col * m.cellWidth <= x < (c.col + Columns(c)) * m.cellWidth
  }

  // The cell paints its background over column x of its row.
  ghost predicate Backs(s: Scene, row: nat, c: Cell, x: nat) {
    (CellMarked(s, row, c) || c.bg != s.surface.defaultBg) && InCell(s.cv.metrics, c, x)
  }

  // The underline's first line: one line above the cell's bottom, where there is room for that.
  function UnderlineTop(cv: Canvas, row: nat): nat {
    row * cv.metrics.cellHeight + Max(cv.metrics.cellHeight - UnderlineThickness(cv.scale) - 1, 0)
  }

  predicate Underlines(s: Scene, row: nat, c: Cell, x: nat, y: nat) {
    && c.underline && InCell(s.cv.metrics, c, x)
    && UnderlineTop(s.cv, row) <= y < UnderlineTop(s.cv, row) + UnderlineThickness(s.cv.scale)
  }

  function Glyph(s: Scene, c: Cell): Sprite {
    s.cv.foreign.sprite(s.cv.metrics, s.cv.scale, ClusterKey(c.text, Columns(c), c.bold))
  }

  // The cell's glyph has a pixel at (x, y); blank text has no glyph.
  predicate Inks(s: Scene, row: nat, c: Cell, x: nat, y: nat) {
    && (exists i :: 0 <= i < |c.text| && !IsWhitespace(c.text[i]))
    && c.col * s.cv.metrics.cellWidth <= x < c.col * s.cv.metrics.cellWidth + Glyph(s, c).width
    && row * s.cv.metrics.cellHeight <= y < row * s.cv.metrics.cellHeight + Glyph(s, c).height
  }

  // The colour and alpha of the glyph's pixel at (x, y): an alpha mask in the text colour, or its own colour.
  ghost function GlyphPixel(s: Scene, row: nat, c: Cell, x: nat, y: nat): (Pixel, Byte)
    requires CanvasOk(s.cv) && Inks(s, row, c, x, y)
  {
    var g := Glyph(s, c);
    var gx, gy := x - c.col * s.cv.metrics.cellWidth, y - row * s.cv.metrics.cellHeight;
    SpriteIndex(g.width, g.height, gx, gy);
    match g
    case MonoAlpha(w, h, alpha) => (TextColor(s, row, c), alpha[gy * w + gx])
    case ColorRgba(w, h, rgba) => (rgba[gy * w + gx], rgba[gy * w + gx].a)
  }

  ghost function GlyphOver(s: Scene, row: nat, c: Cell, x: nat, y: nat, p: Pixel): Pixel
    requires CanvasOk(s.cv) && Inks(s, row, c, x, y)
  {
    Over(p, GlyphPixel(s, row, c, x, y).0, GlyphPixel(s, row, c, x, y).1)
  }

  predicate Touches(s: Scene, row: nat, c: Cell, x: nat, y: nat) {
    Underlines(s, row, c, x, y) || Inks(s, row, c, x, y)
  }

  // ---------------------------------------------------------------- who comes last

  // Cell j of the row is the last that paints its background over column x; -1 if none does.
  ghost predicate LastBacking(s: Scene, row: nat, x: nat, j: int) {
    && -1 <= j < |CellsOn(s, row)|
    && (j >= 0 ==> Backs(s, row, CellsOn(s, row)[j], x))
    && forall i :: j < i < |CellsOn(s, row)| ==> !Backs(s, row, CellsOn(s, row)[i], x)
  }

  // Cell k of the row is the last whose underline or glyph reaches (x, y); -1 if none does.
  ghost predicate LastTouching(s: Scene, row: nat, x: nat, y: nat, k: int) {
    && -1 <= k < |CellsOn(s, row)|
    && (k >= 0 ==> Touches(s, row, CellsOn(s, row)[k], x, y))
    && forall i :: k < i < |CellsOn(s, row)| ==> !Touches(s, row, CellsOn(s, row)[i], x, y)
  }

  // There is always a last one, or none.
  lemma LastsExist(s: Scene, row: nat, x: nat, y: nat) returns (j: int, k: int)
    ensures LastBacking(s, row, x, j) && LastTouching(s, row, x, y, k)
  {
    j := LastBackingBelow(s, row, x, |CellsOn(s, row)|);
    k := LastTouchingBelow(s, row, x, y, |CellsOn(s, row)|);
  }

  lemma {:induction false} LastBackingBelow(s: Scene, row: nat, x: nat, n: nat) returns (j: int)
    requires n <= |CellsOn(s, row)| && forall i :: n <= i < |CellsOn(s, row)| ==> !Backs(s, row, CellsOn(s, row)[i], x)
    ensures LastBacking(s, row, x, j)
  {
    j := n - 1;
    if n > 0 && !Backs(s, row, CellsOn(s, row)[n - 1], x) {
      j := LastBackingBelow(s, row, x, n - 1);
    }
  }

  lemma {:induction false} LastTouchingBelow(s: Scene, row: nat, x: nat, y: nat, n: nat) returns (k: int)
    requires n <= |CellsOn(s, row)|
    requires forall i :: n <= i < |CellsOn(s, row)| ==> !Touches(s, row, CellsOn(s, row)[i], x, y)
    ensures LastTouching(s, row, x, y, k)
  {
    k := n - 1;
    if n > 0 && !Touches(s, row, CellsOn(s, row)[n - 1], x, y) {
      k := LastTouchingBelow(s, row, x, y, n - 1);
    }
  }

  // What is behind the text at (x, y): the last cell background, the selection, or the gradient.
  ghost function Ground(s: Scene, row: nat, x: nat, y: nat, j: int): Pixel
    requires s.cv.metrics.cellWidth > 0 && j < |CellsOn(s, row)|
  {
    if j >= 0 then BackColor(s, row, CellsOn(s, row)[j])
    else if Marked(s, row, x / s.cv.metrics.cellWidth) then Highlighted(s, Tint(s, row))
    else LineColor(s, y)
  }

  // ---------------------------------------------------------------- the painters' key, read off the surface

  function KeyFor(s: Scene, row: nat): RowKey {
    KeyOf(s.surface, s.selection, s.overlay, row)
  }

  lemma CellsAreKeys(s: Scene, row: nat)
    ensures |KeyFor(s, row).cells| == |CellsOn(s, row)|
    ensures forall i :: 0 <= i < |CellsOn(s, row)| ==> KeyFor(s, row).cells[i] == Stripped(CellsOn(s, row)[i])
  {
    FiltersAgree(s.surface.cells, OfRow(row), (c: Cell) => c.row == row);
  }

  lemma BoundsMean(s: Scene, row: nat)
    ensures var b := KeyFor(s, row).selection;
            && (b.Some? ==> b.value.0 <= b.value.1 < s.surface.cols && KeyFor(s, row).overlay == s.overlay)
            && forall col: nat :: Marked(s, row, col) <==> b.Some? && b.value.0 <= col <= b.value.1
  {
    if s.selection.Some? {
      var v := s.selection.value;
      var m := SelectionModel(Position(v.startRow, v.startCol), Position(v.endRow, v.endCol));
      AtlasBoundsAgree(m, row, 0, s.surface.cols);
      forall col: nat ensures Marked(s, row, col) <==>
        var b := KeyFor(s, row).selection; b.Some? && b.value.0 <= col <= b.value.1
      {
        AtlasBoundsAgree(m, row, col, s.surface.cols);
        if col < s.surface.cols {
          RowBoundsAreTheInterval(m, row, col, s.surface.cols);
        }
      }
    }
  }

  lemma SelectedMeans(s: Scene, row: nat, c: Cell)
    ensures IsSelected(KeyFor(s, row), Stripped(c)) <==> CellMarked(s, row, c)
  {
    BoundsMean(s, row);
    var b := KeyFor(s, row).selection;
    if b.Some? {
      CellSelectedIffAColumnIs(b.value, c.col, Columns(c));
      if Overlaps(b.value, c.col, Columns(c)) {
        var col :| c.col <= col < c.col + Columns(c) && ColumnSelected(b.value, col);
        assert Marked(s, row, col);
      }
      if CellMarked(s, row, c) {
        var col :| c.col <= col < c.col + Columns(c) && Marked(s, row, col);
        assert ColumnSelected(b.value, col);
      }
    }
  }

  lemma BandIsRow(cv: Canvas, row: nat, y: nat)
    ensures InBand(cv, row, y) <==> InRow(cv.metrics, row, y)
  {
  }

  lemma SpanIsColumns(col: nat, span: nat, w: nat)
    ensures col * w + span * w == (col + span) * w
  {
  }

  // The painters' colours are those of the laws.
  lemma ColoursMean(s: Scene, row: nat, c: Cell)
    ensures var key, cell := KeyFor(s, row), Stripped(c);
            && RowColor(s.cv, key, row) == Tint(s, row)
            && CellBackground(s.cv, key, row, cell) == PlainColor(s, row, c)
            && ShownBackground(s.cv, key, row, cell) == BackColor(s, row, c)
            && ShownForeground(s.cv, key, row, cell) == TextColor(s, row, c)
  {
    BoundsMean(s, row);
    SelectedMeans(s, row, c);
  }

  // ---------------------------------------------------------------- backgrounds

  lemma OneBackground(s: Scene, row: nat, c: Cell, x: nat, y: nat, p: Pixel)
    requires InRow(s.cv.metrics, row, y)
    ensures PaintCellBackground(s.cv, KeyFor(s, row), row, Stripped(c), x, y, p)
            == if Backs(s, row, c, x) then BackColor(s, row, c) else p
  {
    ColoursMean(s, row, c);
    SelectedMeans(s, row, c);
    SpanIsColumns(c.col, Columns(c), s.cv.metrics.cellWidth);
  }

  lemma {:induction false} NoBackgrounds(s: Scene, row: nat, from: nat, n: nat, x: nat, y: nat, p: Pixel)
    requires from <= n <= |CellsOn(s, row)| == |KeyFor(s, row).cells| && InRow(s.cv.metrics, row, y)
    requires forall i :: from <= i < n ==> !Backs(s, row, CellsOn(s, row)[i], x)
    ensures PaintCellBackgrounds(s.cv, KeyFor(s, row), row, n, x, y, p)
            == PaintCellBackgrounds(s.cv, KeyFor(s, row), row, from, x, y, p)
    decreases n
  {
    if from < n {
      NoBackgrounds(s, row, from, n - 1, x, y, p);
      CellsAreKeys(s, row);
      OneBackground(s, row, CellsOn(s, row)[n - 1], x, y,
                    PaintCellBackgrounds(s.cv, KeyFor(s, row), row, n - 1, x, y, p));
    }
  }

  lemma QuotientIn(x: nat, w: nat, lo: nat, hi: nat)
    requires w > 0
    ensures lo * w <= x < (hi + 1) * w <==> lo <= x / w <= hi
  {
    assert x / w * w <= x < (x / w + 1) * w;
    if lo <= x / w {
      MulLe(lo, x / w, w);
    } else {
      MulLe(x / w + 1, lo, w);
    }
    if x / w <= hi {
      MulLe(x / w + 1, hi + 1, w);
    } else {
      MulLe(hi + 1, x / w, w);
    }
  }

  lemma SelectionCovers(cv: Canvas, row: nat, b: (nat, nat), x: nat, y: nat)
    requires b.0 <= b.1 && InRow(cv.metrics, row, y) && cv.metrics.cellWidth > 0
    ensures Covers(SelectionRect(cv, row, b), x, y) <==> b.0 <= x / cv.metrics.cellWidth <= b.1
  {
    SpanIsColumns(b.0, b.1 - b.0 + 1, cv.metrics.cellWidth);
    QuotientIn(x, cv.metrics.cellWidth, b.0, b.1);
    BandIsRow(cv, row, y);
  }

  lemma BaseIsGround(s: Scene, row: nat, x: nat, y: nat, p: Pixel)
    requires InRow(s.cv.metrics, row, y) && s.cv.metrics.cellWidth > 0
    ensures PaintRowBase(s.cv, KeyFor(s, row), row, x, y, p) == Ground(s, row, x, y, -1)
  {
    BoundsMean(s, row);
    BandIsRow(s.cv, row, y);
    var b := KeyFor(s, row).selection;
    if b.Some? {
      SelectionCovers(s.cv, row, b.value, x, y);
      assert Marked(s, row, x / s.cv.metrics.cellWidth) <==> b.value.0 <= x / s.cv.metrics.cellWidth <= b.value.1;
      assert RowColor(s.cv, KeyFor(s, row), row) == Tint(s, row);
    } else {
      assert !Marked(s, row, x / s.cv.metrics.cellWidth);
    }
  }

  // Behind the text there is the ground.
  lemma RowBackgroundIsGround(s: Scene, row: nat, x: nat, y: nat, p: Pixel, j: int)
    requires InRow(s.cv.metrics, row, y) && s.cv.metrics.cellWidth > 0 && LastBacking(s, row, x, j)
    ensures PaintRowBackground(s.cv, KeyFor(s, row), row, x, y, p) == Ground(s, row, x, y, j)
  {
    CellsAreKeys(s, row);
    BaseIsGround(s, row, x, y, p);
    var base := PaintRowBase(s.cv, KeyFor(s, row), row, x, y, p);
    NoBackgrounds(s, row, j + 1, |CellsOn(s, row)|, x, y, base);
    if j >= 0 {
      OneBackground(s, row, CellsOn(s, row)[j], x, y,
                    PaintCellBackgrounds(s.cv, KeyFor(s, row), row, j, x, y, base));
    }
  }

  // ---------------------------------------------------------------- text

  // What the cell's underline and glyph make of a pixel.
  ghost function TextOver(s: Scene, row: nat, c: Cell, x: nat, y: nat, p: Pixel): Pixel
    requires CanvasOk(s.cv)
  {
    var underlined := if Underlines(s, row, c, x, y) then TextColor(s, row, c) else p;
    if Inks(s, row, c, x, y) then GlyphOver(s, row, c, x, y, underlined) else underlined
  }

  lemma UnderlineCovers(s: Scene, row: nat, c: Cell, x: nat, y: nat)
    ensures c.underline && Covers(UnderlineRect(s.cv, row, Stripped(c)), x, y) <==> Underlines(s, row, c, x, y)
  {
    SpanIsColumns(c.col, Columns(c), s.cv.metrics.cellWidth);
  }

  lemma GlyphIsSprite(s: Scene, c: Cell)
    requires CanvasOk(s.cv)
    ensures SpriteFor(s.cv, Stripped(c)) == Glyph(s, c) && SpriteOk(Glyph(s, c))
  {
  }

  lemma GlyphBlits(s: Scene, row: nat, c: Cell, x: nat, y: nat, p: Pixel, g: Sprite)
    requires CanvasOk(s.cv) && !IsBlank(c.text) && g == Glyph(s, c) && SpriteOk(g)
    ensures Blit(g, c.col * s.cv.metrics.cellWidth, RowY(s.cv, row), TextColor(s, row, c), x, y, p)
            == if Inks(s, row, c, x, y) then GlyphOver(s, row, c, x, y, p) else p
  {
  }

  lemma OneForeground(s: Scene, row: nat, c: Cell, x: nat, y: nat, p: Pixel)
    requires CanvasOk(s.cv)
    ensures PaintCellForeground(s.cv, KeyFor(s, row), row, Stripped(c), x, y, p) == TextOver(s, row, c, x, y, p)
  {
    ColoursMean(s, row, c);
    UnderlineCovers(s, row, c, x, y);
    if !IsBlank(c.text) {
      GlyphIsSprite(s, c);
      GlyphBlits(s, row, c, x, y, if Underlines(s, row, c, x, y) then TextColor(s, row, c) else p, Glyph(s, c));
    }
  }

  lemma {:induction false} NoForegrounds(s: Scene, row: nat, from: nat, n: nat, x: nat, y: nat, p: Pixel)
    requires CanvasOk(s.cv) && from <= n <= |CellsOn(s, row)| == |KeyFor(s, row).cells|
    requires forall i :: from <= i < n ==> !Touches(s, row, CellsOn(s, row)[i], x, y)
    ensures PaintRowForeground(s.cv, KeyFor(s, row), row, n, x, y, p)
            == PaintRowForeground(s.cv, KeyFor(s, row), row, from, x, y, p)
    decreases n
  {
    if from < n {
      NoForegrounds(s, row, from, n - 1, x, y, p);
      CellsAreKeys(s, row);
      OneForeground(s, row, CellsOn(s, row)[n - 1], x, y, PaintRowForeground(s.cv, KeyFor(s, row), row, n - 1, x, y, p));
    }
  }

  ghost predicate NoneTouchesBefore(s: Scene, row: nat, x: nat, y: nat, k: int)
    requires k <= |CellsOn(s, row)|
  {
    forall i :: 0 <= i < k ==> !Touches(s, row, CellsOn(s, row)[i], x, y)
  }

  // What the cells before the last touching one left; p itself if none of them touches.
  lemma BeforeLast(s: Scene, row: nat, x: nat, y: nat, p: Pixel, k: nat) returns (q: Pixel)
    requires CanvasOk(s.cv) && k <= |CellsOn(s, row)| == |KeyFor(s, row).cells|
    ensures q == PaintRowForeground(s.cv, KeyFor(s, row), row, k, x, y, p)
    ensures NoneTouchesBefore(s, row, x, y, k) ==> q == p
  {
    q := PaintRowForeground(s.cv, KeyFor(s, row), row, k, x, y, p);
    if NoneTouchesBefore(s, row, x, y, k) {
      NoForegrounds(s, row, 0, k, x, y, p);
    }
  }

  // The last cell that touches a pixel has the last word over whatever the earlier ones left.
  lemma RowForegroundIsLast(s: Scene, row: nat, x: nat, y: nat, p: Pixel, k: int) returns (q: Pixel)
    requires CanvasOk(s.cv) && LastTouching(s, row, x, y, k)
    ensures |CellsOn(s, row)| == |KeyFor(s, row).cells|
    ensures PaintRowForeground(s.cv, KeyFor(s, row), row, |KeyFor(s, row).cells|, x, y, p)
            == if k < 0 then p else TextOver(s, row, CellsOn(s, row)[k], x, y, q)
    ensures NoneTouchesBefore(s, row, x, y, k) ==> q == p
  {
    CellsAreKeys(s, row);
    NoForegrounds(s, row, k + 1, |CellsOn(s, row)|, x, y, p);
    q := p;
    if k >= 0 {
      q := BeforeLast(s, row, x, y, p, k);
      OneForeground(s, row, CellsOn(s, row)[k], x, y, q);
    }
  }

  // ---------------------------------------------------------------- images

  // The placement's image has a pixel at (x, y).
  predicate Reaches(s: Scene, p: Placement, x: nat, y: nat)
    requires CanvasOk(s.cv)
  {
    var image := LookUp(s.surface.imageResources, p.resourceKey);
    var rect := TerminalImageDrawRect(p, s.surface.rows, s.surface.cols, s.cv.metrics.cellWidth, s.cv.metrics.cellHeight);
    && image.Some? && image.value.width > 0 && image.value.height > 0
    && image.value.width * image.value.height * 4 <= |image.value.rgba|
    && rect.Some?
    && rect.value.destX <= x < rect.value.destX + rect.value.destWidth
    && rect.value.destY <= y < rect.value.destY + rect.value.destHeight
  }

  // The pixel of the image sampled for (x, y); where that lies in the image is SampleIsNearest's.
  function ImagePixel(s: Scene, p: Placement, x: nat, y: nat): Pixel
    requires CanvasOk(s.cv) && Reaches(s, p, x, y)
  {
    var image := LookUp(s.surface.imageResources, p.resourceKey).value;
    var d := TerminalImageDrawRect(p, s.surface.rows, s.surface.cols, s.cv.metrics.cellWidth, s.cv.metrics.cellHeight).value;
    var column := SourceIndex(d.uv.left, d.uv.right, x - d.destX, d.destWidth, image.width);
    var line := SourceIndex(d.uv.top, d.uv.bottom, y - d.destY, d.destHeight, image.height);
    ResourceIndex(image, column, line);
    var i := (line * image.width + column) * 4;
    Pixel(image.rgba[i], image.rgba[i + 1], image.rgba[i + 2], image.rgba[i + 3])
  }

  function ImageOver(s: Scene, p: Placement, x: nat, y: nat, q: Pixel): Pixel
    requires CanvasOk(s.cv)
  {
    if Reaches(s, p, x, y) then Over(q, ImagePixel(s, p, x, y), ImagePixel(s, p, x, y).a) else q
  }

  lemma OneImage(s: Scene, p: Placement, x: nat, y: nat, q: Pixel)
    requires CanvasOk(s.cv)
    ensures PaintPlacement(s.cv.metrics, s.surface, p, x, y, q) == ImageOver(s, p, x, y, q)
  {
  }

  predicate InUpperLayer(p: Placement) {
    p.zIndex >= 0
  }

  // No image of the layer has a pixel at (x, y).
  ghost predicate LayerMisses(s: Scene, upper: bool, x: nat, y: nat)
    requires CanvasOk(s.cv)
  {
    forall p :: p in s.surface.imagePlacements && InUpperLayer(p) == upper ==> !Reaches(s, p, x, y)
  }

  predicate DrawnEarlier(q: Placement, p: Placement) {
    q.zIndex < p.zIndex || (q.zIndex == p.zIndex && q.protocolOrder < p.protocolOrder)
  }

  // Among the layer's images at (x, y), p is drawn last.
  ghost predicate TopImage(s: Scene, upper: bool, x: nat, y: nat, p: Placement)
    requires CanvasOk(s.cv)
  {
    && p in s.surface.imagePlacements && InUpperLayer(p) == upper && Reaches(s, p, x, y)
    && forall q :: q in s.surface.imagePlacements && InUpperLayer(q) == upper && q != p && Reaches(s, q, x, y) ==>
                     DrawnEarlier(q, p)
  }

  // It is the only one, placed once.
  ghost predicate SoleImage(s: Scene, upper: bool, x: nat, y: nat, p: Placement)
    requires CanvasOk(s.cv)
  {
    && multiset(s.surface.imagePlacements)[p] == 1 && InUpperLayer(p) == upper && Reaches(s, p, x, y)
    && forall q :: q in s.surface.imagePlacements && InUpperLayer(q) == upper && q != p ==> !Reaches(s, q, x, y)
  }

  lemma {:induction false} MissingImages(s: Scene, ps: seq<Placement>, from: nat, n: nat, x: nat, y: nat, q: Pixel)
    requires CanvasOk(s.cv) && from <= n <= |ps| && forall i :: from <= i < n ==> !Reaches(s, ps[i], x, y)
    ensures PaintPlacements(s.cv.metrics, s.surface, ps[..n], x, y, q)
            == PaintPlacements(s.cv.metrics, s.surface, ps[..from], x, y, q)
    decreases n
  {
    if from < n {
      MissingImages(s, ps, from, n - 1, x, y, q);
      assert ps[..n][..n - 1] == ps[..n - 1] && ps[..n][n - 1] == ps[n - 1];
      OneImage(s, ps[n - 1], x, y, PaintPlacements(s.cv.metrics, s.surface, ps[..n - 1], x, y, q));
    }
  }

  // The last image that reaches the pixel is drawn over what the earlier ones left.
  lemma LastImageIsOver(s: Scene, ps: seq<Placement>, m: nat, x: nat, y: nat, q: Pixel)
    requires CanvasOk(s.cv) && m < |ps| && Reaches(s, ps[m], x, y)
    requires forall i :: m < i < |ps| ==> !Reaches(s, ps[i], x, y)
    ensures PaintPlacements(s.cv.metrics, s.surface, ps, x, y, q)
            == ImageOver(s, ps[m], x, y, PaintPlacements(s.cv.metrics, s.surface, ps[..m], x, y, q))
  {
    MissingImages(s, ps, m + 1, |ps|, x, y, q);
    assert ps[..|ps|] == ps && ps[..m + 1][..m] == ps[..m] && ps[..m + 1][m] == ps[m];
    OneImage(s, ps[m], x, y, PaintPlacements(s.cv.metrics, s.surface, ps[..m], x, y, q));
  }

  lemma LayerHas(s: Scene, upper: bool, p: Placement)
    ensures p in Layer(s.surface, !upper) <==> p in s.surface.imagePlacements && InUpperLayer(p) == upper
    ensures DrawnInOrder(Layer(s.surface, !upper))
    ensures InUpperLayer(p) == upper ==> multiset(Layer(s.surface, !upper))[p] == multiset(s.surface.imagePlacements)[p]
  {
    var own := Filter(s.surface.imagePlacements, InLayer(!upper));
    SortPlacementsSorts(own);
    FilterCount(s.surface.imagePlacements, InLayer(!upper), p);
    assert p in multiset(Layer(s.surface, !upper)) <==> p in multiset(own);
    assert p in multiset(s.surface.imagePlacements) <==> p in s.surface.imagePlacements;
  }

  lemma {:induction false} FilterCount<T>(s: seq<T>, keep: T -> bool, x: T)
    ensures multiset(Filter(s, keep))[x] == if keep(x) then multiset(s)[x] else 0
  {
    if s != [] {
      FilterCount(s[1..], keep, x);
      assert s == [s[0]] + s[1..];
    }
  }

  lemma MissedLayer(s: Scene, upper: bool, x: nat, y: nat, q: Pixel)
    requires CanvasOk(s.cv) && LayerMisses(s, upper, x, y)
    ensures PaintPlacements(s.cv.metrics, s.surface, Layer(s.surface, !upper), x, y, q) == q
  {
    var ps := Layer(s.surface, !upper);
    forall i | 0 <= i < |ps| ensures !Reaches(s, ps[i], x, y) {
      LayerHas(s, upper, ps[i]);
    }
    MissingImages(s, ps, 0, |ps|, x, y, q);
    assert ps[..|ps|] == ps;
  }

  // The last position of the layer that reaches the pixel.
  lemma {:induction false} LastReaching(s: Scene, ps: seq<Placement>, at: nat, x: nat, y: nat) returns (m: nat)
    requires CanvasOk(s.cv) && at < |ps| && Reaches(s, ps[at], x, y)
    ensures at <= m < |ps| && Reaches(s, ps[m], x, y) && forall i :: m < i < |ps| ==> !Reaches(s, ps[i], x, y)
    decreases |ps| - at
  {
    if i: nat :| at < i < |ps| && Reaches(s, ps[i], x, y) {
      m := LastReaching(s, ps, i, x, y);
    } else {
      m := at;
    }
  }

  lemma OpaqueOver(q: Pixel, color: Pixel)
    ensures Over(q, color, 255) == Opaque(color)
  {
  }

  // The top image is at the last position of its layer that reaches the pixel.
  lemma TopIsLast(s: Scene, upper: bool, x: nat, y: nat, p: Placement, ps: seq<Placement>) returns (m: nat)
    requires CanvasOk(s.cv) && TopImage(s, upper, x, y, p) && ps == Layer(s.surface, !upper)
    ensures m < |ps| && ps[m] == p && forall i :: m < i < |ps| ==> !Reaches(s, ps[i], x, y)
  {
    LayerHas(s, upper, p);
    var at :| 0 <= at < |ps| && ps[at] == p;
    m := LastReaching(s, ps, at, x, y);
    LayerHas(s, upper, ps[m]);
    assert at < m ==> DrawsBefore(ps[at], ps[m]);
  }

  // An opaque image that is drawn last in its layer hides what was there before.
  lemma TopImageHides(s: Scene, upper: bool, x: nat, y: nat, p: Placement, q: Pixel)
    requires CanvasOk(s.cv) && TopImage(s, upper, x, y, p) && ImagePixel(s, p, x, y).a == 255
    ensures PaintPlacements(s.cv.metrics, s.surface, Layer(s.surface, !upper), x, y, q) == Opaque(ImagePixel(s, p, x, y))
  {
    var ps := Layer(s.surface, !upper);
    var m := TopIsLast(s, upper, x, y, p, ps);
    LastImageIsOver(s, ps, m, x, y, q);
    OpaqueOver(PaintPlacements(s.cv.metrics, s.surface, ps[..m], x, y, q), ImagePixel(s, p, x, y));
  }

  lemma SoleImageIsOver(s: Scene, upper: bool, x: nat, y: nat, p: Placement, q: Pixel)
    requires CanvasOk(s.cv) && SoleImage(s, upper, x, y, p)
    ensures PaintPlacements(s.cv.metrics, s.surface, Layer(s.surface, !upper), x, y, q)
            == Over(q, ImagePixel(s, p, x, y), ImagePixel(s, p, x, y).a)
  {
    var ps := Layer(s.surface, !upper);
    LayerHas(s, upper, p);
    assert p in multiset(s.surface.imagePlacements);
    var at :| 0 <= at < |ps| && ps[at] == p;
    forall i | 0 <= i < |ps| && i != at ensures !Reaches(s, ps[i], x, y) {
      LayerHas(s, upper, ps[i]);
      OnceOnly(ps, at, i);
    }
    LastImageIsOver(s, ps, at, x, y, q);
    MissingImages(s, ps, 0, at, x, y, q);
  }

  lemma OnceOnly<T>(ps: seq<T>, i: nat, j: nat)
    requires i < |ps| && j < |ps| && i != j && multiset(ps)[ps[i]] == 1
    ensures ps[j] != ps[i]
  {
    var a, b := Min(i, j), Max(i, j);
    assert ps == ps[..b] + [ps[b]] + ps[b + 1..];
    assert ps[a] == ps[..b][a];
  }

  // ---------------------------------------------------------------- the laws

  // What a drawn pixel is made of, from back to front.
  lemma PixelLayers(s: Scene, row: nat, x: nat, y: nat, j: int, k: int) returns (behind: Pixel, before: Pixel, text: Pixel)
    requires CanvasOk(s.cv) && row < s.surface.rows && InRow(s.cv.metrics, row, y)
    requires LastBacking(s, row, x, j) && LastTouching(s, row, x, y, k)
    ensures behind == PaintPlacements(s.cv.metrics, s.surface, Layer(s.surface, true), x, y, Ground(s, row, x, y, j))
    ensures |KeyFor(s, row).cells| == |CellsOn(s, row)|
    ensures text == PaintRowForeground(s.cv, KeyFor(s, row), row, |KeyFor(s, row).cells|, x, y, behind)
    ensures text == if k < 0 then behind else TextOver(s, row, CellsOn(s, row)[k], x, y, before)
    ensures NoneTouchesBefore(s, row, x, y, k) ==> before == behind
    ensures Drawn(s, x, y) == PaintPlacements(s.cv.metrics, s.surface, Layer(s.surface, false), x, y, text)
  {
    var keys := Keys(s.surface, s.selection, s.overlay);
    var start := GradientColor(s.cv, Rgba8(s.surface.rowBgEven), Rgba8(s.surface.rowBgOdd), y);
    BandIsRow(s.cv, row, y);
    BackgroundsActOnOwnBand(s.cv, keys, x, y, start, row);
    RowBackgroundIsGround(s, row, x, y, start, j);
    behind := PaintPlacements(s.cv.metrics, s.surface, Layer(s.surface, true), x, y, Ground(s, row, x, y, j));
    ForegroundsActOnOwnBand(s.cv, keys, x, y, behind, row);
    before := RowForegroundIsLast(s, row, x, y, behind, k);
    text := if k < 0 then behind else TextOver(s, row, CellsOn(s, row)[k], x, y, before);
  }

  // Where no text and no image reaches, the ground shows: the last cell background over the column, else the
  // selection, else the gradient.
  lemma GroundShows(s: Scene, row: nat, x: nat, y: nat, j: int)
    requires CanvasOk(s.cv) && row < s.surface.rows && InRow(s.cv.metrics, row, y)
    requires LastBacking(s, row, x, j) && LastTouching(s, row, x, y, -1)
    requires LayerMisses(s, true, x, y) && LayerMisses(s, false, x, y)
    ensures Drawn(s, x, y) == Ground(s, row, x, y, j)
  {
    var behind, before, text := PixelLayers(s, row, x, y, j, -1);
    MissedLayer(s, true, x, y, text);
    MissedLayer(s, false, x, y, Ground(s, row, x, y, j));
  }

  // Where no upper image reaches, the last cell that touches a pixel shows there: its underline in the text
  // colour, its glyph mixed in over the underline, and an opaque glyph pixel whatever is behind it. Where nothing
  // else is in between, the glyph is mixed into the ground.
  lemma TextShows(s: Scene, row: nat, x: nat, y: nat, j: int, k: nat)
    requires CanvasOk(s.cv) && row < s.surface.rows && InRow(s.cv.metrics, row, y)
    requires LastBacking(s, row, x, j) && LastTouching(s, row, x, y, k) && LayerMisses(s, true, x, y)
    ensures var c := CellsOn(s, row)[k];
            && (!Inks(s, row, c, x, y) ==> Drawn(s, x, y) == TextColor(s, row, c))
            && (Inks(s, row, c, x, y) && Underlines(s, row, c, x, y) ==>
                  Drawn(s, x, y) == GlyphOver(s, row, c, x, y, TextColor(s, row, c)))
            && (Inks(s, row, c, x, y) && GlyphPixel(s, row, c, x, y).1 == 255 ==>
                  Drawn(s, x, y) == Opaque(GlyphPixel(s, row, c, x, y).0))
            && (Inks(s, row, c, x, y) && !Underlines(s, row, c, x, y) && LayerMisses(s, false, x, y)
                && NoneTouchesBefore(s, row, x, y, k) ==>
                  Drawn(s, x, y) == GlyphOver(s, row, c, x, y, Ground(s, row, x, y, j)))
  {
    var behind, before, text := PixelLayers(s, row, x, y, j, k);
    MissedLayer(s, true, x, y, text);
    if LayerMisses(s, false, x, y) {
      MissedLayer(s, false, x, y, Ground(s, row, x, y, j));
    }
  }

  // An opaque image of the upper layer, drawn last there, hides everything, text included.
  lemma UpperImageShows(s: Scene, row: nat, x: nat, y: nat, j: int, k: int, p: Placement)
    requires CanvasOk(s.cv) && row < s.surface.rows && InRow(s.cv.metrics, row, y)
    requires LastBacking(s, row, x, j) && LastTouching(s, row, x, y, k)
    requires TopImage(s, true, x, y, p) && ImagePixel(s, p, x, y).a == 255
    ensures Drawn(s, x, y) == Opaque(ImagePixel(s, p, x, y))
  {
    var behind, before, text := PixelLayers(s, row, x, y, j, k);
    TopImageHides(s, true, x, y, p, text);
  }

  // One upper image is mixed in over what the frame shows without it.
  lemma SoleUpperImageShows(s: Scene, row: nat, x: nat, y: nat, j: int, k: int, p: Placement, t: Scene)
    requires CanvasOk(s.cv) && row < s.surface.rows && InRow(s.cv.metrics, row, y)
    requires LastBacking(s, row, x, j) && LastTouching(s, row, x, y, k) && SoleImage(s, true, x, y, p)
    requires t == s.(surface := s.surface.(imagePlacements := [])) && LayerMisses(s, false, x, y)
    ensures Drawn(s, x, y) == Over(Drawn(t, x, y), ImagePixel(s, p, x, y), ImagePixel(s, p, x, y).a)
  {
    var behind, before, text := PixelLayers(s, row, x, y, j, k);
    SoleImageIsOver(s, true, x, y, p, text);
    MissedLayer(s, false, x, y, Ground(s, row, x, y, j));
    DrawnWithoutImages(s, row, x, y, j, t);
    assert Drawn(t, x, y) == text;
  }

  lemma DrawnWithoutImages(s: Scene, row: nat, x: nat, y: nat, j: int, t: Scene)
    requires CanvasOk(s.cv) && row < s.surface.rows && InRow(s.cv.metrics, row, y) && LastBacking(s, row, x, j)
    requires t == s.(surface := s.surface.(imagePlacements := []))
    ensures |KeyFor(s, row).cells| == |CellsOn(s, row)|
    ensures Drawn(t, x, y)
            == PaintRowForeground(s.cv, KeyFor(s, row), row, |KeyFor(s, row).cells|, x, y, Ground(s, row, x, y, j))
  {
    CellsAreKeys(s, row);
    var keys := Keys(t.surface, t.selection, t.overlay);
    var start := GradientColor(s.cv, Rgba8(s.surface.rowBgEven), Rgba8(s.surface.rowBgOdd), y);
    assert Layer(t.surface, true) == [] && Layer(t.surface, false) == [];
    BandIsRow(s.cv, row, y);
    BackgroundsActOnOwnBand(s.cv, keys, x, y, start, row);
    RowBackgroundIsGround(s, row, x, y, start, j);
    ForegroundsActOnOwnBand(s.cv, keys, x, y, Ground(s, row, x, y, j), row);
  }

  // Behind the text, an opaque lower image that is drawn last hides the ground, and a single one is mixed into it.
  lemma LowerImageShows(s: Scene, row: nat, x: nat, y: nat, j: int, p: Placement)
    requires CanvasOk(s.cv) && row < s.surface.rows && InRow(s.cv.metrics, row, y)
    requires LastBacking(s, row, x, j) && LastTouching(s, row, x, y, -1) && LayerMisses(s, true, x, y)
    ensures TopImage(s, false, x, y, p) && ImagePixel(s, p, x, y).a == 255 ==>
              Drawn(s, x, y) == Opaque(ImagePixel(s, p, x, y))
    ensures SoleImage(s, false, x, y, p) ==>
              Drawn(s, x, y) == Over(Ground(s, row, x, y, j), ImagePixel(s, p, x, y), ImagePixel(s, p, x, y).a)
  {
    var behind, before, text := PixelLayers(s, row, x, y, j, -1);
    MissedLayer(s, true, x, y, text);
    if TopImage(s, false, x, y, p) && ImagePixel(s, p, x, y).a == 255 {
      TopImageHides(s, false, x, y, p, Ground(s, row, x, y, j));
    }
    if SoleImage(s, false, x, y, p) {
      SoleImageIsOver(s, false, x, y, p, Ground(s, row, x, y, j));
    }
  }
}
