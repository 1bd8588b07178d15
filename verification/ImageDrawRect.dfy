// Where an image placement lands in the viewport, and which part of the image it shows
// (src/app/terminal_model.rs, terminal_image_draw_rect), with u32 inputs and checked u64 arithmetic.
module ImageDrawRect {
  import opened Common

  const UV_SCALE: nat := 1_000_000

  type U16 = n: nat | n < 0x1_0000

  datatype UvRect = UvRect(left: U32, top: U32, right: U32, bottom: U32)

  datatype Placement = Placement(
    resourceKey: nat,
    row: U32,
    col: U32,
    rowSpan: U32,
    colSpan: U32,
    uv: UvRect,
    paddingLeft: U16,
    paddingTop: U16,
    paddingRight: U16,
    paddingBottom: U16,
    zIndex: int,
    imageId: Option<U32>,
    placementId: Option<U32>,
    protocolOrder: U32)

  datatype DrawRect = DrawRect(destX: U32, destY: U32, destWidth: U32, destHeight: U32, uv: UvRect)

  // One axis of a placement: the cells it spans and the slice of the image it shows.
  datatype Axis = Axis(index: U32, span: U32, paddingLo: U16, paddingHi: U16, uvLo: U32, uvHi: U32)

  datatype Clip = Clip(dest: U32, length: U32, uvLo: U32, uvHi: U32)

  function Horizontal(p: Placement): Axis {
    Axis(p.col, p.colSpan, p.paddingLeft, p.paddingRight, p.uv.left, p.uv.right)
  }

  function Vertical(p: Placement): Axis {
    Axis(p.row, p.rowSpan, p.paddingTop, p.paddingBottom, p.uv.top, p.uv.bottom)
  }

  function CheckedMul(a: nat, b: nat): Option<nat> {
    if a * b < U64_LIMIT then Some(a * b) else None
  }

  function CheckedAdd(a: nat, b: nat): Option<nat> {
    if a + b < U64_LIMIT then Some(a + b) else None
  }

  function CheckedSub(a: nat, b: nat): Option<nat> {
    if b <= a then Some(a - b) else None
  }

  // range * offset / total, computed in u128: the product of two u64 values never overflows.
  function ProportionalOffset(range: nat, offset: nat, total: nat): (r: nat)
    requires total > 0
    ensures range * offset - total < r * total <= range * offset
  {
    range * offset / total
  }

  // The same checks and arithmetic on both axes. The two subtractions are on unsigned numbers, so the
  // function being well-formed says that neither underflows.
  function ClipAxis(a: Axis, cells: U32, cellPx: U32): Option<Clip> {
    if a.span == 0 || cells == 0 || cellPx == 0 then None
    else
      var viewport := CheckedMul(cells, cellPx);
      var loCells := CheckedMul(a.index, cellPx);
      var hiCells := CheckedMul(a.index + a.span, cellPx);
      if viewport.None? || loCells.None? || hiCells.None? then None
      else
        var lo := CheckedAdd(loCells.value, a.paddingLo);
        var hi := CheckedSub(hiCells.value, a.paddingHi);
        if lo.None? || hi.None? || hi.value <= lo.value then None
        else ClipEdges(lo.value, hi.value, viewport.value, a)
  }

  function ClipEdges(lo: nat, hi: nat, viewport: nat, a: Axis): Option<Clip>
    requires lo < hi
  {
    var clippedLo := Min(lo, viewport);
    var clippedHi := Min(hi, viewport);
    var uvLo := Min(a.uvLo, UV_SCALE);
    var uvHi := Min(a.uvHi, UV_SCALE);
    if clippedHi <= clippedLo || uvHi <= uvLo then None
    else
      UvCannotUnderflow(uvHi - uvLo, clippedLo - lo, hi - lo);
      UvCannotUnderflow(uvHi - uvLo, hi - clippedHi, hi - lo);
      var clippedUvLo := uvLo + ProportionalOffset(uvHi - uvLo, clippedLo - lo, hi - lo);
      var clippedUvHi: nat := uvHi - ProportionalOffset(uvHi - uvLo, hi - clippedHi, hi - lo);
      if clippedUvHi <= clippedUvLo then None
      else if clippedLo >= U32_LIMIT || clippedHi - clippedLo >= U32_LIMIT then None
      else Some(Clip(clippedLo, clippedHi - clippedLo, clippedUvLo, clippedUvHi))
  }

  lemma UvCannotUnderflow(range: nat, offset: nat, total: nat)
    requires offset < total
    ensures ProportionalOffset(range, offset, total) <= range
  {
    MulLe(offset, total, range);
    LessFromProducts(ProportionalOffset(range, offset, total), range + 1, total);
  }

  function TerminalImageDrawRect(p: Placement, rows: U32, cols: U32, cellWidth: U32, cellHeight: U32): Option<DrawRect> {
    var x := ClipAxis(Horizontal(p), cols, cellWidth);
    var y := ClipAxis(Vertical(p), rows, cellHeight);
    if x.None? || y.None? then None
    else
      Some(DrawRect(x.value.dest, y.value.dest, x.value.length, y.value.length,
                    UvRect(x.value.uvLo, y.value.uvLo, x.value.uvHi, y.value.uvHi)))
  }

  // ---------------------------------------------------------------- when a placement is drawn

  // The placement's first and last-plus-one pixel on an axis before clipping; the second may be
  // negative when the padding exceeds the span.
  function LoEdge(a: Axis, cellPx: U32): nat {
    a.index * cellPx + a.paddingLo
  }

  function HiEdge(a: Axis, cellPx: U32): int {
    (a.index + a.span) * cellPx - a.paddingHi
  }

  // Exactly the placements that start inside the viewport, cover at least a pixel, show a non-empty
  // part of the image and fit the machine words are drawn.
  predicate Drawable(a: Axis, cells: U32, cellPx: U32) {
    && a.span > 0
    && LoEdge(a, cellPx) < HiEdge(a, cellPx)
    && LoEdge(a, cellPx) < cells * cellPx
    && Min(a.uvLo, UV_SCALE) < Min(a.uvHi, UV_SCALE)
    && (a.index + a.span) * cellPx < U64_LIMIT
    && LoEdge(a, cellPx) < U32_LIMIT
    && Min(HiEdge(a, cellPx), cells * cellPx) - LoEdge(a, cellPx) < U32_LIMIT
  }

  // The slice is to the whole texture as the visible part is to the full length, rounded up by less than
  // one pixel.
  predicate ProportionalSlice(slice: int, whole: int, visible: int, full: int) {
    0 <= slice * full - whole * visible < full
  }

  lemma WordProducts(a: U32, b: U32)
    ensures a * b + 0xffff < U64_LIMIT
  {
    MulLe(a, U32_LIMIT - 1, b);
    assert (U32_LIMIT - 1) * b <= 0xffff_ffff * 0xffff_ffff;
  }

  lemma ProportionalCut(range: nat, full: nat, cut: nat)
    requires cut < full && range > 0
    ensures var kept := range - ProportionalOffset(range, cut, full);
            0 < kept && 0 <= kept * full - range * (full - cut) < full
  {
    var q := ProportionalOffset(range, cut, full);
    assert (range - q) * full - range * (full - cut) == range * cut - q * full;
    MulLe(1, range, full - cut);
    LessFromProducts(0, range - q, full);
  }

  // Clipping the far edge removes exactly its proportional share of the image, rounded in the
  // image's favour by less than one destination pixel, and never leaves an empty slice.
  lemma ClipEdgesExact(lo: nat, hi: nat, viewport: nat, a: Axis)
    requires lo < hi && lo < viewport && Min(a.uvLo, UV_SCALE) < Min(a.uvHi, UV_SCALE)
    requires lo < U32_LIMIT && Min(hi, viewport) - lo < U32_LIMIT
    ensures var uvRange := Min(a.uvHi, UV_SCALE) - Min(a.uvLo, UV_SCALE);
            var r := ClipEdges(lo, hi, viewport, a);
            && r.Some?
            && r.value.dest == lo && r.value.dest + r.value.length == Min(hi, viewport)
            && r.value.uvLo == Min(a.uvLo, UV_SCALE) && r.value.uvLo < r.value.uvHi <= Min(a.uvHi, UV_SCALE)
            && 0 <= (r.value.uvHi - r.value.uvLo) * (hi - lo) - uvRange * r.value.length < hi - lo
  {
    var uvRange := Min(a.uvHi, UV_SCALE) - Min(a.uvLo, UV_SCALE);
    assert ProportionalOffset(uvRange, 0, hi - lo) == 0;
    ProportionalCut(uvRange, hi - lo, hi - Min(hi, viewport));
  }

  // A clip exists if and only if the axis is drawable; then it starts at the unclipped edge, stays
  // inside the viewport and the image slice, and keeps the slice proportional.
  lemma ClipAxisExact(a: Axis, cells: U32, cellPx: U32)
    ensures ClipAxis(a, cells, cellPx).Some? <==> Drawable(a, cells, cellPx)
    ensures ClipAxis(a, cells, cellPx).Some? ==>
              var clip := ClipAxis(a, cells, cellPx).value;
              var uvRange := Min(a.uvHi, UV_SCALE) - Min(a.uvLo, UV_SCALE);
              var full := HiEdge(a, cellPx) - LoEdge(a, cellPx);
              && clip.dest == LoEdge(a, cellPx)
              && clip.dest < clip.dest + clip.length == Min(HiEdge(a, cellPx), cells * cellPx)
              && Min(a.uvLo, UV_SCALE) == clip.uvLo < clip.uvHi <= Min(a.uvHi, UV_SCALE)
              && 0 <= (clip.uvHi - clip.uvLo) * full - uvRange * clip.length < full
  {
    WordProducts(cells, cellPx);
    WordProducts(a.index, cellPx);
    if Drawable(a, cells, cellPx) {
      LessFromProducts(0, cells, cellPx);
      LessFromProducts(0, cellPx, cells);
      ClipEdgesExact(LoEdge(a, cellPx), HiEdge(a, cellPx), cells * cellPx, a);
    }
  }

  // The whole rectangle: drawn exactly when both axes are drawable, from the placement's own corner to its
  // far edges or the viewport's, with the proportional part of its texture on both axes.
  lemma DrawRectExact(p: Placement, rows: U32, cols: U32, cellWidth: U32, cellHeight: U32)
    ensures var r := TerminalImageDrawRect(p, rows, cols, cellWidth, cellHeight);
            r.Some? <==> Drawable(Horizontal(p), cols, cellWidth) && Drawable(Vertical(p), rows, cellHeight)
    ensures TerminalImageDrawRect(p, rows, cols, cellWidth, cellHeight).Some? ==>
              var d := TerminalImageDrawRect(p, rows, cols, cellWidth, cellHeight).value;
              var left, right := p.col * cellWidth + p.paddingLeft, (p.col + p.colSpan) * cellWidth - p.paddingRight;
              var top, bottom := p.row * cellHeight + p.paddingTop, (p.row + p.rowSpan) * cellHeight - p.paddingBottom;
              && d.destX == left < d.destX + d.destWidth == Min(right, cols * cellWidth)
              && d.destY == top < d.destY + d.destHeight == Min(bottom, rows * cellHeight)
              && p.uv.left == d.uv.left < d.uv.right <= Min(p.uv.right, UV_SCALE)
              && p.uv.top == d.uv.top < d.uv.bottom <= Min(p.uv.bottom, UV_SCALE)
              && ProportionalSlice(d.uv.right - d.uv.left, Min(p.uv.right, UV_SCALE) - p.uv.left, d.destWidth, right - left)
              && ProportionalSlice(d.uv.bottom - d.uv.top, Min(p.uv.bottom, UV_SCALE) - p.uv.top, d.destHeight, bottom - top)
  {
    ClipAxisExact(Horizontal(p), cols, cellWidth);
    ClipAxisExact(Vertical(p), rows, cellHeight);
  }

  // A placement inside the viewport with no padding is drawn unclipped, with its own coordinates.
  lemma UnclippedKeepsUv(a: Axis, cells: U32, cellPx: U32)
    requires Drawable(a, cells, cellPx) && HiEdge(a, cellPx) <= cells * cellPx
    ensures ClipAxis(a, cells, cellPx)
            == Some(Clip(LoEdge(a, cellPx), HiEdge(a, cellPx) - LoEdge(a, cellPx),
                         Min(a.uvLo, UV_SCALE), Min(a.uvHi, UV_SCALE)))
  {
    ClipAxisExact(a, cells, cellPx);
    var clip := ClipAxis(a, cells, cellPx).value;
    AllOfTheSlice(clip.uvHi - clip.uvLo, Min(a.uvHi, UV_SCALE) - Min(a.uvLo, UV_SCALE), clip.length);
  }

  lemma AllOfTheSlice(slice: nat, whole: nat, full: nat)
    requires slice <= whole && slice * full >= whole * full && full > 0
    ensures slice == whole
  {
    if slice < whole {
      MulLe(slice + 1, whole, full);
    }
  }

  // A placement draws only inside the pixel bands of the rows it spans: those whose row hash counts it.
  lemma DrawsOnlyItsRows(p: Placement, rows: U32, cols: U32, cellWidth: U32, cellHeight: U32, y: nat)
    requires TerminalImageDrawRect(p, rows, cols, cellWidth, cellHeight).Some?
    requires var r := TerminalImageDrawRect(p, rows, cols, cellWidth, cellHeight).value;
             r.destY <= y < r.destY + r.destHeight
    ensures cellHeight > 0 && p.row <= y / cellHeight < p.row + p.rowSpan && y / cellHeight < rows
  {
    ClipAxisExact(Vertical(p), rows, cellHeight);
    BandOf(y, cellHeight, p.row, p.row + p.rowSpan);
    BandOf(y, cellHeight, 0, rows);
  }

  // And only inside the pixel columns of the columns it spans.
  lemma DrawsOnlyItsColumns(p: Placement, rows: U32, cols: U32, cellWidth: U32, cellHeight: U32, x: nat)
    requires TerminalImageDrawRect(p, rows, cols, cellWidth, cellHeight).Some?
    requires var r := TerminalImageDrawRect(p, rows, cols, cellWidth, cellHeight).value;
             r.destX <= x < r.destX + r.destWidth
    ensures cellWidth > 0 && p.col <= x / cellWidth < p.col + p.colSpan && x / cellWidth < cols
  {
    ClipAxisExact(Horizontal(p), cols, cellWidth);
    BandOf(x, cellWidth, p.col, p.col + p.colSpan);
    BandOf(x, cellWidth, 0, cols);
  }

  lemma BandOf(y: nat, cellHeight: nat, first: nat, end: nat)
    requires cellHeight > 0 && first * cellHeight <= y < end * cellHeight
    ensures first <= y / cellHeight < end
  {
    var q := y / cellHeight;
    assert q * cellHeight <= y < (q + 1) * cellHeight;
    LessFromProducts(first, q + 1, cellHeight);
    LessFromProducts(q, end, cellHeight);
  }

  lemma QuotientBand(y: nat, h: nat)
    requires h > 0
    ensures y / h * h <= y < y / h * h + h
  {
    assert y == y / h * h + y % h;
  }

  lemma RowOfLine(y: nat, h: nat, rows: nat) returns (row: nat)
    requires h > 0 && y < rows * h
    ensures row == y / h < rows && row * h <= y < row * h + h
  {
    QuotientBand(y, h);
    row := y / h;
    LessFromProducts(row, rows, h);
  }
}
