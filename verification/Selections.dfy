// Text selections as intervals of cells in reading order (src/app/terminal_model.rs), and the atlas's
// inclusive form of the same bounds (src/app/terminal_atlas.rs).
module Selections {
  import opened Common
  import AtlasPaint

  datatype Position = Position(row: nat, col: nat)

  datatype SelectionModel = SelectionModel(start: Position, end: Position)

  // Reading order: rows first, then columns.
  predicate Le(a: Position, b: Position) {
    a.row < b.row || (a.row == b.row && a.col <= b.col)
  }

  predicate Lt(a: Position, b: Position) {
    !Le(b, a)
  }

  function NewSelection(a: Position, b: Position): (s: SelectionModel)
    ensures Le(s.start, s.end) && (s == SelectionModel(a, b) || s == SelectionModel(b, a))
  {
    if Le(a, b) then SelectionModel(a, b) else SelectionModel(b, a)
  }

  function RowBounds(s: SelectionModel, row: nat, cols: nat): Option<(nat, nat)> {
    if cols == 0 || row < s.start.row || row > s.end.row then None
    else
      var startCol := if row == s.start.row then Min(s.start.col, cols) else 0;
      var endCol := if row == s.end.row then Min(s.end.col, cols) else cols;
      if startCol >= endCol then None else Some((startCol, endCol))
  }

  function Earlier(a: Position, b: Position): Position {
    if Le(a, b) then a else b
  }

  function Later(a: Position, b: Position): Position {
    if Le(b, a) then a else b
  }

  function MergeSelectionModels(left: SelectionModel, right: SelectionModel): SelectionModel {
    NewSelection(Earlier(left.start, right.start), Later(left.end, right.end))
  }

  // ---------------------------------------------------------------- what the bounds mean

  predicate InBounds(bounds: Option<(nat, nat)>, col: nat) {
    bounds.Some? && bounds.value.0 <= col < bounds.value.1
  }

  // A cell of the grid is inside its row's bounds exactly when it lies in the half-open interval from
  // start to end in reading order.
  lemma RowBoundsAreTheInterval(s: SelectionModel, row: nat, col: nat, cols: nat)
    requires col < cols
    ensures InBounds(RowBounds(s, row, cols), col)
            <==> Le(s.start, Position(row, col)) && Lt(Position(row, col), s.end)
  {
  }

  // A row has bounds exactly when some cell of it is selected, and they are tight on both sides.
  lemma RowBoundsAreTight(s: SelectionModel, row: nat, cols: nat)
    ensures RowBounds(s, row, cols).Some? <==>
            exists col :: 0 <= col < cols && Le(s.start, Position(row, col)) && Lt(Position(row, col), s.end)
    ensures RowBounds(s, row, cols).Some? ==>
              var b := RowBounds(s, row, cols).value;
              && b.0 < b.1 <= cols
              && Le(s.start, Position(row, b.0)) && Lt(Position(row, b.1 - 1), s.end)
  {
    var b := RowBounds(s, row, cols);
    if b.Some? {
      RowBoundsAreTheInterval(s, row, b.value.0, cols);
      RowBoundsAreTheInterval(s, row, b.value.1 - 1, cols);
    } else {
      forall col | 0 <= col < cols
        ensures !(Le(s.start, Position(row, col)) && Lt(Position(row, col), s.end))
      {
        RowBoundsAreTheInterval(s, row, col, cols);
      }
    }
  }

  // The atlas's inclusive bounds name the same cells.
  lemma AtlasBoundsAgree(s: SelectionModel, row: nat, col: nat, cols: nat)
    ensures var atlas := AtlasPaint.RowBounds(
                AtlasPaint.Selection(s.start.row, s.start.col, s.end.row, s.end.col), row, cols);
            && (atlas.Some? <==> RowBounds(s, row, cols).Some?)
            && (atlas.Some? ==> atlas.value.0 <= atlas.value.1 < cols)
            && (InBounds(RowBounds(s, row, cols), col) <==> atlas.Some? && atlas.value.0 <= col <= atlas.value.1)
  {
  }

  predicate ColumnSelected(bounds: (nat, nat), c: nat) {
    bounds.0 <= c <= bounds.1
  }

  // A wide cell is painted selected exactly when one of its columns is.
  lemma CellSelectedIffAColumnIs(bounds: (nat, nat), col: nat, width: nat)
    requires bounds.0 <= bounds.1 && width >= 1
    ensures AtlasPaint.Overlaps(bounds, col, width)
            <==> exists c :: col <= c < col + width && ColumnSelected(bounds, c)
  {
    if AtlasPaint.Overlaps(bounds, col, width) {
      var c := Max(col, bounds.0);
      assert col <= c < col + width && ColumnSelected(bounds, c);
    }
  }

  // ---------------------------------------------------------------- merging

  predicate Within(inner: SelectionModel, outer: SelectionModel) {
    Le(outer.start, inner.start) && Le(inner.end, outer.end)
  }

  predicate Ordered(s: SelectionModel) {
    Le(s.start, s.end)
  }

  // The merge is the least interval containing both arguments.
  lemma MergeIsLeastUpperBound(left: SelectionModel, right: SelectionModel, other: SelectionModel)
    requires Ordered(left) && Ordered(right)
    ensures Ordered(MergeSelectionModels(left, right))
    ensures Within(MergeSelectionModels(left, right), other) <==> Within(left, other) && Within(right, other)
  {
  }

  lemma MergeParts(a: SelectionModel, b: SelectionModel)
    requires Ordered(a) && Ordered(b)
    ensures MergeSelectionModels(a, b) == SelectionModel(Earlier(a.start, b.start), Later(a.end, b.end))
  {
  }

  lemma EndpointLaws(a: Position, b: Position, c: Position)
    ensures Earlier(a, b) == Earlier(b, a) && Later(a, b) == Later(b, a)
    ensures Earlier(Earlier(a, b), c) == Earlier(a, Earlier(b, c))
    ensures Later(Later(a, b), c) == Later(a, Later(b, c))
  {
  }

  lemma MergeIsASemilattice(a: SelectionModel, b: SelectionModel, c: SelectionModel)
    requires Ordered(a) && Ordered(b) && Ordered(c)
    ensures MergeSelectionModels(a, a) == a
    ensures MergeSelectionModels(a, b) == MergeSelectionModels(b, a)
    ensures MergeSelectionModels(MergeSelectionModels(a, b), c) == MergeSelectionModels(a, MergeSelectionModels(b, c))
  {
    MergeParts(a, a);
    MergeParts(a, b);
    MergeParts(b, a);
    MergeParts(b, c);
    MergeParts(MergeSelectionModels(a, b), c);
    MergeParts(a, MergeSelectionModels(b, c));
    EndpointLaws(a.start, b.start, c.start);
    EndpointLaws(a.end, b.end, c.end);
  }
}
