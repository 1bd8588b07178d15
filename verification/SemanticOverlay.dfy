// Semantic style overlays on the cells of a row (src/app/terminal_model.rs): the priority-driven loop
// and what it means.
module SemanticOverlay {
  import opened Common
  import opened Pixels
  import opened AtlasPaint

  datatype Role =
    | InputPrompt | InputCommand | InputSubcommand | InputOption | InputArgument | InputString | InputPath
    | InputVariable | InputOperator | InputInvalidCommand
    | OutputUrl | OutputUnixPath | OutputWindowsPath | OutputLineReference | OutputNetworkEndpoint
    | OutputTimestamp | OutputSeverityError | OutputSeverityWarning | OutputSeverityInfo | OutputSeverityDebug
    | OutputSuccessKeyword | OutputFailureKeyword | OutputGrepMatch
    | OutputDiffAdded | OutputDiffRemoved | OutputDiffHunk
    | OutputJsonKey | OutputJsonString | OutputJsonNumber | OutputJsonBoolean
    | CommandStatusRunning | CommandStatusSuccess | CommandStatusFailure

  datatype RoleStyle = RoleStyle(foreground: nat, background: Option<nat>, bold: bool, underline: bool)

  datatype SpanMark = SpanMark(row: nat, startCol: nat, endCol: nat, role: Role)

  // The theme's style table, and its search-match blend at the chosen strength (floating point).
  datatype Theme = Theme(style: Role -> RoleStyle, searchBlend: Rgba -> Rgba)

  datatype Palette = Palette(defaultFg: Rgba, defaultBg: Rgba, rowBgEven: Rgba, rowBgOdd: Rgba)

  function Priority(role: Role): nat {
    match role
    case OutputDiffAdded => 10
    case OutputDiffRemoved => 10
    case OutputDiffHunk => 10
    case InputArgument => 20
    case InputOption => 20
    case InputPath => 20
    case InputVariable => 20
    case InputOperator => 20
    case OutputUnixPath => 20
    case OutputWindowsPath => 20
    case OutputNetworkEndpoint => 20
    case OutputTimestamp => 20
    case OutputJsonKey => 20
    case OutputJsonString => 20
    case OutputJsonNumber => 20
    case OutputJsonBoolean => 20
    case OutputUrl => 40
    case OutputLineReference => 40
    case _ => 30
  }

  predicate PreservesPaint(role: Role) {
    role in {InputPath, OutputUrl, OutputUnixPath, OutputWindowsPath, OutputLineReference, OutputNetworkEndpoint}
  }

  function CellEnd(c: Cell): nat {
    Min(c.col + (if c.width == 0 then 0 else c.width - 1), U32_LIMIT - 1)
  }

  predicate OverlapsSpan(c: Cell, s: SpanMark) {
    c.col <= s.endCol && CellEnd(c) >= s.startCol
  }

  // 0xff000000 | rgb.
  function Opaque(rgb: nat): Rgba {
    0xff00_0000 + rgb % 0x100_0000
  }

  // The loop's local variables.
  datatype Desired = Desired(
    fg: Option<(nat, Rgba)>,
    bg: Option<(nat, Rgba)>,
    underline: bool,
    bold: bool,
    search: Option<Rgba>)

  predicate Beats(priority: nat, current: Option<(nat, Rgba)>) {
    current.None? || priority >= current.value.0
  }

  function ConsiderSpan(theme: Theme, palette: Palette, c: Cell, d: Desired, s: SpanMark): Desired {
    if !OverlapsSpan(c, s) then d
    else if s.role == OutputGrepMatch then d.(search := Some(theme.searchBlend(c.bg)))
    else if PreservesPaint(s.role) then d
    else
      var style := theme.style(s.role);
      var priority := Priority(s.role);
      Desired(
        if c.fg == palette.defaultFg && Beats(priority, d.fg) then Some((priority, Opaque(style.foreground))) else d.fg,
        if style.background.Some? && c.bg == palette.defaultBg && Beats(priority, d.bg)
        then Some((priority, Opaque(style.background.value))) else d.bg,
        d.underline || style.underline,
        d.bold || style.bold,
        d.search)
  }

  function ConsiderSpans(theme: Theme, palette: Palette, c: Cell, spans: seq<SpanMark>): Desired {
    if spans == [] then Desired(None, None, c.underline, c.bold, None)
    else ConsiderSpan(theme, palette, c, ConsiderSpans(theme, palette, c, spans[..|spans| - 1]), spans[|spans| - 1])
  }

  function PaintDesired(c: Cell, d: Desired): Cell {
    c.(fg := if d.fg.Some? then d.fg.value.1 else c.fg,
       bg := if d.search.Some? then d.search.value else if d.bg.Some? then d.bg.value.1 else c.bg,
       underline := d.underline,
       bold := d.bold)
  }

  predicate IsInked(c: Cell) {
    c.width != 0 && c.text != ""
  }

  function OverlaidCell(theme: Theme, palette: Palette, c: Cell, spans: seq<SpanMark>): Cell {
    if !IsInked(c) then c else PaintDesired(c, ConsiderSpans(theme, palette, c, spans))
  }

  function SpansOfRow(spans: seq<SpanMark>, row: nat): seq<SpanMark> {
    Filter(spans, (s: SpanMark) => s.row == row)
  }

  function OverlaidCells(theme: Theme, palette: Palette, cells: seq<Cell>, spans: seq<SpanMark>): (r: seq<Cell>)
    ensures |r| == |cells|
  {
    seq(|cells|, k requires 0 <= k < |cells| => OverlaidCell(theme, palette, cells[k], spans))
  }

  // ---------------------------------------------------------------- what the loop means

  // Spans that may restyle the cell.
  predicate Styles(c: Cell, s: SpanMark) {
    OverlapsSpan(c, s) && s.role != OutputGrepMatch && !PreservesPaint(s.role)
  }

  predicate StylesBackground(theme: Theme, c: Cell, s: SpanMark) {
    Styles(c, s) && theme.style(s.role).background.Some?
  }

  // i is the last of the spans with the highest priority among those that satisfy p.
  ghost predicate IsTop(spans: seq<SpanMark>, p: SpanMark -> bool, i: int) {
    && 0 <= i < |spans| && p(spans[i])
    && forall j :: 0 <= j < |spans| && p(spans[j]) ==>
                     || Priority(spans[j].role) < Priority(spans[i].role)
                     || (Priority(spans[j].role) == Priority(spans[i].role) && j <= i)
  }

  ghost predicate NoneSatisfies(spans: seq<SpanMark>, p: SpanMark -> bool) {
    forall j :: 0 <= j < |spans| ==> !p(spans[j])
  }

  lemma TopExtends(front: seq<SpanMark>, last: SpanMark, p: SpanMark -> bool, i: int)
    requires IsTop(front, p, i)
    ensures p(last) && Priority(last.role) >= Priority(front[i].role) ==> IsTop(front + [last], p, |front|)
    ensures !p(last) || Priority(last.role) < Priority(front[i].role) ==> IsTop(front + [last], p, i)
  {
  }

  // The loop's foreground choice: the last span of highest priority that styles the cell, when the cell
  // has the default colour; nothing otherwise.
  lemma {:induction false} ForegroundIsTop(theme: Theme, palette: Palette, c: Cell, spans: seq<SpanMark>)
    returns (i: int)
    ensures var d := ConsiderSpans(theme, palette, c, spans);
            var p := (s: SpanMark) => Styles(c, s);
            if c.fg != palette.defaultFg || NoneSatisfies(spans, p) then d.fg == None
            else IsTop(spans, p, i)
                 && d.fg == Some((Priority(spans[i].role), Opaque(theme.style(spans[i].role).foreground)))
  {
    i := 0;
    if spans != [] {
      var front, last := spans[..|spans| - 1], spans[|spans| - 1];
      i := ForegroundIsTop(theme, palette, c, front);
      assert spans == front + [last];
      var p := (s: SpanMark) => Styles(c, s);
      if c.fg == palette.defaultFg {
        if NoneSatisfies(front, p) {
          i := |front|;
        } else {
          TopExtends(front, last, p, i);
          if p(last) && Priority(last.role) >= Priority(front[i].role) {
            i := |front|;
          }
        }
      }
    }
  }

  lemma {:induction false} BackgroundIsTop(theme: Theme, palette: Palette, c: Cell, spans: seq<SpanMark>)
    returns (i: int)
    ensures var d := ConsiderSpans(theme, palette, c, spans);
            var p := (s: SpanMark) => StylesBackground(theme, c, s);
            if c.bg != palette.defaultBg || NoneSatisfies(spans, p) then d.bg == None
            else IsTop(spans, p, i)
                 && d.bg == Some((Priority(spans[i].role), Opaque(theme.style(spans[i].role).background.value)))
  {
    i := 0;
    if spans != [] {
      var front, last := spans[..|spans| - 1], spans[|spans| - 1];
      i := BackgroundIsTop(theme, palette, c, front);
      assert spans == front + [last];
      var p := (s: SpanMark) => StylesBackground(theme, c, s);
      if c.bg == palette.defaultBg {
        if NoneSatisfies(front, p) {
          i := |front|;
        } else {
          TopExtends(front, last, p, i);
          if p(last) && Priority(last.role) >= Priority(front[i].role) {
            i := |front|;
          }
        }
      }
    }
  }

  ghost predicate TurnsUnderlineOn(theme: Theme, c: Cell, spans: seq<SpanMark>) {
    exists j :: 0 <= j < |spans| && Styles(c, spans[j]) && theme.style(spans[j].role).underline
  }

  ghost predicate TurnsBoldOn(theme: Theme, c: Cell, spans: seq<SpanMark>) {
    exists j :: 0 <= j < |spans| && Styles(c, spans[j]) && theme.style(spans[j].role).bold
  }

  ghost predicate HasMatch(c: Cell, spans: seq<SpanMark>) {
    exists j :: 0 <= j < |spans| && OverlapsSpan(c, spans[j]) && spans[j].role == OutputGrepMatch
  }

  lemma {:induction false} FlagsAccumulate(theme: Theme, palette: Palette, c: Cell, spans: seq<SpanMark>)
    ensures var d := ConsiderSpans(theme, palette, c, spans);
            && d.underline == (c.underline || TurnsUnderlineOn(theme, c, spans))
            && d.bold == (c.bold || TurnsBoldOn(theme, c, spans))
            && d.search == if HasMatch(c, spans) then Some(theme.searchBlend(c.bg)) else None
  {
    if spans != [] {
      var front, last := spans[..|spans| - 1], spans[|spans| - 1];
      FlagsAccumulate(theme, palette, c, front);
      assert spans == front + [last];
      assert forall j :: 0 <= j < |front| ==> spans[j] == front[j];
    }
  }

  // The declarative meaning of the overlay on one inked cell.
  ghost predicate MeansOverlay(theme: Theme, palette: Palette, c: Cell, spans: seq<SpanMark>, r: Cell) {
    && r == c.(fg := r.fg, bg := r.bg, underline := r.underline, bold := r.bold)
    // default-coloured cells take the colour of the last span of highest priority; others keep theirs
    && (if c.fg != palette.defaultFg || NoneSatisfies(spans, (s: SpanMark) => Styles(c, s)) then r.fg == c.fg
        else exists i :: IsTop(spans, (s: SpanMark) => Styles(c, s), i)
                         && r.fg == Opaque(theme.style(spans[i].role).foreground))
    // a search match overrides the background with a blend of the original one
    && (if HasMatch(c, spans) then r.bg == theme.searchBlend(c.bg)
        else if c.bg != palette.defaultBg || NoneSatisfies(spans, (s: SpanMark) => StylesBackground(theme, c, s))
        then r.bg == c.bg
        else exists i :: IsTop(spans, (s: SpanMark) => StylesBackground(theme, c, s), i)
                         && r.bg == Opaque(theme.style(spans[i].role).background.value))
    // bold and underline only turn on
    && r.underline == (c.underline || TurnsUnderlineOn(theme, c, spans))
    && r.bold == (c.bold || TurnsBoldOn(theme, c, spans))
  }

  // A cell without width or text keeps everything; any other means what MeansOverlay says.
  lemma OverlayMeaning(theme: Theme, palette: Palette, c: Cell, spans: seq<SpanMark>)
    ensures c.width == 0 || c.text == "" ==> OverlaidCell(theme, palette, c, spans) == c
    ensures c.width > 0 && c.text != "" ==> MeansOverlay(theme, palette, c, spans, OverlaidCell(theme, palette, c, spans))
  {
    var i := ForegroundIsTop(theme, palette, c, spans);
    var j := BackgroundIsTop(theme, palette, c, spans);
    FlagsAccumulate(theme, palette, c, spans);
  }

  // Every cell of a row gets its own overlay.
  lemma RowOverlayMeaning(theme: Theme, palette: Palette, cells: seq<Cell>, spans: seq<SpanMark>, k: nat)
    requires k < |cells|
    ensures var c, r := cells[k], OverlaidCells(theme, palette, cells, spans)[k];
            if c.width == 0 || c.text == "" then r == c else MeansOverlay(theme, palette, c, spans, r)
  {
    OverlayMeaning(theme, palette, cells[k], spans);
  }

  // A span overlaps a cell exactly when it covers one of the cell's columns; both its ends are included.
  lemma OverlapsIffSharesColumn(c: Cell, s: SpanMark)
    requires s.startCol <= s.endCol && c.col + Max(c.width, 1) <= U32_LIMIT
    ensures OverlapsSpan(c, s) <==> exists col :: c.col <= col < c.col + Max(c.width, 1) && InSpan(s, col)
  {
    if OverlapsSpan(c, s) {
      assert InSpan(s, Max(c.col, s.startCol));
    }
  }

  predicate InSpan(s: SpanMark, col: int) {
    s.startCol <= col <= s.endCol
  }

  predicate IsDiff(role: Role) {
    role in {OutputDiffAdded, OutputDiffRemoved, OutputDiffHunk}
  }

  // Roles whose colours give way to all but diffs.
  predicate IsDetail(role: Role) {
    role in {InputArgument, InputOption, InputPath, InputVariable, InputOperator, OutputUnixPath, OutputWindowsPath,
             OutputNetworkEndpoint, OutputTimestamp, OutputJsonKey, OutputJsonString, OutputJsonNumber, OutputJsonBoolean}
  }

  predicate IsLink(role: Role) {
    role in {OutputUrl, OutputLineReference}
  }

  // The roles whose spans are told apart by other means than paint: links, paths and network endpoints.
  lemma PaintIsKeptFor(role: Role)
    ensures PreservesPaint(role) <==>
            IsLink(role) || role in {InputPath, OutputUnixPath, OutputWindowsPath, OutputNetworkEndpoint}
  {
  }

  // Whose colour wins where two spans overlap: links over plain roles, those over details, those over diffs.
  lemma PriorityLevels(a: Role, b: Role)
    ensures Priority(a) < Priority(b) <==>
            || (IsDiff(a) && !IsDiff(b))
            || (IsDetail(a) && !IsDetail(b) && !IsDiff(b))
            || (!IsLink(a) && IsLink(b))
  {
  }

  // A theme colour is painted fully opaque.
  lemma OpaqueKeepsColour(rgb: nat)
    requires rgb < 0x100_0000
    ensures Opaque(rgb) == 255 * 0x100_0000 + rgb
  {
  }

  // Spans of paint-preserving roles change nothing at all.
  lemma PreservingRolesChangeNothing(theme: Theme, palette: Palette, c: Cell, spans: seq<SpanMark>)
    requires forall j :: 0 <= j < |spans| && OverlapsSpan(c, spans[j]) ==> PreservesPaint(spans[j].role)
    ensures OverlaidCell(theme, palette, c, spans) == c
  {
    OverlayMeaning(theme, palette, c, spans);
  }
}
