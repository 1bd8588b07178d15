// Where a saved window comes back (src/app/window_geometry.rs). Arithmetic is i32 and u32 as in a
// release build: sums wrap, and clamp panics when its bounds are out of order.
module WindowGeometry {
  import opened Common

  const I32_LIMIT: int := 0x8000_0000

  type I32 = n: int | -I32_LIMIT <= n < I32_LIMIT

  datatype Monitor = Monitor(x: I32, y: I32, width: U32, height: U32)

  datatype Bounds = Bounds(x: I32, y: I32, width: U32, height: U32)

  datatype Saved = Saved(x: I32, y: I32)

  datatype Placement = Restored | Maximized | SnappedLeft | SnappedRight | SnappedTop | SnappedBottom | Unknown

  datatype Outcome = Panicked | Resolved(bounds: Option<Bounds>)

  // Two's-complement truncation to 32 bits, which `as i32` and wrapping addition share.
  function Wrap32(n: int): I32 {
    var low := n % U32_LIMIT;
    if low < I32_LIMIT then low else low - U32_LIMIT
  }

  function Edge(start: I32, size: U32): I32 {
    Wrap32(start + Wrap32(size))
  }

  predicate Intersects(x: I32, y: I32, width: U32, height: U32, m: Monitor) {
    && x < Edge(m.x, m.width) && Edge(x, width) > m.x
    && y < Edge(m.y, m.height) && Edge(y, height) > m.y
  }

  predicate Fits(x: I32, y: I32, width: U32, height: U32, m: Monitor) {
    && x >= m.x && Edge(x, width) <= Edge(m.x, m.width)
    && y >= m.y && Edge(y, height) <= Edge(m.y, m.height)
  }

  function FirstIntersecting(s: Saved, width: U32, height: U32, monitors: seq<Monitor>): Option<Monitor> {
    if monitors == [] then None
    else if Intersects(s.x, s.y, width, height, monitors[0]) then Some(monitors[0])
    else FirstIntersecting(s, width, height, monitors[1..])
  }

  predicate FitsAny(x: I32, y: I32, width: U32, height: U32, monitors: seq<Monitor>) {
    monitors != [] && (Fits(x, y, width, height, monitors[0]) || FitsAny(x, y, width, height, monitors[1..]))
  }

  // Ord::clamp, which panics unless lo <= hi.
  function Clamp(n: I32, lo: I32, hi: I32): Option<I32> {
    if lo > hi then None else Some(if n < lo then lo else if n > hi then hi else n)
  }

  function SaturatingSub(a: U32, b: U32): U32 {
    if b <= a then a - b else 0
  }

  function ClampToMonitor(s: Saved, width: U32, height: U32, m: Monitor): Outcome {
    var w, h := Min(width, m.width), Min(height, m.height);
    var x := Clamp(s.x, m.x, Edge(m.x, SaturatingSub(m.width, w)));
    var y := Clamp(s.y, m.y, Edge(m.y, SaturatingSub(m.height, h)));
    if x.None? || y.None? then Panicked else Resolved(Some(Bounds(x.value, y.value, w, h)))
  }

  function CenterInMonitor(width: U32, height: U32, m: Monitor): Bounds {
    var w, h := Min(width, m.width), Min(height, m.height);
    Bounds(Edge(m.x, SaturatingSub(m.width, w) / 2), Edge(m.y, SaturatingSub(m.height, h) / 2), w, h)
  }

  function ResolveStartupBounds(saved: Option<Saved>, width: U32, height: U32, monitors: seq<Monitor>): Outcome {
    if monitors == [] then Resolved(None)
    else
      var found := if saved.Some? then FirstIntersecting(saved.value, width, height, monitors) else None;
      if found.Some? then ClampToMonitor(saved.value, width, height, found.value)
      else Resolved(Some(CenterInMonitor(width, height, monitors[0])))
  }

  function PersistedBounds(placement: Placement, x: I32, y: I32, width: U32, height: U32, monitors: seq<Monitor>)
    : Option<Saved>
  {
    if placement != Restored || width == 0 || height == 0 then None
    else if !FitsAny(x, y, width, height, monitors) then None
    else Some(Saved(x, y))
  }

  // ---------------------------------------------------------------- meaning, where nothing overflows

  // Both corners are i32 coordinates.
  predicate InRange(x: I32, y: I32, width: U32, height: U32) {
    x + width < I32_LIMIT && y + height < I32_LIMIT && width < I32_LIMIT && height < I32_LIMIT
  }

  predicate MonitorsInRange(monitors: seq<Monitor>) {
    forall k :: 0 <= k < |monitors| ==>
                  InRange(monitors[k].x, monitors[k].y, monitors[k].width, monitors[k].height)
  }

  // The window's rectangle lies inside the monitor's.
  predicate Inside(b: Bounds, m: Monitor) {
    && m.x <= b.x && b.x + b.width <= m.x + m.width
    && m.y <= b.y && b.y + b.height <= m.y + m.height
  }

  // The two rectangles share a point of the plane, for windows of positive size.
  predicate Overlap(b: Bounds, m: Monitor) {
    && Max(b.x, m.x) < Min(b.x + b.width, m.x + m.width)
    && Max(b.y, m.y) < Min(b.y + b.height, m.y + m.height)
  }

  // An edge beyond the i32 range wraps to the far side of its start.
  lemma EdgeIsSum(start: I32, size: U32)
    ensures Edge(start, size) == if start + size < I32_LIMIT then start + size else start + size - U32_LIMIT
    ensures Edge(start, size) >= start <==> start + size < I32_LIMIT
  {
  }

  lemma TestsMeanGeometry(b: Bounds, m: Monitor)
    requires InRange(b.x, b.y, b.width, b.height) && InRange(m.x, m.y, m.width, m.height)
    requires b.width > 0 && b.height > 0
    ensures Fits(b.x, b.y, b.width, b.height, m) <==> Inside(b, m)
    ensures m.width > 0 && m.height > 0 ==> (Intersects(b.x, b.y, b.width, b.height, m) <==> Overlap(b, m))
    ensures Inside(b, m) ==> Intersects(b.x, b.y, b.width, b.height, m)
  {
    EdgeIsSum(b.x, b.width);
    EdgeIsSum(b.y, b.height);
    EdgeIsSum(m.x, m.width);
    EdgeIsSum(m.y, m.height);
  }

  lemma {:induction false} FirstIntersectingIsFirst(s: Saved, width: U32, height: U32, monitors: seq<Monitor>)
    ensures var found := FirstIntersecting(s, width, height, monitors);
            if found.None? then forall k :: 0 <= k < |monitors| ==> !Intersects(s.x, s.y, width, height, monitors[k])
            else exists k :: 0 <= k < |monitors| && IsFirst(s, width, height, monitors, k) && monitors[k] == found.value
  {
    if monitors != [] && !Intersects(s.x, s.y, width, height, monitors[0]) {
      var rest := monitors[1..];
      FirstIntersectingIsFirst(s, width, height, rest);
      var found := FirstIntersecting(s, width, height, rest);
      if found.Some? {
        var k :| 0 <= k < |rest| && IsFirst(s, width, height, rest, k) && rest[k] == found.value;
        assert IsFirst(s, width, height, monitors, k + 1) by {
          forall j | 0 <= j < k + 1 ensures !Intersects(s.x, s.y, width, height, monitors[j]) {
            if j > 0 {
              assert monitors[j] == rest[j - 1];
            }
          }
        }
      }
    } else if monitors != [] {
      assert IsFirst(s, width, height, monitors, 0);
    }
  }

  predicate IsFirst(s: Saved, width: U32, height: U32, monitors: seq<Monitor>, k: nat) {
    && k < |monitors| && Intersects(s.x, s.y, width, height, monitors[k])
    && forall j :: 0 <= j < k ==> !Intersects(s.x, s.y, width, height, monitors[j])
  }

  lemma {:induction false} FitsAnyMeans(x: I32, y: I32, width: U32, height: U32, monitors: seq<Monitor>)
    ensures FitsAny(x, y, width, height, monitors) <==>
            exists k :: 0 <= k < |monitors| && Fits(x, y, width, height, monitors[k])
  {
    if monitors != [] {
      FitsAnyMeans(x, y, width, height, monitors[1..]);
      if FitsAny(x, y, width, height, monitors[1..]) {
        var k :| 0 <= k < |monitors[1..]| && Fits(x, y, width, height, monitors[1..][k]);
        assert monitors[k + 1] == monitors[1..][k];
      }
      forall k | 0 < k < |monitors| && Fits(x, y, width, height, monitors[k])
        ensures FitsAny(x, y, width, height, monitors[1..])
      {
        assert monitors[k] == monitors[1..][k - 1];
      }
    }
  }

  // ---------------------------------------------------------------- clamping and centring, on all inputs

  // How far a window of this size may move inside a monitor of that size.
  function Slack(monitor: U32, window: U32): U32 {
    if window <= monitor then monitor - window else 0
  }

  // The last position inside the monitor is an i32 coordinate on both axes.
  predicate SlackInRange(m: Monitor, width: U32, height: U32) {
    m.x + Slack(m.width, width) < I32_LIMIT && m.y + Slack(m.height, height) < I32_LIMIT
  }

  // The centred position is.
  predicate CenterInRange(m: Monitor, width: U32, height: U32) {
    m.x + Slack(m.width, width) / 2 < I32_LIMIT && m.y + Slack(m.height, height) / 2 < I32_LIMIT
  }

  function Distance(a: int, b: int): nat {
    if a <= b then b - a else a - b
  }

  // One axis of clamping: the nearest position at which the window lies inside.
  lemma ClampAxis(n: I32, lo: I32, monitor: U32, window: U32)
    ensures var kept := Min(window, monitor);
            var r := Clamp(n, lo, Edge(lo, SaturatingSub(monitor, kept)));
            && (r.None? <==> lo + Slack(monitor, window) >= I32_LIMIT)
            && (r.Some? ==>
                  && lo <= r.value && r.value + kept <= lo + monitor
                  && forall other: I32 :: lo <= other && other + kept <= lo + monitor ==>
                                            Distance(n, r.value) <= Distance(n, other))
  {
    EdgeIsSum(lo, Slack(monitor, window));
  }

  // Clamping panics exactly when the last position wraps. Otherwise the window lies inside the monitor,
  // keeps its size if it fits, and moves no further than any other placement inside the monitor would.
  lemma ClampIsNearest(s: Saved, width: U32, height: U32, m: Monitor)
    ensures var r := ClampToMonitor(s, width, height, m);
            && (r.Panicked? <==> !SlackInRange(m, width, height))
            && (r.Resolved? ==>
                  && r.bounds.Some?
                  && var b := r.bounds.value;
                  && Inside(b, m) && b.width == Min(width, m.width) && b.height == Min(height, m.height)
                  && forall other: Bounds ::
                       Inside(other, m) && other.width == b.width && other.height == b.height ==>
                         Distance(s.x, b.x) <= Distance(s.x, other.x) && Distance(s.y, b.y) <= Distance(s.y, other.y))
  {
    ClampAxis(s.x, m.x, m.width, width);
    ClampAxis(s.y, m.y, m.height, height);
  }

  // A centred window lies inside the monitor exactly when its position does not wrap, and then its
  // margins differ by at most one pixel.
  lemma CenterIsCentered(width: U32, height: U32, m: Monitor)
    ensures var b := CenterInMonitor(width, height, m);
            && b.width == Min(width, m.width) && b.height == Min(height, m.height)
            && (Inside(b, m) <==> CenterInRange(m, width, height))
            && (Inside(b, m) ==>
                  && 0 <= (m.x + m.width - (b.x + b.width)) - (b.x - m.x) <= 1
                  && 0 <= (m.y + m.height - (b.y + b.height)) - (b.y - m.y) <= 1)
  {
    EdgeIsSum(m.x, Slack(m.width, width) / 2);
    EdgeIsSum(m.y, Slack(m.height, height) / 2);
  }

  lemma InRangeHasSlack(m: Monitor, width: U32, height: U32)
    requires InRange(m.x, m.y, m.width, m.height)
    ensures SlackInRange(m, width, height) && CenterInRange(m, width, height)
  {
  }

  // ---------------------------------------------------------------- main results

  function Touched(saved: Option<Saved>, width: U32, height: U32, monitors: seq<Monitor>): Option<Monitor> {
    if saved.None? then None else FirstIntersecting(saved.value, width, height, monitors)
  }

  // A place is saved exactly for a restored window of positive size that some monitor contains, and it is the
  // window's own.
  lemma PersistedExactly(placement: Placement, b: Bounds, monitors: seq<Monitor>)
    ensures PersistedBounds(placement, b.x, b.y, b.width, b.height, monitors) ==
            if placement.Restored? && b.width > 0 && b.height > 0
               && (exists k :: 0 <= k < |monitors| && Fits(b.x, b.y, b.width, b.height, monitors[k]))
            then Some(Saved(b.x, b.y)) else None
  {
    FitsAnyMeans(b.x, b.y, b.width, b.height, monitors);
  }

  // On all inputs: startup panics exactly when the touched monitor's last position wraps; it finds a
  // place exactly when there is a monitor; and the window lies wholly inside the touched monitor, or
  // inside the first one exactly when its centred position does not wrap.
  lemma ResolvedExactly(saved: Option<Saved>, width: U32, height: U32, monitors: seq<Monitor>)
    ensures var r := ResolveStartupBounds(saved, width, height, monitors);
            var touched := Touched(saved, width, height, monitors);
            && (r.Panicked? <==> touched.Some? && !SlackInRange(touched.value, width, height))
            && (r.Resolved? ==> (r.bounds.None? <==> monitors == []))
            && (r.Resolved? && r.bounds.Some? ==>
                  if touched.Some?
                  then r == ClampToMonitor(saved.value, width, height, touched.value) && Inside(r.bounds.value, touched.value)
                  else && r.bounds.value == CenterInMonitor(width, height, monitors[0])
                       && (Inside(r.bounds.value, monitors[0]) <==> CenterInRange(monitors[0], width, height)))
  {
    if monitors != [] {
      CenterIsCentered(width, height, monitors[0]);
    }
    var touched := Touched(saved, width, height, monitors);
    if touched.Some? {
      ClampIsNearest(saved.value, width, height, touched.value);
    }
  }

  // Where no monitor leaves the i32 range, startup never panics and every window it finds a place for
  // lies wholly inside a listed monitor.
  lemma ResolvedLiesInsideAMonitor(saved: Option<Saved>, width: U32, height: U32, monitors: seq<Monitor>)
    requires MonitorsInRange(monitors)
    ensures var r := ResolveStartupBounds(saved, width, height, monitors);
            && r.Resolved? && (r.bounds.None? <==> monitors == [])
            && (r.bounds.Some? ==> exists k :: 0 <= k < |monitors| && Inside(r.bounds.value, monitors[k]))
  {
    ResolvedExactly(saved, width, height, monitors);
    var touched := Touched(saved, width, height, monitors);
    if touched.Some? {
      FirstIntersectingIsFirst(saved.value, width, height, monitors);
      InRangeHasSlack(touched.value, width, height);
    } else if monitors != [] {
      InRangeHasSlack(monitors[0], width, height);
    }
  }

  // On all inputs: a saved window that touches a monitor comes back at exactly its place and size if and
  // only if the first monitor it touches contains it (and clamping there does not wrap); one that
  // touches none is centred in the first monitor.
  lemma RoundTripIffFirstTouchedContains(b: Bounds, monitors: seq<Monitor>)
    requires PersistedBounds(Restored, b.x, b.y, b.width, b.height, monitors).Some?
    ensures var saved := PersistedBounds(Restored, b.x, b.y, b.width, b.height, monitors);
            var first := FirstIntersecting(saved.value, b.width, b.height, monitors);
            var r := ResolveStartupBounds(saved, b.width, b.height, monitors);
            && monitors != []
            && (first.Some? ==>
                  (r == Resolved(Some(b)) <==> Inside(b, first.value) && SlackInRange(first.value, b.width, b.height)))
            && (first.None? ==> r == Resolved(Some(CenterInMonitor(b.width, b.height, monitors[0]))))
  {
    var s := Saved(b.x, b.y);
    var first := FirstIntersecting(s, b.width, b.height, monitors);
    if first.Some? {
      ClampIsNearest(s, b.width, b.height, first.value);
      if Inside(b, first.value) && SlackInRange(first.value, b.width, b.height) {
        var r := ClampToMonitor(s, b.width, b.height, first.value).bounds.value;
        assert Distance(s.x, r.x) <= Distance(s.x, b.x) && Distance(s.y, r.y) <= Distance(s.y, b.y);
      }
    }
  }

  // Where nothing leaves the i32 range a saved window touches a monitor and clamping never wraps.
  lemma SavedWindowsTouch(b: Bounds, monitors: seq<Monitor>)
    requires MonitorsInRange(monitors) && InRange(b.x, b.y, b.width, b.height)
    requires PersistedBounds(Restored, b.x, b.y, b.width, b.height, monitors).Some?
    ensures var first := FirstIntersecting(Saved(b.x, b.y), b.width, b.height, monitors);
            first.Some? && SlackInRange(first.value, b.width, b.height)
  {
    var s := Saved(b.x, b.y);
    FitsAnyMeans(b.x, b.y, b.width, b.height, monitors);
    var k :| 0 <= k < |monitors| && Fits(b.x, b.y, b.width, b.height, monitors[k]);
    TestsMeanGeometry(b, monitors[k]);
    FirstIntersectingIsFirst(s, b.width, b.height, monitors);
    InRangeHasSlack(FirstIntersecting(s, b.width, b.height, monitors).value, b.width, b.height);
  }

  // Two overlapping monitors: the window fits the second and is saved, but touches the first as well,
  // which is too small for it, and comes back narrower and elsewhere.
  lemma OverlappingMonitorsMoveTheWindow()
    ensures var monitors := [Monitor(0, 0, 100, 100), Monitor(50, 0, 200, 200)];
            var b := Bounds(60, 10, 100, 80);
            var saved := PersistedBounds(Restored, b.x, b.y, b.width, b.height, monitors);
            && MonitorsInRange(monitors) && InRange(b.x, b.y, b.width, b.height)
            && saved == Some(Saved(60, 10))
            && FirstIntersecting(saved.value, b.width, b.height, monitors) == Some(monitors[0])
            && !Inside(b, monitors[0])
            && ResolveStartupBounds(saved, b.width, b.height, monitors) == Resolved(Some(Bounds(0, 10, 100, 80)))
  {
    var monitors := [Monitor(0, 0, 100, 100), Monitor(50, 0, 200, 200)];
    assert Fits(60, 10, 100, 80, monitors[1]);
    FitsAnyMeans(60, 10, 100, 80, monitors);
  }

  // A monitor at the end of the i32 range: both right edges wrap, so the window is saved as fitting and
  // then not recognised as touching, and comes back centred.
  lemma WrappedEdgesMoveTheWindow()
    ensures var monitors := [Monitor(2147483000, 0, 1000, 1000)];
            var b := Bounds(2147483500, 0, 300, 100);
            var saved := PersistedBounds(Restored, b.x, b.y, b.width, b.height, monitors);
            && saved == Some(Saved(2147483500, 0))
            && FirstIntersecting(saved.value, b.width, b.height, monitors) == None
            && ResolveStartupBounds(saved, b.width, b.height, monitors)
               == Resolved(Some(Bounds(2147483350, 450, 300, 100)))
  {
    var m := Monitor(2147483000, 0, 1000, 1000);
    assert Fits(2147483500, 0, 300, 100, m);
    assert FirstIntersecting(Saved(2147483500, 0), 300, 100, []) == None;
    assert [m][1..] == [];
  }

  ghost predicate Disjoint(monitors: seq<Monitor>) {
    forall j, k :: 0 <= j < k < |monitors| ==> !SharePoint(monitors[j], monitors[k])
  }

  predicate SharePoint(a: Monitor, b: Monitor) {
    && Max(a.x, b.x) < Min(a.x + a.width, b.x + b.width)
    && Max(a.y, b.y) < Min(a.y + a.height, b.y + b.height)
  }

  // On separate monitors of positive size every saved window comes back exactly.
  lemma SeparateMonitorsRoundTrip(b: Bounds, monitors: seq<Monitor>)
    requires MonitorsInRange(monitors) && InRange(b.x, b.y, b.width, b.height) && Disjoint(monitors)
    requires forall k :: 0 <= k < |monitors| ==> monitors[k].width > 0 && monitors[k].height > 0
    ensures var saved := PersistedBounds(Restored, b.x, b.y, b.width, b.height, monitors);
            saved.Some? ==> ResolveStartupBounds(saved, b.width, b.height, monitors) == Resolved(Some(b))
  {
    if PersistedBounds(Restored, b.x, b.y, b.width, b.height, monitors).Some? {
      RoundTripIffFirstTouchedContains(b, monitors);
      SavedWindowsTouch(b, monitors);
      FitsAnyMeans(b.x, b.y, b.width, b.height, monitors);
      FirstIntersectingIsFirst(Saved(b.x, b.y), b.width, b.height, monitors);
      var k :| 0 <= k < |monitors| && Fits(b.x, b.y, b.width, b.height, monitors[k]);
      var j :| 0 <= j < |monitors| && IsFirst(Saved(b.x, b.y), b.width, b.height, monitors, j)
               && monitors[j] == FirstIntersecting(Saved(b.x, b.y), b.width, b.height, monitors).value;
      TestsMeanGeometry(b, monitors[k]);
      TestsMeanGeometry(b, monitors[j]);
      TouchedMeetsContaining(b, monitors[j], monitors[k]);
    }
  }

  lemma TouchedMeetsContaining(b: Bounds, touched: Monitor, containing: Monitor)
    requires Overlap(b, touched) && Inside(b, containing)
    ensures SharePoint(touched, containing) && SharePoint(containing, touched)
  {
  }
}
