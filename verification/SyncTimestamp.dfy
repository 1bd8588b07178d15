// Sync timestamps: zero-padded decimal strings that are compared as strings (src/app/bootstrap.rs).
module SyncTimestamp {
  import opened Common

  const WIDTH: nat := 20
  const TIMESTAMP_LIMIT: nat := 100_000_000_000_000_000_000
  const U128_LIMIT: nat := 0x1_0000_0000_0000_0000_0000_0000_0000_0000

  // str's order: code point by code point, which UTF-8 byte order agrees with.
  predicate StrLt(a: string, b: string) {
    b != "" && (a == "" || a[0] < b[0] || (a[0] == b[0] && StrLt(a[1..], b[1..])))
  }

  function DigitChar(d: nat): char
    requires d < 10
  {
    '0' + d as char
  }

  predicate IsDigit(ch: char) {
    '0' <= ch <= '9'
  }

  function DigitValue(ch: char): (d: nat)
    requires IsDigit(ch)
    ensures d < 10 && DigitChar(d) == ch
  {
    (ch - '0') as nat
  }

  function Digits(n: nat): (s: string)
    ensures s != "" && AllDigits(s)
  {
    if n < 10 then [DigitChar(n)] else Digits(n / 10) + [DigitChar(n % 10)]
  }

  function Zeros(k: nat): (s: string)
    ensures |s| == k && AllDigits(s)
  {
    seq(k, _ => '0')
  }

  // format!("{:020}", n): at least twenty digits, more when n needs them.
  function Format(n: nat): (r: string)
    ensures |r| == Max(WIDTH, |Digits(n)|) && AllDigits(r)
  {
    var s := Digits(n);
    if |s| < WIDTH then Zeros(WIDTH - |s|) + s else s
  }

  predicate AllDigits(s: string) {
    forall i :: 0 <= i < |s| ==> IsDigit(s[i])
  }

  function Value(s: string): nat
    requires AllDigits(s)
  {
    if s == "" then 0 else 10 * Value(s[..|s| - 1]) + DigitValue(s[|s| - 1])
  }

  // str::parse::<u128>: an optional plus sign, at least one digit, and no overflow.
  function Parse(s: string): Option<nat> {
    var digits := if s != "" && s[0] == '+' then s[1..] else s;
    if digits != "" && AllDigits(digits) && Value(digits) < U128_LIMIT then Some(Value(digits)) else None
  }

  function SyncTimestampAfter(candidate: string, floor: Option<string>): string {
    if floor.None? || IsBlank(floor.value) then candidate
    else if StrLt(floor.value, candidate) then candidate
    else
      var parsed := Parse(floor.value);
      if parsed.Some? && parsed.value + 1 < U128_LIMIT then Format(parsed.value + 1) else candidate
  }

  // Iterator::max over the recorded timestamps that are present.
  function MaxRecorded(a: Option<string>, b: Option<string>): Option<string> {
    if a.None? then b
    else if b.None? then a
    else if StrLt(b.value, a.value) then a else b
  }

  datatype LocalState = LocalState(lastChange: Option<string>, lastPush: Option<string>, lastPull: Option<string>)

  function Floor(s: LocalState): Option<string> {
    MaxRecorded(MaxRecorded(s.lastChange, s.lastPush), s.lastPull)
  }

  // nowMillis stands for the clock reading.
  function NextLocalChangeTimestamp(s: LocalState, nowMillis: nat): string {
    SyncTimestampAfter(Format(nowMillis), Floor(s))
  }

  // ---------------------------------------------------------------- printing and parsing

  function Pow10(k: nat): (p: nat)
    ensures p > 0
  {
    if k == 0 then 1 else 10 * Pow10(k - 1)
  }

  lemma ValueOfSnoc(s: string)
    requires s != "" && AllDigits(s)
    ensures Value(s) == 10 * Value(s[..|s| - 1]) + DigitValue(s[|s| - 1])
  {
  }

  lemma {:induction false} ValueBound(s: string)
    requires AllDigits(s)
    ensures Value(s) < Pow10(|s|)
  {
    if s != "" {
      ValueBound(s[..|s| - 1]);
      ValueOfSnoc(s);
    }
  }

  lemma {:induction false} ValueOfDigits(n: nat)
    ensures Value(Digits(n)) == n
  {
    var s := Digits(n);
    ValueOfSnoc(s);
    if n < 10 {
      assert s[..0] == "";
    } else {
      ValueOfDigits(n / 10);
      assert s[..|s| - 1] == Digits(n / 10);
    }
  }

  lemma {:induction false} LeadingZeros(k: nat, s: string)
    requires AllDigits(s)
    ensures Value(Zeros(k) + s) == Value(s)
    decreases |s|, k
  {
    var z := Zeros(k) + s;
    if z != "" {
      ValueOfSnoc(z);
      if s == "" {
        assert z[..k - 1] == Zeros(k - 1) + "";
        LeadingZeros(k - 1, "");
      } else {
        assert z[..|z| - 1] == Zeros(k) + s[..|s| - 1];
        LeadingZeros(k, s[..|s| - 1]);
        ValueOfSnoc(s);
      }
    }
  }

  lemma ValueOfFormat(n: nat)
    ensures Value(Format(n)) == n
  {
    ValueOfDigits(n);
    LeadingZeros(if |Digits(n)| < WIDTH then WIDTH - |Digits(n)| else 0, Digits(n));
    assert Zeros(0) + Digits(n) == Digits(n);
  }

  // Parsing undoes printing, for every number the parser accepts at all.
  lemma ParseUndoesFormat(n: nat)
    requires n < U128_LIMIT
    ensures Parse(Format(n)) == Some(n)
  {
    ValueOfFormat(n);
    assert Format(n)[0] != '+';
  }

  // A number prints in at most k digits exactly when it is below 10^k.
  lemma {:induction false} DigitCount(n: nat, k: nat)
    requires k > 0
    ensures |Digits(n)| <= k <==> n < Pow10(k)
  {
    if n >= 10 {
      if k == 1 {
        assert Pow10(1) == 10;
      } else {
        DigitCount(n / 10, k - 1);
      }
    } else {
      TenAtLeast(k);
    }
  }

  lemma {:induction false} TenAtLeast(k: nat)
    requires k > 0
    ensures Pow10(k) >= 10
  {
    if k > 1 {
      TenAtLeast(k - 1);
    }
  }

  // ---------------------------------------------------------------- string order is numeric order

  lemma ShiftLeft(d: nat, p: nat, v: nat, x: nat)
    ensures 10 * (d * p + v) + x == d * (10 * p) + (10 * v + x)
  {
  }

  lemma {:induction false} ValueFromHead(s: string)
    requires s != "" && AllDigits(s)
    ensures Value(s) == DigitValue(s[0]) * Pow10(|s| - 1) + Value(s[1..])
  {
    var n := |s| - 1;
    ValueOfSnoc(s);
    if n == 0 {
      assert s[..0] == "" && s[1..] == "";
    } else {
      var front, tail := s[..n], s[1..];
      ValueFromHead(front);
      ValueOfSnoc(tail);
      assert front[1..] == tail[..n - 1];
      ShiftLeft(DigitValue(s[0]), Pow10(n - 1), Value(front[1..]), DigitValue(s[n]));
    }
  }

  // The first digits decide when they differ, whatever follows them.
  lemma LeadingDigitDecides(x: nat, u: nat, y: nat, v: nat, p: nat)
    requires u < p && v < p
    ensures x * p + u < y * p + v <==> (x < y || (x == y && u < v))
    ensures x * p + u == y * p + v <==> (x == y && u == v)
  {
    if x < y {
      MulLe(x + 1, y, p);
      assert (x + 1) * p == x * p + p;
    } else if y < x {
      MulLe(y + 1, x, p);
      assert (y + 1) * p == y * p + p;
    }
  }

  lemma CompareHeads(a: string, b: string, x: nat, y: nat, u: nat, v: nat)
    requires a != "" && |a| == |b| && AllDigits(a) && AllDigits(b)
    requires x == DigitValue(a[0]) && y == DigitValue(b[0]) && u == Value(a[1..]) && v == Value(b[1..])
    ensures Value(a) < Value(b) <==> (x < y || (x == y && u < v))
    ensures Value(a) == Value(b) <==> (x == y && u == v)
  {
    ValueFromHead(a);
    ValueFromHead(b);
    ValueBound(a[1..]);
    ValueBound(b[1..]);
    LeadingDigitDecides(x, u, y, v, Pow10(|a| - 1));
  }

  lemma {:induction false} StringOrderIsNumericOrder(a: string, b: string)
    requires |a| == |b| && AllDigits(a) && AllDigits(b)
    ensures StrLt(a, b) <==> Value(a) < Value(b)
    ensures a == b <==> Value(a) == Value(b)
  {
    if a != "" {
      var x, y, u, v := DigitValue(a[0]), DigitValue(b[0]), a[1..], b[1..];
      StringOrderIsNumericOrder(u, v);
      CompareHeads(a, b, x, y, Value(u), Value(v));
      assert a == [a[0]] + u && b == [b[0]] + v;
      assert x == y <==> a[0] == b[0];
    }
  }

  // ---------------------------------------------------------------- the order on strings

  lemma {:induction false} StrLtTransitive(a: string, b: string, c: string)
    requires StrLt(a, b) && StrLt(b, c)
    ensures StrLt(a, c)
  {
    if a != "" && a[0] == b[0] && b[0] == c[0] {
      StrLtTransitive(a[1..], b[1..], c[1..]);
    }
  }

  lemma {:induction false} StrLtTotal(a: string, b: string)
    ensures StrLt(a, b) || a == b || StrLt(b, a)
    ensures !(StrLt(a, b) && StrLt(b, a)) && !StrLt(a, a)
  {
    if a != "" {
      StrLtTotal(a[1..], if b != "" then b[1..] else "");
      if b != "" {
        assert a == [a[0]] + a[1..] && b == [b[0]] + b[1..];
      }
    }
  }

  // Against a longer string, its first |a| characters decide, and on a tie the shorter one is first.
  lemma {:induction false} PrefixDecides(a: string, b: string)
    requires |a| < |b|
    ensures StrLt(a, b) <==> a == b[..|a|] || StrLt(a, b[..|a|])
    ensures StrLt(b, a) <==> StrLt(b[..|a|], a)
  {
    if a != "" {
      PrefixDecides(a[1..], b[1..]);
      assert b[..|a|][1..] == b[1..][..|a| - 1];
      assert a == [a[0]] + a[1..] && b[..|a|] == [b[0]] + b[1..][..|a| - 1];
    }
  }

  // Cutting digits off divides by ten each, at least.
  lemma {:induction false} PrefixTenth(s: string, n: nat)
    requires n < |s| && AllDigits(s)
    ensures 10 * Value(s[..n]) <= Value(s)
  {
    var front := s[..|s| - 1];
    ValueOfSnoc(s);
    if n < |s| - 1 {
      PrefixTenth(front, n);
      assert front[..n] == s[..n];
    }
  }

  // ---------------------------------------------------------------- one more than a recorded number

  predicate AllNines(s: string) {
    forall i :: 0 <= i < |s| ==> s[i] == '9'
  }

  lemma {:induction false} NinesValue(s: string)
    requires AllDigits(s)
    ensures AllNines(s) <==> Value(s) == Pow10(|s|) - 1
  {
    if s != "" {
      var front := s[..|s| - 1];
      NinesValue(front);
      ValueBound(front);
      ValueOfSnoc(s);
      assert s == front + [s[|s| - 1]];
      assert AllNines(s) <==> AllNines(front) && s[|s| - 1] == '9' by {
        assert forall i :: 0 <= i < |front| ==> front[i] == s[i];
      }
    }
  }

  // Adding one to nines prints a one and sorts before them.
  lemma {:induction false} LeadingOne(k: nat)
    ensures Digits(Pow10(k))[0] == '1' && |Digits(Pow10(k))| == k + 1
  {
    if k > 0 {
      LeadingOne(k - 1);
      assert Pow10(k) / 10 == Pow10(k - 1);
    }
  }

  // A digit string that parses, and whose successor's print sorts after it: signed ones, zero, and
  // those as wide as a timestamp that are not all nines.
  predicate HasLaterSuccessor(f: string) {
    var v := Parse(f);
    v.Some? && v.value + 1 < U128_LIMIT && (f[0] == '+' || v.value == 0 || (|f| >= WIDTH && !AllNines(f)))
  }

  lemma NinesSuccessor(f: string)
    requires |f| >= WIDTH && AllNines(f)
    ensures !StrLt(f, Format(Pow10(|f|)))
  {
    LeadingOne(|f|);
    assert Format(Pow10(|f|))[0] == '1' && f[0] == '9';
  }

  // A larger number that prints shorter does so because f starts with zeros, and sorts after it.
  lemma ShorterIsLater(f: string, g: string)
    requires AllDigits(f) && AllDigits(g) && |g| < |f| && Value(f) < Value(g)
    ensures StrLt(f, g)
  {
    PrefixTenth(f, |g|);
    StringOrderIsNumericOrder(f[..|g|], g);
    PrefixDecides(g, f);
    StrLtTotal(f, g);
    StrLtTotal(f[..|g|], g);
  }

  lemma WideSuccessor(f: string, v: nat)
    requires AllDigits(f) && v == Value(f) && |f| >= WIDTH
    ensures StrLt(f, Format(v + 1)) <==> !AllNines(f)
  {
    NinesValue(f);
    if AllNines(f) {
      NinesSuccessor(f);
    } else {
      ValueBound(f);
      OtherSuccessor(f, v);
    }
  }

  lemma OtherSuccessor(f: string, v: nat)
    requires AllDigits(f) && v == Value(f) && |f| >= WIDTH && v + 1 < Pow10(|f|)
    ensures StrLt(f, Format(v + 1))
  {
    ValueOfFormat(v + 1);
    DigitCount(v + 1, |f|);
    LargerIsLater(f, Format(v + 1));
  }

  lemma LargerIsLater(f: string, g: string)
    requires AllDigits(f) && AllDigits(g) && |g| <= |f| && Value(f) < Value(g)
    ensures StrLt(f, g)
  {
    if |g| == |f| {
      StringOrderIsNumericOrder(f, g);
    } else {
      ShorterIsLater(f, g);
    }
  }

  lemma NarrowSuccessor(f: string, v: nat)
    requires f != "" && AllDigits(f) && v == Value(f) && |f| < WIDTH
    ensures StrLt(f, Format(v + 1)) <==> v == 0
  {
    var g := Format(v + 1);
    ValueBound(f);
    ValueOfFormat(v + 1);
    DigitCount(v + 1, |f| + 1);
    assert |g| == WIDTH;
    PrefixTenth(g, |f|);
    StringOrderIsNumericOrder(f, g[..|f|]);
    PrefixDecides(f, g);
  }

  // The successor of a recorded number sorts after it exactly when HasLaterSuccessor says so.
  lemma SuccessorOrder(f: string)
    requires Parse(f).Some? && Parse(f).value + 1 < U128_LIMIT
    ensures StrLt(f, Format(Parse(f).value + 1)) <==> HasLaterSuccessor(f)
  {
    var v := Parse(f).value;
    if f[0] == '+' {
      assert IsDigit(Format(v + 1)[0]);
    } else if |f| >= WIDTH {
      WideSuccessor(f, v);
      if v == 0 {
        NinesValue(f);
        TenAtLeast(|f|);
      }
    } else {
      NarrowSuccessor(f, v);
    }
  }

  // ---------------------------------------------------------------- the next change

  predicate Recorded(s: LocalState, t: string) {
    s.lastChange == Some(t) || s.lastPush == Some(t) || s.lastPull == Some(t)
  }

  // The maximum taken is one of the recorded strings and none is later.
  lemma FloorIsLatest(s: LocalState)
    ensures Floor(s).None? <==> s == LocalState(None, None, None)
    ensures Floor(s).Some? ==> Recorded(s, Floor(s).value)
    ensures Floor(s).Some? ==> forall t :: Recorded(s, t) ==> t == Floor(s).value || StrLt(t, Floor(s).value)
  {
    MaxIsLatest(s.lastChange, s.lastPush);
    MaxIsLatest(MaxRecorded(s.lastChange, s.lastPush), s.lastPull);
    if Floor(s).Some? {
      forall t | Recorded(s, t) ensures t == Floor(s).value || StrLt(t, Floor(s).value) {
        var m := MaxRecorded(s.lastChange, s.lastPush);
        if m.Some? && StrLt(t, m.value) && StrLt(m.value, Floor(s).value) {
          StrLtTransitive(t, m.value, Floor(s).value);
        }
      }
    }
  }

  lemma MaxIsLatest(a: Option<string>, b: Option<string>)
    ensures var m := MaxRecorded(a, b);
            && (m == a || m == b)
            && (m.None? <==> a.None? && b.None?)
            && (a.Some? ==> m == a || StrLt(a.value, m.value))
            && (b.Some? ==> m == b || StrLt(b.value, m.value))
  {
    if a.Some? && b.Some? {
      StrLtTotal(a.value, b.value);
    }
  }

  // What a caller can check beforehand: nothing recorded, the clock is ahead, or the latest recorded
  // string has a later successor.
  predicate CanAdvance(s: LocalState, nowMillis: nat) {
    var floor := Floor(s);
    floor.None? || StrLt(floor.value, Format(nowMillis)) || HasLaterSuccessor(floor.value)
  }

  lemma NextPastFloor(candidate: string, floor: string)
    ensures StrLt(floor, SyncTimestampAfter(candidate, Some(floor))) <==>
            StrLt(floor, candidate) || HasLaterSuccessor(floor)
  {
    StrLtTotal(floor, candidate);
    if Parse(floor).Some? && Parse(floor).value + 1 < U128_LIMIT {
      ParsedIsNotBlank(floor);
      SuccessorOrder(floor);
    }
  }

  // The floor decides only when it is at or past the clock and has a successor below 2^128; then the next
  // timestamp is that successor, padded. In all other cases it is the clock's.
  lemma NextIsClockOrSuccessor(candidate: string, floor: string)
    ensures SyncTimestampAfter(candidate, Some(floor)) ==
            if !StrLt(floor, candidate) && Parse(floor).Some? && Parse(floor).value + 1 < U128_LIMIT
            then Format(Parse(floor).value + 1) else candidate
    ensures SyncTimestampAfter(candidate, None) == candidate
  {
    if Parse(floor).Some? {
      ParsedIsNotBlank(floor);
    }
  }

  // What parses is a number below 2^128 in digits, at least one, with at most one plus sign in front.
  lemma ParseExactly(s: string, v: nat)
    ensures Parse(s) == Some(v) <==> v < U128_LIMIT && exists d :: (s == d || s == "+" + d) && Denotes(d, v)
  {
    if Parse(s) == Some(v) {
      if s[0] == '+' {
        assert s == "+" + s[1..] && Denotes(s[1..], v);
      } else {
        assert Denotes(s, v);
      }
    }
    if v < U128_LIMIT && exists d :: (s == d || s == "+" + d) && Denotes(d, v) {
      var d :| (s == d || s == "+" + d) && Denotes(d, v);
      assert s == d ==> s[0] != '+';
      assert s != d ==> s[1..] == d;
    }
  }

  predicate Denotes(digits: string, v: nat) {
    digits != "" && AllDigits(digits) && Value(digits) == v
  }

  lemma ParsedIsNotBlank(s: string)
    requires Parse(s).Some?
    ensures !IsBlank(s)
  {
    assert !IsWhitespace(s[0]);
  }

  // Whatever strings are recorded and whatever the clock says, the next local change sorts after
  // everything recorded if and only if CanAdvance.
  lemma NextIsNewest(s: LocalState, nowMillis: nat)
    ensures (forall t :: Recorded(s, t) ==> StrLt(t, NextLocalChangeTimestamp(s, nowMillis)))
            <==> CanAdvance(s, nowMillis)
  {
    FloorIsLatest(s);
    if Floor(s).Some? {
      var floor, next := Floor(s).value, NextLocalChangeTimestamp(s, nowMillis);
      NextPastFloor(Format(nowMillis), floor);
      if StrLt(floor, next) {
        forall t | Recorded(s, t) ensures StrLt(t, next) {
          if StrLt(t, floor) {
            StrLtTransitive(t, floor, next);
          }
        }
      }
    }
  }

  // ---------------------------------------------------------------- twenty-digit timestamps

  predicate IsTimestamp(s: string) {
    |s| == WIDTH && AllDigits(s)
  }

  const LAST: string := "99999999999999999999"

  ghost predicate StateOk(s: LocalState) {
    forall t :: Recorded(s, t) ==> IsTimestamp(t)
  }

  // width keeps the solver from computing with the literal 20.
  lemma TwentyDigits(width: nat)
    requires width == WIDTH
    ensures Pow10(width) == TIMESTAMP_LIMIT
  {
    assert Pow10(5) == 100_000;
    assert Pow10(10) == 10_000_000_000 by {
      assert Pow10(7) == 100 * Pow10(5);
      assert Pow10(9) == 100 * Pow10(7);
    }
    assert Pow10(12) == 100 * Pow10(10);
    assert Pow10(14) == 100 * Pow10(12);
    assert Pow10(16) == 100 * Pow10(14);
    assert Pow10(18) == 100 * Pow10(16);
    assert Pow10(20) == 100 * Pow10(18);
  }

  lemma TimestampParses(s: string)
    requires IsTimestamp(s)
    ensures Value(s) < TIMESTAMP_LIMIT && Parse(s) == Some(Value(s))
    ensures s[0] != '+' && (AllNines(s) <==> s == LAST)
  {
    ValueBound(s);
    TwentyDigits(|s|);
    assert s[0] != '+';
  }

  // A clock reading below 10^20 prints as a timestamp.
  lemma ClockIsTimestamp(n: nat, width: nat)
    requires n < TIMESTAMP_LIMIT && width == WIDTH
    ensures IsTimestamp(Format(n))
  {
    TwentyDigits(width);
    DigitCount(n, width);
  }

  // Between twenty-digit timestamps one step moves to the larger of the clock and one past the floor,
  // and strictly past the floor unless that is the last timestamp.
  lemma AfterFloor(candidate: string, floor: string)
    requires IsTimestamp(candidate) && IsTimestamp(floor)
    ensures var r := SyncTimestampAfter(candidate, Some(floor));
            if floor != LAST
            then IsTimestamp(r) && StrLt(floor, r) && Value(r) == Max(Value(candidate), Value(floor) + 1)
            else !StrLt(floor, r)
  {
    NextPastFloor(candidate, floor);
    TimestampSuccessor(floor, Value(floor));
    if floor == LAST {
      NothingAfterLast(candidate, floor);
    } else {
      AfterEarlierFloor(candidate, floor);
    }
  }

  lemma AfterEarlierFloor(candidate: string, floor: string)
    requires IsTimestamp(candidate) && IsTimestamp(floor) && floor != LAST
    ensures var r := SyncTimestampAfter(candidate, Some(floor));
            IsTimestamp(r) && Value(r) == Max(Value(candidate), Value(floor) + 1)
  {
    TimestampParses(floor);
    ParsedIsNotBlank(floor);
    AfterCases(candidate, floor, Value(floor));
    StringOrderIsNumericOrder(floor, candidate);
    TimestampSuccessor(floor, Value(floor));
  }

  lemma AfterCases(candidate: string, floor: string, value: nat)
    requires !IsBlank(floor) && Parse(floor) == Some(value) && value + 1 < U128_LIMIT
    ensures SyncTimestampAfter(candidate, Some(floor)) == if StrLt(floor, candidate) then candidate else Format(value + 1)
  {
  }

  lemma TimestampSuccessor(floor: string, value: nat)
    requires IsTimestamp(floor) && value == Value(floor)
    ensures HasLaterSuccessor(floor) <==> floor != LAST
    ensures floor != LAST ==> IsTimestamp(Format(value + 1)) && Value(Format(value + 1)) == value + 1
  {
    TimestampParses(floor);
    NinesValue(floor);
    TwentyDigits(|floor|);
    TenAtLeast(|floor|);
    ValueOfFormat(value + 1);
    if floor != LAST {
      ClockIsTimestamp(value + 1, |floor|);
    }
  }

  // Among twenty-digit timestamps the next change is newest if and only if the last one is not recorded.
  lemma NextTimestampIsNewest(s: LocalState, nowMillis: nat)
    requires StateOk(s) && nowMillis < TIMESTAMP_LIMIT
    ensures CanAdvance(s, nowMillis) <==> !Recorded(s, LAST)
    ensures Floor(s).Some? ==> IsTimestamp(Floor(s).value)
    ensures !Recorded(s, LAST) ==>
              && IsTimestamp(NextLocalChangeTimestamp(s, nowMillis))
              && Value(NextLocalChangeTimestamp(s, nowMillis))
                 == if Floor(s).None? then nowMillis else Max(nowMillis, Value(Floor(s).value) + 1)
  {
    FloorIsLatest(s);
    ClockIsTimestamp(nowMillis, |Zeros(WIDTH)|);
    ValueOfFormat(nowMillis);
    if Floor(s).Some? {
      var floor := Floor(s).value;
      AfterFloor(Format(nowMillis), floor);
      NextPastFloor(Format(nowMillis), floor);
      LastIsFloor(s, floor);
    }
  }

  // The last timestamp, once recorded, is the floor.
  lemma LastIsFloor(s: LocalState, floor: string)
    requires StateOk(s) && Floor(s) == Some(floor)
    ensures Recorded(s, LAST) <==> floor == LAST
  {
    FloorIsLatest(s);
    if Recorded(s, LAST) && StrLt(LAST, floor) {
      NothingAfterLast(floor, LAST);
    }
  }

  lemma NothingAfterLast(s: string, last: string)
    requires IsTimestamp(s) && last == LAST
    ensures !StrLt(last, s)
  {
    assert IsTimestamp(last);
    TimestampParses(last);
    NinesValue(last);
    ValueBound(s);
    StringOrderIsNumericOrder(last, s);
  }

  // ---------------------------------------------------------------- histories

  // What writes the recorded timestamps: a local change at some clock reading, and pushes and pulls that
  // record whatever the remote says.
  datatype Event = LocalChange(nowMillis: nat) | Pushed(at: string) | Pulled(at: string)

  function Next(s: LocalState, e: Event): LocalState {
    match e
    case LocalChange(nowMillis) => s.(lastChange := Some(NextLocalChangeTimestamp(s, nowMillis)))
    case Pushed(at) => s.(lastPush := Some(at))
    case Pulled(at) => s.(lastPull := Some(at))
  }

  // ss[n] is the state after the first n events.
  ghost predicate IsHistory(es: seq<Event>, ss: seq<LocalState>) {
    && |ss| == |es| + 1
    && forall n: nat {:trigger Moment(n)} :: n < |es| && Moment(n) ==> ss[n + 1] == Next(ss[n], es[n])
  }

  // Every local change in the history from i on could advance.
  ghost predicate AllAdvance(es: seq<Event>, ss: seq<LocalState>, i: nat)
    requires |ss| == |es| + 1
  {
    forall k :: i <= k < |es| && es[k].LocalChange? ==> CanAdvance(ss[k], es[k].nowMillis)
  }

  // The change recorded at i is still recorded at j, or a later one is.
  lemma {:induction false} LastChangeGrows(es: seq<Event>, ss: seq<LocalState>, i: nat, j: nat)
    requires IsHistory(es, ss) && i <= j <= |es| && AllAdvance(es, ss, i) && ss[i].lastChange.Some?
    ensures ss[j].lastChange.Some?
    ensures ss[j].lastChange == ss[i].lastChange || StrLt(ss[i].lastChange.value, ss[j].lastChange.value)
    decreases j
  {
    if i < j {
      LastChangeGrows(es, ss, i, j - 1);
      assert Moment(j - 1);
      if es[j - 1].LocalChange? {
        ChangeIsNewest(ss[j - 1], es[j - 1].nowMillis);
        if ss[j - 1].lastChange != ss[i].lastChange {
          StrLtTransitive(ss[i].lastChange.value, ss[j - 1].lastChange.value, ss[j].lastChange.value);
        }
      }
    }
  }

  lemma ChangeIsNewest(s: LocalState, nowMillis: nat)
    requires CanAdvance(s, nowMillis)
    ensures forall t :: Recorded(s, t) ==> StrLt(t, NextLocalChangeTimestamp(s, nowMillis))
    ensures s.lastChange.Some? ==> StrLt(s.lastChange.value, NextLocalChangeTimestamp(s, nowMillis))
  {
    NextIsNewest(s, nowMillis);
    assert s.lastChange.Some? ==> Recorded(s, s.lastChange.value);
  }

  // Over any history of local changes, pushes and pulls, with any clock readings and any remote
  // timestamps, successive local changes get strictly increasing timestamps as long as each could
  // advance past what was recorded before it.
  lemma LocalChangesIncrease(es: seq<Event>, ss: seq<LocalState>, i: nat, j: nat)
    requires IsHistory(es, ss) && i < j < |es| && es[i].LocalChange? && es[j].LocalChange?
    requires AllAdvance(es, ss, i)
    ensures ss[i + 1].lastChange.Some? && ss[j + 1].lastChange.Some?
    ensures StrLt(ss[i + 1].lastChange.value, ss[j + 1].lastChange.value)
  {
    assert Moment(i) && Moment(j);
    LastChangeGrows(es, ss, i + 1, j);
    ChangeIsNewest(ss[j], es[j].nowMillis);
    var first, before, after := ss[i + 1].lastChange.value, ss[j].lastChange.value, ss[j + 1].lastChange.value;
    if StrLt(first, before) {
      StrLtTransitive(first, before, after);
    }
  }

  // For clocks and remotes of twenty digits that is as long as the last timestamp is not recorded.
  lemma TimestampHistoriesAdvance(es: seq<Event>, ss: seq<LocalState>, i: nat)
    requires IsHistory(es, ss) && i <= |es|
    requires forall k :: i <= k < |es| ==>
                           && StateOk(ss[k]) && !Recorded(ss[k], LAST)
                           && (es[k].LocalChange? ==> es[k].nowMillis < TIMESTAMP_LIMIT)
    ensures AllAdvance(es, ss, i)
  {
    forall k | i <= k < |es| && es[k].LocalChange? ensures CanAdvance(ss[k], es[k].nowMillis) {
      NextTimestampIsNewest(ss[k], es[k].nowMillis);
    }
  }
}
