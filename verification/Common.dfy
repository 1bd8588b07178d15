// Vocabulary shared by every module: options, machine-word bounds, filters and the order-keeping
// embeddings that filters induce.
module Common {

  const U32_LIMIT: nat := 0x1_0000_0000
  const U64_LIMIT: nat := 0x1_0000_0000_0000_0000
  const U64_MAX: nat := U64_LIMIT - 1

  type Byte = n: nat | n < 256
  type U32 = n: nat | n < U32_LIMIT

  datatype Option<+T> = None | Some(value: T)

  // Names a moment of a run; mentioning Moment(n) in a proof brings step n into view.
  predicate Moment(n: nat) {
    true
  }

  function Min(a: int, b: int): int {
    if a <= b then a else b
  }

  function Max(a: int, b: int): int {
    if a <= b then b else a
  }

  // Rust's char::is_whitespace: the Unicode White_Space property.
  predicate IsWhitespace(ch: char) {
    || '\U{0009}' <= ch <= '\U{000D}'
    || ch == ' ' || ch == '\U{0085}' || ch == '\U{00A0}' || ch == '\U{1680}'
    || '\U{2000}' <= ch <= '\U{200A}'
    || ch == '\U{2028}' || ch == '\U{2029}' || ch == '\U{202F}' || ch == '\U{205F}' || ch == '\U{3000}'
  }

  // True of the empty string as well.
  predicate IsBlank(s: string) {
    forall i :: 0 <= i < |s| ==> IsWhitespace(s[i])
  }

  lemma MulLe(a: int, b: int, c: nat)
    requires a <= b
    ensures a * c <= b * c && c * a <= c * b
  {
  }

  lemma LessFromProducts(a: int, b: int, c: nat)
    requires a * c < b * c
    ensures a < b
  {
    if b <= a {
      MulLe(b, a, c);
    }
  }

  lemma DivLe(a: nat, b: nat, c: nat)
    requires a <= b && c > 0
    ensures a / c <= b / c
  {
    assert (a / c) * c <= a && b < (b / c + 1) * c;
    LessFromProducts(a / c, b / c + 1, c);
  }

  lemma DivIs(a: nat, c: nat, q: nat)
    requires c > 0 && q * c <= a < (q + 1) * c
    ensures a / c == q
  {
    assert (a / c) * c <= a < (a / c + 1) * c;
    LessFromProducts(a / c, q + 1, c);
    LessFromProducts(q, a / c + 1, c);
  }

  // What Vec::retain and Iterator::filter leave behind.
  function Filter<T>(s: seq<T>, keep: T -> bool): seq<T> {
    if s == [] then [] else
      (if keep(s[0]) then [s[0]] else []) + Filter(s[1..], keep)
  }

  // idx picks, in order, |idx| positions out of a sequence of length n.
  ghost predicate Embeds(idx: seq<nat>, n: nat) {
    && (forall k :: 0 <= k < |idx| ==> idx[k] < n)
    && (forall j, k :: 0 <= j < k < |idx| ==> idx[j] < idx[k])
  }

  lemma {:induction false} FilterHas<T>(s: seq<T>, keep: T -> bool, i: nat)
    requires i < |s| && keep(s[i])
    ensures s[i] in Filter(s, keep)
  {
    if i > 0 {
      FilterHas(s[1..], keep, i - 1);
      assert s[i] == s[1..][i - 1];
    }
  }

  lemma {:induction false} FilterOnlyKeeps<T>(s: seq<T>, keep: T -> bool, x: T)
    requires x in Filter(s, keep)
    ensures x in s && keep(x)
  {
    if !(keep(s[0]) && x == s[0]) {
      FilterOnlyKeeps(s[1..], keep, x);
    }
  }

  // A filtered sequence is an order-keeping selection of exactly the kept elements.
  lemma {:induction false} FilterEmbeds<T>(s: seq<T>, keep: T -> bool) returns (idx: seq<nat>)
    ensures |idx| == |Filter(s, keep)| && Embeds(idx, |s|)
    ensures forall k :: 0 <= k < |idx| ==> Filter(s, keep)[k] == s[idx[k]] && keep(s[idx[k]])
    ensures forall i :: 0 <= i < |s| && keep(s[i]) ==> s[i] in Filter(s, keep)
  {
    idx := FilterIndices(s, keep);
    forall i | 0 <= i < |s| && keep(s[i]) ensures s[i] in Filter(s, keep) {
      FilterHas(s, keep, i);
    }
  }

  lemma FilterIndices<T>(s: seq<T>, keep: T -> bool) returns (idx: seq<nat>)
    ensures |idx| == |Filter(s, keep)| && Embeds(idx, |s|)
    ensures forall k :: 0 <= k < |idx| ==> Filter(s, keep)[k] == s[idx[k]] && keep(s[idx[k]])
  {
    idx := FilterPositions(s, keep);
    forall k | 0 <= k < |idx| ensures keep(s[idx[k]]) {
      assert idx[k] in idx;
    }
  }

  // Where the kept elements of a sequence are.
  lemma {:induction false} FilterPositions<T>(s: seq<T>, keep: T -> bool) returns (idx: seq<nat>)
    ensures |idx| == |Filter(s, keep)| && Embeds(idx, |s|)
    ensures forall k :: 0 <= k < |idx| ==> Filter(s, keep)[k] == s[idx[k]]
    ensures forall i :: 0 <= i < |s| ==> (keep(s[i]) <==> i in idx)
  {
    if s == [] {
      idx := [];
    } else {
      var n := |s| - 1;
      var front := s[..n];
      idx := FilterPositions(front, keep);
      FilterAppend(front, s[n], keep);
      assert s == front + [s[n]];
      assert forall i :: 0 <= i < n ==> front[i] == s[i];
      if keep(s[n]) {
        idx := idx + [n];
      }
    }
  }

  lemma {:induction false} FiltersAgree<T>(s: seq<T>, p: T -> bool, q: T -> bool)
    requires forall x :: x in s ==> p(x) == q(x)
    ensures Filter(s, p) == Filter(s, q)
  {
    if s != [] {
      FiltersAgree(s[1..], p, q);
    }
  }

  lemma {:induction false} FilterShrinks<T>(s: seq<T>, keep: T -> bool, x: T)
    requires x in s && !keep(x)
    ensures |Filter(s, keep)| < |s|
  {
    if s[0] != x {
      FilterShrinks(s[1..], keep, x);
    } else {
      FilterNoLonger(s[1..], keep);
    }
  }

  lemma {:induction false} FilterNoLonger<T>(s: seq<T>, keep: T -> bool)
    ensures |Filter(s, keep)| <= |s|
  {
    if s != [] {
      FilterNoLonger(s[1..], keep);
    }
  }

  lemma {:induction false} FilterConcat<T>(a: seq<T>, b: seq<T>, keep: T -> bool)
    ensures Filter(a + b, keep) == Filter(a, keep) + Filter(b, keep)
  {
    if a == [] {
      assert a + b == b;
    } else {
      var head := if keep(a[0]) then [a[0]] else [];
      assert (a + b)[1..] == a[1..] + b;
      calc {
        Filter(a + b, keep);
        head + Filter(a[1..] + b, keep);
        { FilterConcat(a[1..], b, keep); }
        head + (Filter(a[1..], keep) + Filter(b, keep));
        (head + Filter(a[1..], keep)) + Filter(b, keep);
        Filter(a, keep) + Filter(b, keep);
      }
    }
  }

  lemma {:induction false} FilterAll<T>(s: seq<T>, keep: T -> bool)
    requires forall x :: x in s ==> keep(x)
    ensures Filter(s, keep) == s
  {
    if s != [] {
      FilterAll(s[1..], keep);
    }
  }

  lemma {:induction false} FiltersCommute<T>(s: seq<T>, p: T -> bool, q: T -> bool)
    ensures Filter(Filter(s, p), q) == Filter(Filter(s, q), p)
  {
    if s != [] {
      var x, rest := s[0], s[1..];
      FiltersCommute(rest, p, q);
      FilterCons(x, rest, p);
      FilterCons(x, rest, q);
      FilterCons(x, Filter(rest, p), q);
      FilterCons(x, Filter(rest, q), p);
      assert s == [x] + rest;
    }
  }

  lemma FilterCons<T>(x: T, s: seq<T>, keep: T -> bool)
    ensures Filter([x] + s, keep) == if keep(x) then [x] + Filter(s, keep) else Filter(s, keep)
  {
    assert ([x] + s)[1..] == s;
  }

  lemma FilterAppend<T>(s: seq<T>, x: T, keep: T -> bool)
    ensures Filter(s + [x], keep) == Filter(s, keep) + (if keep(x) then [x] else [])
  {
    FilterConcat(s, [x], keep);
    assert [x][1..] == [];
    assert Filter([x], keep) == (if keep(x) then [x] else []) + Filter<T>([], keep);
  }
}
