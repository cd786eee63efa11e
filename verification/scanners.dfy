/** The regular-expression building blocks the plugin's patterns are made of,
    written as explicit scanners with the JavaScript engine's backtracking
    order: the leftmost start wins, a greedy repetition takes the longest
    run that lets the rest match, a lazy one the shortest. */
module Scanners {
  import opened Wrappers
  import opened Strings

  /** The first index at or after `i` that does not hold white space (`\s*`, greedy). */
  function SkipWs(s: string, i: nat): (r: nat)
    requires i <= |s|
    ensures i <= r <= |s|
    ensures r == |s| || !IsWs(s[r])
    decreases |s| - i
  {
    if i < |s| && IsWs(s[i]) then SkipWs(s, i + 1) else i
  }

  /** Everything `SkipWs` skips is white space. */
  lemma {:induction false} SkipWsSkips(s: string, i: nat)
    requires i <= |s|
    ensures forall k :: i <= k < SkipWs(s, i) ==> IsWs(s[k])
    decreases |s| - i
  {
    if i < |s| && IsWs(s[i]) { SkipWsSkips(s, i + 1); }
  }

  /** The end of the line that index `i` is on: the first line terminator at or
      after `i`, or the end of the text (how far `.*` reaches). */
  function LineEnd(s: string, i: nat): (r: nat)
    requires i <= |s|
    ensures i <= r <= |s|
    ensures r == |s| || IsLineTerminator(s[r])
    decreases |s| - i
  {
    if i < |s| && !IsLineTerminator(s[i]) then LineEnd(s, i + 1) else i
  }

  /** The line up to `LineEnd` holds no line terminator. */
  lemma {:induction false} LineEndReaches(s: string, i: nat)
    requires i <= |s|
    ensures forall k :: i <= k < LineEnd(s, i) ==> !IsLineTerminator(s[k])
    decreases |s| - i
  {
    if i < |s| && !IsLineTerminator(s[i]) { LineEndReaches(s, i + 1); }
  }

  /** The line from `i` reaches at least to `j` when nothing before `j` ends it. */
  lemma {:induction false} LineEndAtLeast(s: string, i: nat, j: nat)
    requires i <= j <= |s|
    requires forall k :: i <= k < j ==> !IsLineTerminator(s[k])
    ensures j <= LineEnd(s, i)
    decreases j - i
  {
    if i < j { LineEndAtLeast(s, i + 1, j); }
  }

  /** The smallest index in `[lo, hi)` that `ok` accepts. */
  function Leftmost(lo: nat, hi: nat, ok: nat -> bool): (r: Option<nat>)
    ensures r.None? ==> forall k :: lo <= k < hi ==> !ok(k)
    ensures r.Some? ==> lo <= r.value < hi && ok(r.value) && forall k :: lo <= k < r.value ==> !ok(k)
    decreases hi - lo
  {
    if hi <= lo then None else if ok(lo) then Some(lo) else Leftmost(lo + 1, hi, ok)
  }

  /** The largest index in `[lo, hi)` that `ok` accepts. */
  function Rightmost(lo: nat, hi: nat, ok: nat -> bool): (r: Option<nat>)
    ensures r.None? ==> forall k :: lo <= k < hi ==> !ok(k)
    ensures r.Some? ==> lo <= r.value < hi && ok(r.value) && forall k :: r.value < k < hi ==> !ok(k)
    decreases hi - lo
  {
    if hi <= lo then None else if ok(hi - 1) then Some(hi - 1) else Rightmost(lo, hi - 1, ok)
  }

  /** The index `c` is the leftmost one accepted in `[lo, hi)`. */
  lemma LeftmostIs(lo: nat, hi: nat, ok: nat -> bool, c: nat)
    requires lo <= c < hi && ok(c)
    requires forall k :: lo <= k < c ==> !ok(k)
    ensures Leftmost(lo, hi, ok) == Some(c)
  {
  }

  /** The index `c` is the rightmost one accepted in `[lo, hi)`. */
  lemma RightmostIs(lo: nat, hi: nat, ok: nat -> bool, c: nat)
    requires lo <= c < hi && ok(c)
    requires forall k :: c < k < hi ==> !ok(k)
    ensures Rightmost(lo, hi, ok) == Some(c)
  {
  }

  /** `\s*kw\s*=` from index `i`: the index just past the '=', if it matches. */
  function KeywordEquals(s: string, i: nat, kw: string): (r: Option<nat>)
    requires i <= |s|
    ensures r.Some? ==> var a := SkipWs(s, i);
                        StartsAt(s, a, kw) && r.value == SkipWs(s, a + |kw|) + 1 <= |s|
                        && s[r.value - 1] == '='
    ensures r.None? ==> var a := SkipWs(s, i);
                        !StartsAt(s, a, kw) || SkipWs(s, a + |kw|) == |s| || s[SkipWs(s, a + |kw|)] != '='
  {
    var a := SkipWs(s, i);
    if !StartsAt(s, a, kw) then None
    else
      var b := SkipWs(s, a + |kw|);
      if b < |s| && s[b] == '=' then Some(b + 1) else None
  }

  /** `\s*(.+)\s*` from index `q`: the captured text. The greedy `\s*` first
      skips all white space and the group runs to the end of that line; when
      only white space is left, `\s*` gives back its last character that is
      not a line terminator, which becomes the whole group. */
  function RestOfLine(s: string, q: nat): (r: Option<string>)
    requires q <= |s|
    ensures r.Some? ==> |r.value| > 0 && NoLineTerminator(r.value)
    ensures SkipWs(s, q) < |s| ==> r == Some(s[SkipWs(s, q)..LineEnd(s, SkipWs(s, q))])
    ensures r.None? <==> forall k :: q <= k < |s| ==> IsLineTerminator(s[k])
  {
    var r := SkipWs(s, q);
    if r < |s| then
      assert !IsLineTerminator(s[r]);
      LineEndReaches(s, r);
      Some(s[r..LineEnd(s, r)])
    else
      match Rightmost(q, r, (t: nat) => t < |s| && !IsLineTerminator(s[t]))
      case None =>
        assert forall k :: q <= k < |s| ==> IsLineTerminator(s[k]) by {
          forall k | q <= k < |s| ensures IsLineTerminator(s[k]) {
            assert !((t: nat) => t < |s| && !IsLineTerminator(s[t]))(k);
          }
        }
        None
      case Some(t) => Some(s[t..t + 1])
  }

  /** `kw`, `=` and the captured rest of the line, from index `i` (the tail of
      `,\s*func\s*=\s*(.+)\s*` after its comma, for `kw` = "func"). */
  function KeywordValue(s: string, i: nat, kw: string): (r: Option<string>)
    requires i <= |s|
    ensures r.Some? ==> |r.value| > 0 && NoLineTerminator(r.value)
  {
    match KeywordEquals(s, i, kw)
    case None => None
    case Some(q) => RestOfLine(s, q)
  }

  /** Delimiter spans, the matches of `start(.*?)end`: at index `i` the start
      delimiter, then the nearest end delimiter with no line terminator in
      between; the index just past the match. */
  function SpanAt(s: string, i: nat, start: string, end: string): (r: Option<nat>)
    requires i <= |s|
    ensures r.Some? ==> i + |start| <= r.value - |end| && r.value <= |s| && StartsAt(s, i, start)
                        && StartsAt(s, r.value - |end|, end)
                        && NoLineTerminator(s[i + |start|..r.value - |end|])
  {
    if !StartsAt(s, i, start) then None
    else
      var j := FindFrom(s, end, i + |start|);
      if j >= 0 && NoLineTerminator(s[i + |start|..j]) then Some(j + |end|) else None
  }

  /** Text with no delimiter span anywhere. */
  predicate NoSpans(s: string, start: string, end: string) {
    forall i :: 0 <= i <= |s| ==> SpanAt(s, i, start, end).None?
  }

  /** `s.replace(/start(.*?)end/g, rep)` from index `i`: every span, left to
      right, becomes `rep`; after an empty match one character is copied. */
  function ReplaceSpansFrom(s: string, i: nat, start: string, end: string, rep: string): string
    requires i <= |s|
    decreases |s| - i
  {
    match SpanAt(s, i, start, end)
    case Some(k) =>
      if k > i then rep + ReplaceSpansFrom(s, k, start, end, rep)
      else if i == |s| then rep
      else rep + [s[i]] + ReplaceSpansFrom(s, i + 1, start, end, rep)
    case None =>
      if i == |s| then "" else [s[i]] + ReplaceSpansFrom(s, i + 1, start, end, rep)
  }

  function ReplaceSpans(s: string, start: string, end: string, rep: string): string {
    ReplaceSpansFrom(s, 0, start, end, rep)
  }

  /** `[...s.matchAll(/start(.*?)end/g)].map(m => m[1])` from index `i`: the
      inside of each span, left to right, in the order `ReplaceSpansFrom`
      visits them. */
  function SpanGroupsFrom(s: string, i: nat, start: string, end: string): (r: seq<string>)
    requires i <= |s|
    ensures forall g :: g in r ==> NoLineTerminator(g)
    decreases |s| - i
  {
    match SpanAt(s, i, start, end)
    case Some(k) =>
      var g := s[i + |start|..k - |end|];
      if k > i then [g] + SpanGroupsFrom(s, k, start, end)
      else if i == |s| then [g]
      else [g] + SpanGroupsFrom(s, i + 1, start, end)
    case None =>
      if i == |s| then [] else SpanGroupsFrom(s, i + 1, start, end)
  }

  function SpanGroups(s: string, start: string, end: string): seq<string> {
    SpanGroupsFrom(s, 0, start, end)
  }

  /** The scan finds no span exactly when no span starts anywhere from `i` on. */
  lemma {:induction false} SpanGroupsFromEmpty(s: string, i: nat, start: string, end: string)
    requires i <= |s|
    ensures SpanGroupsFrom(s, i, start, end) == [] <==> forall k :: i <= k <= |s| ==> SpanAt(s, k, start, end).None?
    decreases |s| - i
  {
    if i < |s| && SpanAt(s, i, start, end).None? {
      SpanGroupsFromEmpty(s, i + 1, start, end);
    }
  }

  lemma SpanGroupsEmpty(s: string, start: string, end: string)
    ensures SpanGroups(s, start, end) == [] <==> NoSpans(s, start, end)
  {
    SpanGroupsFromEmpty(s, 0, start, end);
  }

  /** Text without spans is left as it is. */
  lemma {:induction false} ReplaceSpansFromNone(s: string, i: nat, start: string, end: string, rep: string)
    requires i <= |s|
    requires forall k :: i <= k <= |s| ==> SpanAt(s, k, start, end).None?
    ensures ReplaceSpansFrom(s, i, start, end, rep) == s[i..]
    decreases |s| - i
  {
    if i < |s| {
      ReplaceSpansFromNone(s, i + 1, start, end, rep);
      assert s[i..] == [s[i]] + s[i + 1..];
    }
  }

  lemma NoSpansUnchanged(s: string, start: string, end: string, rep: string)
    requires NoSpans(s, start, end)
    ensures ReplaceSpans(s, start, end, rep) == s
  {
    ReplaceSpansFromNone(s, 0, start, end, rep);
  }

  /** Text that never holds the start delimiter has no spans. */
  lemma NoStartNoSpans(s: string, start: string, end: string)
    requires !Contains(s, start)
    ensures NoSpans(s, start, end)
  {
    NotContains(s, start);
  }

  /** One span between two span-free stretches: just that span is replaced.
      Here the start delimiter occurs nowhere outside the span, and the span's
      inside holds neither a line terminator nor the end delimiter. */
  lemma {:induction false} ReplaceOneSpan(a: string, x: string, b: string, start: string, end: string, rep: string)
    requires |start| > 0
    requires forall k :: 0 <= k < |a| ==> !StartsAt(a + start + x + end + b, k, start)
    requires NoLineTerminator(x)
    requires forall k :: |a| + |start| <= k < |a| + |start| + |x| ==> !StartsAt(a + start + x + end + b, k, end)
    requires !Contains(b, start)
    ensures ReplaceSpans(a + start + x + end + b, start, end, rep) == a + rep + b
  {
    var s := a + start + x + end + b;
    var k := |a| + |start| + |x| + |end|;
    OneSpanAt(s, a, x, b, start, end);
    NoSpanAfter(s, k, b, start, end);
    ReplaceSpansFromNone(s, k, start, end, rep);
    ReplaceSpansPrefix(s, 0, |a|, start, end, rep);
    assert s[..|a|] == a;
  }

  /** Two spans, each between span-free stretches: each is replaced by the
      same `rep`, as the global replace does. */
  lemma ReplaceTwoSpans(s: string, a: string, x: string, b: string, y: string, c: string, start: string, end: string, rep: string)
    requires s == a + start + x + end + b + start + y + end + c
    requires |start| > 0 && NoLineTerminator(x) && NoLineTerminator(y) && !Contains(c, start)
    requires forall k :: 0 <= k < |a| ==> !StartsAt(s, k, start)
    requires forall k :: |a| + |start| <= k < |a| + |start| + |x| ==> !StartsAt(s, k, end)
    requires var k1 := |a| + |start| + |x| + |end|;
             forall k :: k1 <= k < k1 + |b| ==> !StartsAt(s, k, start)
    requires var m2 := |a| + |start| + |x| + |end| + |b|;
             forall k :: m2 + |start| <= k < m2 + |start| + |y| ==> !StartsAt(s, k, end)
    ensures ReplaceSpans(s, start, end, rep) == a + rep + (b + rep + c)
  {
    var k1 := |a| + |start| + |x| + |end|;
    var m2 := k1 + |b|;
    var k2 := m2 + |start| + |y| + |end|;
    TwoSpansShape(s, a, x, b, y, c, start, end);
    TwoSpansLaidOut(s, a, x, b, y, c, start, end, rep);
  }

  /** `ReplaceTwoSpans` for a text known only through where its pieces lie. */
  lemma TwoSpansLaidOut(s: string, a: string, x: string, b: string, y: string, c: string, start: string, end: string, rep: string)
    requires |start| > 0 && NoLineTerminator(x) && NoLineTerminator(y) && !Contains(c, start)
    requires var k1 := |a| + |start| + |x| + |end|;
             var m2 := k1 + |b|;
             var k2 := m2 + |start| + |y| + |end|;
             k2 + |c| == |s|
             && s[..|a|] == a && s[|a|..k1] == start + x + end
             && s[k1..m2] == b && s[m2..k2] == start + y + end && s[k2..] == c
    requires forall k :: 0 <= k < |a| ==> !StartsAt(s, k, start)
    requires forall k :: |a| + |start| <= k < |a| + |start| + |x| ==> !StartsAt(s, k, end)
    requires var k1 := |a| + |start| + |x| + |end|;
             forall k :: k1 <= k < k1 + |b| ==> !StartsAt(s, k, start)
    requires var m2 := |a| + |start| + |x| + |end| + |b|;
             forall k :: m2 + |start| <= k < m2 + |start| + |y| ==> !StartsAt(s, k, end)
    ensures ReplaceSpans(s, start, end, rep) == a + rep + (b + rep + c)
  {
    var k1 := |a| + |start| + |x| + |end|;
    var m2 := k1 + |b|;
    var k2 := m2 + |start| + |y| + |end|;
    SpanFrom(s, |a|, x, start, end);
    SpanFrom(s, m2, y, start, end);
    NoSpanAfter(s, k2, c, start, end);
    TwoSpansAt(s, a, b, c, |a|, k1, m2, k2, start, end, rep);
  }

  /** Two spans at `m1` and `m2`, span-free text `a` before, `b` between and
      `c` after them: the replace copies the text and puts `rep` for each span. */
  lemma TwoSpansAt(s: string, a: string, b: string, c: string, m1: nat, k1: nat, m2: nat, k2: nat, start: string, end: string, rep: string)
    requires m1 < k1 <= m2 < k2 <= |s|
    requires s[..m1] == a && s[k1..m2] == b && s[k2..] == c
    requires forall j :: 0 <= j < m1 ==> !StartsAt(s, j, start)
    requires forall j :: k1 <= j < m2 ==> !StartsAt(s, j, start)
    requires SpanAt(s, m1, start, end) == Some(k1) && SpanAt(s, m2, start, end) == Some(k2)
    requires forall j :: k2 <= j <= |s| ==> SpanAt(s, j, start, end).None?
    ensures ReplaceSpans(s, start, end, rep) == a + rep + (b + rep + c)
  {
    ReplaceSpansFromNone(s, k2, start, end, rep);
    SpanStep(s, k1, m2, k2, start, end, rep);
    SpanStep(s, 0, m1, k1, start, end, rep);
    assert s[0..m1] == s[..m1];
  }

  /** Where each piece of a text with two spans lies. */
  lemma TwoSpansShape(s: string, a: string, x: string, b: string, y: string, c: string, start: string, end: string)
    requires s == a + start + x + end + b + start + y + end + c
    ensures var k1 := |a| + |start| + |x| + |end|;
            var m2 := k1 + |b|;
            var k2 := m2 + |start| + |y| + |end|;
            k2 + |c| == |s|
            && s[..|a|] == a && s[|a|..k1] == start + x + end
            && s[k1..m2] == b && s[m2..k2] == start + y + end && s[k2..] == c
  {
  }

  /** The span that starts at `m` with `start`, the inside `x` and `end`. */
  lemma SpanFrom(s: string, m: nat, x: string, start: string, end: string)
    requires m + |start| + |x| + |end| <= |s|
    requires s[m..m + |start| + |x| + |end|] == start + x + end
    requires NoLineTerminator(x)
    requires forall k :: m + |start| <= k < m + |start| + |x| ==> !StartsAt(s, k, end)
    ensures SpanAt(s, m, start, end) == Some(m + |start| + |x| + |end|)
  {
    var i := m + |start|;
    SliceSplit(s, m, start + x, end);
    SliceSplit(s, m, start, x);
    assert StartsAt(s, i + |x|, end);
    assert FindFrom(s, end, i) == i + |x|;
  }

  /** A slice that reads `p + q` reads `p`, then `q`. */
  lemma SliceSplit(s: string, i: nat, p: string, q: string)
    requires i + |p| + |q| <= |s| && s[i..i + |p| + |q|] == p + q
    ensures s[i..i + |p|] == p && s[i + |p|..i + |p| + |q|] == q
  {
    var w := s[i..i + |p| + |q|];
    assert s[i..i + |p|] == w[..|p|];
    assert s[i + |p|..i + |p| + |q|] == w[|p|..];
  }

  /** A span at `m` after a span-free stretch from `i`: the stretch is copied,
      the span becomes `rep`, and the replace goes on after it. */
  lemma SpanStep(s: string, i: nat, m: nat, k: nat, start: string, end: string, rep: string)
    requires i <= m < k <= |s|
    requires forall j :: i <= j < m ==> !StartsAt(s, j, start)
    requires SpanAt(s, m, start, end) == Some(k)
    ensures ReplaceSpansFrom(s, i, start, end, rep) == s[i..m] + rep + ReplaceSpansFrom(s, k, start, end, rep)
  {
    ReplaceSpansPrefix(s, i, m, start, end, rep);
  }

  /** The span that starts right after `a` in `a + start + x + end + b`. */
  lemma OneSpanAt(s: string, a: string, x: string, b: string, start: string, end: string)
    requires s == a + start + x + end + b
    requires NoLineTerminator(x)
    requires forall k :: |a| + |start| <= k < |a| + |start| + |x| ==> !StartsAt(s, k, end)
    ensures SpanAt(s, |a|, start, end) == Some(|a| + |start| + |x| + |end|)
    ensures s[|a| + |start| + |x| + |end|..] == b
  {
    var i := |a| + |start|;
    assert s[|a|..i] == start;
    assert s[i..i + |x|] == x;
    assert s[i + |x|..i + |x| + |end|] == end;
    assert StartsAt(s, i + |x|, end);
    assert FindFrom(s, end, i) == i + |x|;
  }

  /** No span starts in a tail `b` of the text that never holds the start delimiter. */
  lemma NoSpanAfter(s: string, k: nat, b: string, start: string, end: string)
    requires k <= |s| && s[k..] == b && !Contains(b, start)
    ensures forall j :: k <= j <= |s| ==> SpanAt(s, j, start, end).None?
  {
    forall j | k <= j <= |s| ensures SpanAt(s, j, start, end).None? {
      if StartsAt(s, j, start) {
        var u, w := b[j - k..j - k + |start|], s[j..j + |start|];
        forall t | 0 <= t < |u| ensures u[t] == w[t] { assert u[t] == s[k..][j - k + t]; }
        assert u == w;
        ContainsAt(b, start, j - k);
      }
    }
  }

  /** Before the first span the text is copied as it is. */
  lemma {:induction false} ReplaceSpansPrefix(s: string, i: nat, m: nat, start: string, end: string, rep: string)
    requires i <= m <= |s|
    requires forall k :: i <= k < m ==> !StartsAt(s, k, start)
    ensures ReplaceSpansFrom(s, i, start, end, rep) == s[i..m] + ReplaceSpansFrom(s, m, start, end, rep)
    decreases m - i
  {
    if i < m {
      ReplaceSpansPrefix(s, i + 1, m, start, end, rep);
      assert s[i..m] == [s[i]] + s[i + 1..m];
    }
  }
}
