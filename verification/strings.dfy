/** Text primitives of the JavaScript string library that the plugin relies on:
    `split` on one character, `trim`, `includes`/`startsWith`, `indexOf`,
    `lastIndexOf` and the two forms of `replace` with a literal pattern. */
module Strings {

  /** The characters JavaScript's `trim` and the regular-expression class `\s` treat as white space. */
  predicate IsWs(c: char) {
    c == ' ' || c == '\t' || c == '\n' || c == '\r' || c == '\U{B}' || c == '\U{C}'
    || c == '\U{A0}' || c == '\U{1680}' || ('\U{2000}' <= c <= '\U{200A}')
    || c == '\U{2028}' || c == '\U{2029}' || c == '\U{202F}' || c == '\U{205F}'
    || c == '\U{3000}' || c == '\U{FEFF}'
  }

  /** The line terminators, the characters a regular-expression `.` does not match. */
  predicate IsLineTerminator(c: char) {
    c == '\n' || c == '\r' || c == '\U{2028}' || c == '\U{2029}'
  }

  /** The regular-expression class `\w`. */
  predicate IsWordChar(c: char) {
    ('a' <= c <= 'z') || ('A' <= c <= 'Z') || ('0' <= c <= '9') || c == '_'
  }

  predicate NoLineTerminator(s: string) {
    forall i :: 0 <= i < |s| ==> !IsLineTerminator(s[i])
  }

  /** `p` occurs in `s` at index `i`. */
  predicate StartsAt(s: string, i: nat, p: string) {
    i + |p| <= |s| && s[i..i + |p|] == p
  }

  predicate StartsWith(s: string, p: string) {
    StartsAt(s, 0, p)
  }

  /** `s.indexOf(p, i)`: the first index at or after `i` where `p` occurs, or -1. */
  function FindFrom(s: string, p: string, i: nat): (r: int)
    ensures r == -1 || (i <= r && StartsAt(s, r, p))
    ensures r != -1 ==> forall k :: i <= k < r ==> !StartsAt(s, k, p)
    ensures r == -1 ==> forall k :: i <= k ==> !StartsAt(s, k, p)
    decreases |s| - i
  {
    if i + |p| > |s| then -1
    else if s[i..i + |p|] == p then i
    else FindFrom(s, p, i + 1)
  }

  /** `s.includes(p)` (Obsidian's `contains`). */
  predicate Contains(s: string, p: string) {
    FindFrom(s, p, 0) != -1
  }

  lemma ContainsAt(s: string, p: string, i: nat)
    requires StartsAt(s, i, p)
    ensures Contains(s, p)
  {
  }

  lemma NotContains(s: string, p: string)
    requires !Contains(s, p)
    ensures forall k :: !StartsAt(s, k, p)
  {
  }

  /** `s.lastIndexOf(c)`. */
  function LastIndexOf(s: string, c: char): (r: int)
    ensures -1 <= r < |s|
    ensures r >= 0 ==> s[r] == c && forall k :: r < k < |s| ==> s[k] != c
    ensures r == -1 ==> c !in s
  {
    if |s| == 0 then -1
    else if s[|s| - 1] == c then |s| - 1
    else LastIndexOf(s[..|s| - 1], c)
  }

  /** `s.indexOf(c)` for one character. */
  function IndexOf(s: string, c: char): (r: int)
    ensures -1 <= r < |s|
    ensures r >= 0 ==> s[r] == c && c !in s[..r]
    ensures r == -1 ==> c !in s
  {
    if |s| == 0 then -1
    else if s[0] == c then 0
    else
      var r := IndexOf(s[1..], c);
      if r == -1 then -1
      else
        assert s[..r + 1] == [s[0]] + s[1..][..r];
        r + 1
  }

  /** Number of occurrences of `c` in `s`. */
  function Count(s: string, c: char): nat {
    if |s| == 0 then 0 else (if s[0] == c then 1 else 0) + Count(s[1..], c)
  }

  /** The inverse of `Split`: the pieces with `c` between consecutive ones. */
  function Join(parts: seq<string>, c: char): string
    requires |parts| > 0
  {
    if |parts| == 1 then parts[0] else parts[0] + [c] + Join(parts[1..], c)
  }

  /** `s.split(c)` for a one-character separator. */
  function Split(s: string, c: char): (r: seq<string>)
    ensures |r| == Count(s, c) + 1
    ensures forall i :: 0 <= i < |r| ==> c !in r[i]
    ensures Join(r, c) == s
  {
    if |s| == 0 then [""]
    else
      var rest := Split(s[1..], c);
      if s[0] == c then
        [""] + rest
      else
        assert s == [s[0]] + s[1..];
        [[s[0]] + rest[0]] + rest[1..]
  }

  /** Splitting text that holds no separator gives it back as the only piece. */
  lemma {:induction false} SplitWithoutSeparator(s: string, c: char)
    requires c !in s
    ensures Split(s, c) == [s]
  {
    if |s| > 0 {
      assert c !in s[1..] by {
        forall k | 0 <= k < |s[1..]| ensures s[1..][k] != c { assert s[1..][k] == s[k + 1]; }
      }
      SplitWithoutSeparator(s[1..], c);
      assert s == [s[0]] + s[1..];
    }
  }

  /** Splitting at one separator splits the two sides independently. */
  lemma {:induction false} SplitConcat(x: string, y: string, c: char)
    ensures Split(x + [c] + y, c) == Split(x, c) + Split(y, c)
  {
    if |x| == 0 {
      assert x + [c] + y == [c] + y;
      assert ([c] + y)[1..] == y;
    } else {
      assert (x + [c] + y)[1..] == x[1..] + [c] + y;
      SplitConcat(x[1..], y, c);
    }
  }

  /** Appending text without the separator only lengthens the last piece. */
  lemma {:induction false} SplitAppendTail(s: string, y: string, c: char)
    requires c !in y
    ensures var a := Split(s, c);
            Split(s + y, c) == a[..|a| - 1] + [a[|a| - 1] + y]
    decreases |s|
  {
    if |s| == 0 {
      SplitWithoutSeparator(y, c);
      assert s + y == y;
    } else {
      SplitAppendTail(s[1..], y, c);
      assert (s + y)[1..] == s[1..] + y;
      assert (s + y)[0] == s[0];
      var a, r := Split(s, c), Split(s[1..], c);
      if s[0] == c {
        assert a == [""] + r;
        assert a[..|a| - 1] == [""] + r[..|r| - 1];
      } else {
        assert a == [[s[0]] + r[0]] + r[1..];
        if |r| == 1 {
          assert [s[0]] + (r[0] + y) == [s[0]] + r[0] + y;
        } else {
          assert a[..|a| - 1] == [[s[0]] + r[0]] + r[1..|r| - 1];
        }
      }
    }
  }

  /** Text without the separator written before `s` joins the first piece. */
  lemma SplitPrepend(x: string, s: string, c: char)
    requires c !in x
    ensures var r := Split(s, c);
            Split(x + s, c) == [x + r[0]] + r[1..]
  {
    if c in s {
      var k := IndexOf(s, c);
      SplitAtFirst(s, c);
      SplitPrependAt(x, s[..k], s[k + 1..], c);
      assert s == s[..k] + [c] + s[k + 1..];
    } else {
      SplitWithoutSeparator(s, c);
      NoSeparatorJoined(x, s, c);
      SplitWithoutSeparator(x + s, c);
    }
  }

  /** The case where `s` is `y + [c] + z` and `y` holds no separator. */
  lemma SplitPrependAt(x: string, y: string, z: string, c: char)
    requires c !in x && c !in y
    ensures Split(x + (y + [c] + z), c) == [x + y] + Split(z, c)
  {
    NoSeparatorJoined(x, y, c);
    assert x + (y + [c] + z) == (x + y) + [c] + z;
    SplitConcat(x + y, z, c);
    SplitWithoutSeparator(x + y, c);
  }

  lemma NoSeparatorJoined(x: string, y: string, c: char)
    requires c !in x && c !in y
    ensures c !in x + y
  {
    forall i | 0 <= i < |x + y| ensures (x + y)[i] != c {
      if i >= |x| { assert (x + y)[i] == y[i - |x|]; }
    }
  }

  /** The first piece of a split ends at the first separator; the others are
      the split of what follows it. */
  lemma SplitAtFirst(s: string, c: char)
    requires c in s
    ensures var k := IndexOf(s, c);
            Split(s, c) == [s[..k]] + Split(s[k + 1..], c)
  {
    var k := IndexOf(s, c);
    assert s == s[..k] + [c] + s[k + 1..];
    SplitConcat(s[..k], s[k + 1..], c);
    SplitWithoutSeparator(s[..k], c);
  }

  /** The first piece of a split: the text before the first separator, or all of it. */
  lemma SplitHead(s: string, c: char)
    ensures var k := IndexOf(s, c);
            Split(s, c)[0] == if k == -1 then s else s[..k]
  {
    if c in s { SplitAtFirst(s, c); } else { SplitWithoutSeparator(s, c); }
  }

  /** Splitting a joined list gives the list back, when no piece holds the separator. */
  lemma {:induction false} SplitJoin(parts: seq<string>, c: char)
    requires |parts| > 0
    requires forall i :: 0 <= i < |parts| ==> c !in parts[i]
    ensures Split(Join(parts, c), c) == parts
  {
    SplitWithoutSeparator(parts[0], c);
    if |parts| > 1 {
      SplitJoin(parts[1..], c);
      SplitConcat(parts[0], Join(parts[1..], c), c);
    }
  }

  /** `s.trimStart()`. */
  function TrimStart(s: string): (r: string)
    ensures |r| <= |s| && r == s[|s| - |r|..]
    ensures forall i :: 0 <= i < |s| - |r| ==> IsWs(s[i])
    ensures r == [] || !IsWs(r[0])
  {
    if |s| > 0 && IsWs(s[0]) then TrimStart(s[1..]) else s
  }

  /** `s.trimEnd()`. */
  function TrimEnd(s: string): (r: string)
    ensures |r| <= |s| && r == s[..|r|]
    ensures forall i :: |r| <= i < |s| ==> IsWs(s[i])
    ensures r == [] || !IsWs(r[|r| - 1])
  {
    if |s| > 0 && IsWs(s[|s| - 1]) then TrimEnd(s[..|s| - 1]) else s
  }

  /** `s.trim()`: the longest slice of `s` without white space at either end. */
  function Trim(s: string): (r: string)
    ensures var i := |s| - |TrimStart(s)|;
              i + |r| <= |s| && r == s[i..i + |r|]
              && (forall k :: 0 <= k < i ==> IsWs(s[k]))
              && (forall k :: i + |r| <= k < |s| ==> IsWs(s[k]))
    ensures r == [] || (!IsWs(r[0]) && !IsWs(r[|r| - 1]))
  {
    var t := TrimStart(s);
    var r := TrimEnd(t);
    TrimEndOfSuffix(s, |s| - |t|, r);
    r
  }

  /** A prefix `r` of the suffix `s[i..]`, with only white space after it in
      that suffix, is the slice of `s` from `i` with only white space after it. */
  lemma TrimEndOfSuffix(s: string, i: nat, r: string)
    requires i <= |s| && |r| <= |s| - i && r == s[i..][..|r|]
    requires forall k :: |r| <= k < |s| - i ==> IsWs(s[i..][k])
    ensures i + |r| <= |s| && r == s[i..i + |r|]
    ensures forall k :: i + |r| <= k < |s| ==> IsWs(s[k])
  {
    forall k | i + |r| <= k < |s| ensures IsWs(s[k]) {
      assert s[k] == s[i..][k - i];
    }
  }

  /** `s.split(c).map(v => v.trim())`. */
  function SplitTrim(s: string, c: char): (r: seq<string>)
    ensures |r| == Count(s, c) + 1
    ensures forall i :: 0 <= i < |r| ==> r[i] == Trim(Split(s, c)[i])
  {
    var parts := Split(s, c);
    seq(|parts|, i requires 0 <= i < |parts| => Trim(parts[i]))
  }

  /** Text without the separator and without outer white space is its own
      only trimmed piece. */
  lemma SplitTrimWithoutSeparator(s: string, c: char)
    requires c !in s && Trim(s) == s
    ensures SplitTrim(s, c) == [s]
  {
    SplitWithoutSeparator(s, c);
  }

  /** `s.replace(p, rep)` with a string pattern: only the first occurrence is replaced. */
  function ReplaceFirst(s: string, p: string, rep: string): (r: string)
    ensures !Contains(s, p) ==> r == s
    ensures Contains(s, p) ==>
              var k := FindFrom(s, p, 0);
              |r| == |s| - |p| + |rep| && r[..k] == s[..k] && r[k..k + |rep|] == rep && r[k + |rep|..] == s[k + |p|..]
  {
    var k := FindFrom(s, p, 0);
    if k < 0 then s else s[..k] + rep + s[k + |p|..]
  }

  /** Replacing the first occurrence of a text by itself changes nothing. */
  lemma ReplaceFirstSelf(s: string, p: string)
    ensures ReplaceFirst(s, p, p) == s
  {
    var k := FindFrom(s, p, 0);
    if k >= 0 {
      assert s == s[..k] + s[k..k + |p|] + s[k + |p|..];
    }
  }

  /** A global replace of the literal, non-empty pattern `p`: occurrences are
      taken left to right without overlap, starting at `i`. */
  function ReplaceAllFrom(s: string, p: string, rep: string, i: nat): (r: string)
    requires |p| > 0 && i <= |s|
    decreases |s| - i
  {
    var k := FindFrom(s, p, i);
    if k < 0 then s[i..] else s[i..k] + rep + ReplaceAllFrom(s, p, rep, k + |p|)
  }

  function ReplaceAll(s: string, p: string, rep: string): (r: string)
    requires |p| > 0
    ensures !Contains(s, p) ==> r == s
  {
    ReplaceAllFrom(s, p, rep, 0)
  }

  /** Replacing every occurrence of a text by itself changes nothing. */
  lemma {:induction false} ReplaceAllFromSelf(s: string, p: string, i: nat)
    requires |p| > 0 && i <= |s|
    ensures ReplaceAllFrom(s, p, p, i) == s[i..]
    decreases |s| - i
  {
    var k := FindFrom(s, p, i);
    if k >= 0 {
      ReplaceAllFromSelf(s, p, k + |p|);
      assert s[i..] == s[i..k] + s[k..k + |p|] + s[k + |p|..];
    }
  }

  /** A global replace of the empty pattern: `rep` before every character and at the end. */
  function Interleave(s: string, rep: string): (r: string)
    ensures |r| == |s| + (|s| + 1) * |rep|
  {
    if |s| == 0 then rep else rep + [s[0]] + Interleave(s[1..], rep)
  }

  /** `s.replace(new RegExp(p, 'g'), rep)` with `p` read literally. */
  function ReplaceAllLiteral(s: string, p: string, rep: string): (r: string)
    ensures |p| > 0 && !Contains(s, p) ==> r == s
  {
    if |p| == 0 then Interleave(s, rep) else ReplaceAll(s, p, rep)
  }

  /** Text in which `p` occurs exactly once has just that occurrence replaced. */
  lemma ReplaceAllOnce(a: string, p: string, b: string, rep: string)
    requires |p| > 0
    requires forall k :: 0 <= k < |a| + |p| + |b| && k != |a| ==> !StartsAt(a + p + b, k, p)
    ensures ReplaceAllLiteral(a + p + b, p, rep) == a + rep + b
  {
    var s := a + p + b;
    var e := |a| + |p|;
    assert s[|a|..e] == p && s[..|a|] == a && s[e..] == b;
    assert StartsAt(s, |a|, p);
    assert FindFrom(s, p, 0) == |a|;
    assert FindFrom(s, p, e) == -1;
    assert ReplaceAllFrom(s, p, rep, e) == b;
    assert ReplaceAllFrom(s, p, rep, 0) == s[0..|a|] + rep + b;
    assert s[0..|a|] == a;
  }

  /** The decimal spelling of a natural number, as JavaScript spells array indices. */
  function NatToString(n: nat): (r: string)
    ensures |r| > 0
    ensures forall i :: 0 <= i < |r| ==> '0' <= r[i] <= '9'
    ensures n < 10 <==> |r| == 1
  {
    var d := [('0' as int + n % 10) as char];
    if n < 10 then d else NatToString(n / 10) + d
  }
}
