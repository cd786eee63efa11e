/** The "Query variables" editor command (src/commands/query-variables.ts):
    locating the placeholder around the cursor, line by line, and writing
    the placeholder the query dialog hands back. */
module QueryCommand {
  import opened Wrappers
  import opened Strings
  import opened Values
  import opened Render

  /** The opening tag the command looks for, and what closes its query. */
  const QueryOpen := "<span query=\""
  const TagClose := "\"></span>"

  // ---------------------------------------------------------------------------
  // One line

  /** What `re.exec(line)` reports for `<span query="([\s\S]+?)"><\/span>`:
      where the match starts and the captured query. */
  datatype TagHit = TagHit(index: nat, capture: string)

  /** The leftmost match at or after `k`: an opening tag, then the shortest
      non-empty run up to `"></span>`. */
  function OpenTagFrom(line: string, k: nat): Option<TagHit>
    requires k <= |line|
    decreases |line| - k
  {
    if k == |line| then None
    else if StartsAt(line, k, QueryOpen) && k + |QueryOpen| < |line|
            && FindFrom(line, TagClose, k + |QueryOpen| + 1) != -1 then
      var j := FindFrom(line, TagClose, k + |QueryOpen| + 1);
      Some(TagHit(k, line[k + |QueryOpen|..j]))
    else OpenTagFrom(line, k + 1)
  }

  function OpenTagIn(line: string): Option<TagHit> {
    OpenTagFrom(line, 0)
  }

  /** A hit is an opening tag, a non-empty query and `"></span>`, and the
      query holds no earlier `"></span>` (the capture is lazy). */
  lemma {:induction false} OpenTagFromFound(line: string, k: nat)
    requires k <= |line| && OpenTagFrom(line, k).Some?
    ensures var t := OpenTagFrom(line, k).value;
            var a := t.index + |QueryOpen|;
            var j := a + |t.capture|;
            k <= t.index && |t.capture| > 0 && j + |TagClose| <= |line|
            && StartsAt(line, t.index, QueryOpen) && line[a..j] == t.capture && StartsAt(line, j, TagClose)
            && (forall p :: a + 1 <= p < j ==> !StartsAt(line, p, TagClose))
    decreases |line| - k
  {
    if !(StartsAt(line, k, QueryOpen) && k + |QueryOpen| < |line|
         && FindFrom(line, TagClose, k + |QueryOpen| + 1) != -1) {
      OpenTagFromFound(line, k + 1);
    } else {
      var a := k + |QueryOpen|;
      var j := FindFrom(line, TagClose, a + 1);
      assert OpenTagFrom(line, k).value == TagHit(k, line[a..j]);
      TagHitParts(line, k, j);
    }
  }

  /** The parts of a hit at `k` whose first `"></span>` is at `j`. */
  lemma TagHitParts(line: string, k: nat, j: int)
    requires StartsAt(line, k, QueryOpen) && k + |QueryOpen| < |line|
    requires j == FindFrom(line, TagClose, k + |QueryOpen| + 1) && j != -1
    ensures var a := k + |QueryOpen|;
            var t := TagHit(k, line[a..j]);
            |t.capture| > 0 && a + |t.capture| == j && j + |TagClose| <= |line|
            && line[a..j] == t.capture && StartsAt(line, j, TagClose)
            && (forall p :: a + 1 <= p < j ==> !StartsAt(line, p, TagClose))
  {
  }

  /** No match is reported before the leftmost opening tag that is followed,
      later on, by `"></span>`. */
  lemma {:induction false} OpenTagFromLeftmost(line: string, k: nat, i: nat, j: nat)
    requires k <= i && StartsAt(line, i, QueryOpen) && i + |QueryOpen| < j && StartsAt(line, j, TagClose)
    ensures OpenTagFrom(line, k).Some? && OpenTagFrom(line, k).value.index <= i
    decreases |line| - k
  {
    if k < i {
      if !(StartsAt(line, k, QueryOpen) && k + |QueryOpen| < |line|
           && FindFrom(line, TagClose, k + |QueryOpen| + 1) != -1) {
        OpenTagFromLeftmost(line, k + 1, i, j);
      }
    } else {
      assert FindFrom(line, TagClose, k + |QueryOpen| + 1) != -1;
    }
  }

  /** `line.contains('<span type="end"></span>')`, and `refEndRE.exec(line)`
      succeeding. */
  predicate HasEndTag(line: string) {
    Contains(line, EndTag)
  }

  // ---------------------------------------------------------------------------
  // The two scans, as the loops compute them

  /** The backward scan from line `i` toward line 0: the first line that
      holds an opening tag, unless a line other than the cursor line holding
      an end tag comes first. */
  function ScanUp(lines: seq<string>, cursor: nat, i: int): (r: Option<nat>)
    requires -1 <= i <= cursor < |lines|
    ensures r.Some? ==> r.value <= i && OpenTagIn(lines[r.value]).Some?
    decreases i + 1
  {
    if i < 0 then None
    else if i != cursor && HasEndTag(lines[i]) then None
    else if OpenTagIn(lines[i]).Some? then Some(i)
    else ScanUp(lines, cursor, i - 1)
  }

  /** The forward scan from line `i`: the first line holding an end tag. */
  function ScanDown(lines: seq<string>, i: nat): (r: Option<nat>)
    requires i <= |lines|
    ensures r.Some? ==> i <= r.value < |lines| && HasEndTag(lines[r.value])
    decreases |lines| - i
  {
    if i == |lines| then None
    else if HasEndTag(lines[i]) then Some(i)
    else ScanDown(lines, i + 1)
  }

  /** The command's `query`, `refStartLine`, `refStartCh`, `refEndLine` and
      `refEndCh`. */
  datatype Refs = Refs(query: string, startLine: nat, startCh: nat, endLine: nat, endCh: nat)

  /** What the two scans leave in the five variables; 0 and '' where a scan
      finds nothing. */
  function SpanRefs(lines: seq<string>, cursor: nat, h: Host): Refs
    requires cursor < |lines|
  {
    var up := ScanUp(lines, cursor, cursor);
    var down := ScanDown(lines, cursor);
    var (query, startLine, startCh) :=
      if up.Some?
      then (h.restoreNewLines(OpenTagIn(lines[up.value]).value.capture), up.value, OpenTagIn(lines[up.value]).value.index)
      else ("", 0, 0);
    var (endLine, endCh) :=
      if down.Some? then (down.value, FindFrom(lines[down.value], EndTag, 0) + |EndTag|) else (0, 0);
    Refs(query, startLine, startCh, endLine, endCh)
  }

  /** `editorCallback`'s two loops over `editor.getValue().split('\n')`. */
  method LocateSpan(doc: string, cursor: nat, h: Host) returns (refs: Refs)
    requires cursor < |Split(doc, '\n')|
    ensures refs == SpanRefs(Split(doc, '\n'), cursor, h)
  {
    var lines := Split(doc, '\n');
    var query, startLine, startCh := FindStart(lines, cursor, h);
    var endLine, endCh := FindEnd(lines, cursor);
    refs := Refs(query, startLine, startCh, endLine, endCh);
  }

  /** The backward loop: from the cursor line up, stopping at an end tag on
      a line other than the cursor's, or at the first opening tag. */
  method FindStart(lines: seq<string>, cursor: nat, h: Host) returns (query: string, startLine: nat, startCh: nat)
    requires cursor < |lines|
    ensures var r := SpanRefs(lines, cursor, h);
            query == r.query && startLine == r.startLine && startCh == r.startCh
  {
    query, startLine, startCh := "", 0, 0;
    var i: int := cursor;
    while i >= 0
      invariant -1 <= i <= cursor
      invariant ScanUp(lines, cursor, i) == ScanUp(lines, cursor, cursor)
      decreases i + 1
    {
      if i != cursor && HasEndTag(lines[i]) {
        break;
      }
      var hit := OpenTagIn(lines[i]);
      if hit.Some? {
        query, startLine, startCh := h.restoreNewLines(hit.value.capture), i, hit.value.index;
        break;
      }
      i := i - 1;
    }
  }

  /** The forward loop: from the cursor line down to the first end tag. */
  method FindEnd(lines: seq<string>, cursor: nat) returns (endLine: nat, endCh: nat)
    requires cursor < |lines|
    ensures match ScanDown(lines, cursor)
            case None => endLine == 0 && endCh == 0
            case Some(j) => endLine == j && endCh == FindFrom(lines[j], EndTag, 0) + |EndTag|
  {
    endLine, endCh := 0, 0;
    var k := cursor;
    while k < |lines|
      invariant cursor <= k <= |lines|
      invariant ScanDown(lines, k) == ScanDown(lines, cursor)
      decreases |lines| - k
    {
      var e := FindFrom(lines[k], EndTag, 0);
      if e != -1 {
        endLine, endCh := k, e + |EndTag|;
        break;
      }
      k := k + 1;
    }
  }

  // ---------------------------------------------------------------------------
  // What the scans find

  /** A line found by the backward scan lies at or above the cursor, holds
      an opening tag, and no line below it up to the cursor holds one or
      stops the scan. */
  lemma {:induction false} ScanUpFound(lines: seq<string>, cursor: nat, i: int)
    requires -1 <= i <= cursor < |lines| && ScanUp(lines, cursor, i).Some?
    ensures var j := ScanUp(lines, cursor, i).value;
            0 <= j <= i && OpenTagIn(lines[j]).Some? && (j != cursor ==> !HasEndTag(lines[j]))
            && forall k :: j < k <= i ==> OpenTagIn(lines[k]).None? && (k != cursor ==> !HasEndTag(lines[k]))
    decreases i + 1
  {
    if !(i != cursor && HasEndTag(lines[i])) && OpenTagIn(lines[i]).None? {
      ScanUpFound(lines, cursor, i - 1);
    }
  }

  /** Conversely, an opening tag at line `j` with no stopping line between
      it and `i` is found, or one nearer to `i` is. */
  lemma {:induction false} ScanUpReaches(lines: seq<string>, cursor: nat, i: int, j: nat)
    requires j <= i <= cursor < |lines| && OpenTagIn(lines[j]).Some?
    requires forall k :: j <= k <= i && k != cursor ==> !HasEndTag(lines[k])
    ensures ScanUp(lines, cursor, i).Some? && j <= ScanUp(lines, cursor, i).value
    decreases i + 1
  {
    if i > j && OpenTagIn(lines[i]).None? {
      ScanUpReaches(lines, cursor, i - 1, j);
    }
  }

  /** A line found by the forward scan lies at or below `i`, holds an end
      tag, and no line between holds one. */
  lemma {:induction false} ScanDownFound(lines: seq<string>, i: nat)
    requires i <= |lines| && ScanDown(lines, i).Some?
    ensures var j := ScanDown(lines, i).value;
            i <= j < |lines| && HasEndTag(lines[j]) && forall k :: i <= k < j ==> !HasEndTag(lines[k])
    decreases |lines| - i
  {
    if !HasEndTag(lines[i]) {
      ScanDownFound(lines, i + 1);
    }
  }

  /** The forward scan finds nothing exactly when no line from `i` on holds
      an end tag. */
  lemma {:induction false} ScanDownNone(lines: seq<string>, i: nat)
    requires i <= |lines|
    ensures ScanDown(lines, i).None? <==> forall k :: i <= k < |lines| ==> !HasEndTag(lines[k])
    decreases |lines| - i
  {
    if i < |lines| {
      ScanDownNone(lines, i + 1);
    }
  }

  /** When both tags are found the span runs from a line at or above the
      cursor to a line at or below it; the end position is just past the
      first end tag on its line, and the start position is an opening tag. */
  lemma SpanAroundCursor(lines: seq<string>, cursor: nat, h: Host)
    requires cursor < |lines|
    requires ScanUp(lines, cursor, cursor).Some? && ScanDown(lines, cursor).Some?
    ensures var r := SpanRefs(lines, cursor, h);
            r.startLine <= cursor <= r.endLine < |lines|
            && StartsAt(lines[r.startLine], r.startCh, QueryOpen)
            && r.endCh <= |lines[r.endLine]|
            && r.endCh >= |EndTag| && StartsAt(lines[r.endLine], r.endCh - |EndTag|, EndTag)
  {
    ScanUpFound(lines, cursor, cursor);
    ScanDownFound(lines, cursor);
    var j := ScanUp(lines, cursor, cursor).value;
    OpenTagFromFound(lines[j], 0);
  }

  /** With nothing to find, every position is 0 and the query is empty. */
  lemma NothingFound(lines: seq<string>, cursor: nat, h: Host)
    requires cursor < |lines|
    requires forall k :: 0 <= k <= cursor ==> OpenTagIn(lines[k]).None?
    requires forall k :: cursor <= k < |lines| ==> !HasEndTag(lines[k])
    ensures SpanRefs(lines, cursor, h) == Refs("", 0, 0, 0, 0)
  {
    if ScanUp(lines, cursor, cursor).Some? {
      ScanUpFound(lines, cursor, cursor);
    }
    ScanDownNone(lines, cursor);
  }

  /** An end tag on the cursor line does not stop the backward scan: the
      opening tag on the line above is still found. */
  lemma EndTagOnCursorLine(lines: seq<string>, cursor: nat, h: Host)
    requires 0 < cursor < |lines|
    requires HasEndTag(lines[cursor]) && OpenTagIn(lines[cursor]).None?
    requires OpenTagIn(lines[cursor - 1]).Some? && !HasEndTag(lines[cursor - 1])
    ensures SpanRefs(lines, cursor, h).startLine == cursor - 1
    ensures SpanRefs(lines, cursor, h).endLine == cursor
  {
    ScanUpReaches(lines, cursor, cursor, cursor - 1);
    ScanUpFound(lines, cursor, cursor);
  }

  // ---------------------------------------------------------------------------
  // What the dialog's callback writes

  /** The text the callback inserts: the placeholder in its current form,
      with the query's new lines escaped and the value unescaped, then a
      new line. */
  function Emitted(query: string, value: string, h: Host): string {
    Canonical(h.escapeNewLines(query), h.unescape(value)) + "\n"
  }

  /** The command's lazy capture of a query ends at the query's own
      `"></span>`: none starts inside the query after its first character. */
  predicate ClosesOnce(q: string) {
    forall p :: 1 <= p < |q| ==> !StartsAt(q + TagClose, p, TagClose)
  }

  /** The opening tag of a placeholder, with the query, holds no end tag. */
  predicate NoEndTagInOpening(q: string) {
    !HasEndTag(QueryOpen + q + TagClose)
  }

  /** A query without `"` meets both conditions. */
  lemma QuoteFreeQuery(q: string)
    requires '"' !in q
    ensures ClosesOnce(q) && NoEndTagInOpening(q)
  {
    forall p | 1 <= p < |q| ensures !StartsAt(q + TagClose, p, TagClose) {
      assert (q + TagClose)[p..p + |TagClose|][0] == q[p];
    }
    var pre := QueryOpen + q + TagClose;
    var a := |QueryOpen|;
    forall k | 0 <= k < |pre| ensures !StartsAt(pre, k, EndTag) {
      if k + |EndTag| <= |pre| {
        var w := pre[k..k + |EndTag|];
        if k == 0 {
          assert w[6] == QueryOpen[6] == 'q';
        } else if k < a {
          assert w[0] == QueryOpen[k] != '<';
        } else {
          assert w[11] == q[k + 11 - a] != '"';
        }
      }
    }
  }

  /** In a placeholder line no end tag starts before the value: one that
      started in the opening tag and ran into the value would have to match
      the tag's closing `"></span>` somewhere it cannot. */
  lemma NoEndTagBeforeBody(q: string, body: string)
    requires NoEndTagInOpening(q)
    ensures var s := Canonical(q, body);
            forall k :: 0 <= k < |QueryOpen| + |q| + |TagClose| ==> !StartsAt(s, k, EndTag)
  {
    var s := Canonical(q, body);
    var a := |QueryOpen|;
    var c := a + |q| + |TagClose|;
    var pre := QueryOpen + q + TagClose;
    assert s == pre + (body + EndTag);
    assert s[a + |q|..c] == pre[a + |q|..] == TagClose;
    forall k | 0 <= k < c ensures !StartsAt(s, k, EndTag) {
      if k + |EndTag| <= |s| {
        var w := s[k..k + |EndTag|];
        if k + |EndTag| <= c {
          if w == EndTag {
            assert pre[k..k + |EndTag|] == w;
            ContainsAt(pre, EndTag, k);
          }
        } else {
          EndTagNotAcrossClose(s, a + |q|, k);
        }
      }
    }
  }

  /** An end tag cannot start less than its length before the end of a
      `"></span>` and run past it. */
  lemma EndTagNotAcrossClose(s: string, e: nat, k: nat)
    requires e + |TagClose| <= |s| && s[e..e + |TagClose|] == TagClose
    requires k < e + |TagClose| < k + |EndTag|
    ensures !StartsAt(s, k, EndTag)
  {
    if k + |EndTag| <= |s| {
      var w := s[k..k + |EndTag|];
      if k >= e {
        var i := k - e;
        if i == 2 {
          assert w[1] == s[k + 1] == TagClose[3] == '/';
        } else {
          assert w[0] == s[k] == TagClose[i] != '<';
        }
      } else {
        var o := e - k;
        if o == 11 {
          assert w[12] == s[e + 1] == TagClose[1] == '>';
        } else {
          assert w[o] == s[e] == TagClose[0] == '"';
          assert EndTag[o] != '"';
        }
      }
    }
  }

  /** The placeholder line, as its three pieces before the value. */
  lemma CanonicalPieces(q: string, body: string)
    ensures Canonical(q, body) == QueryOpen + q + TagClose + body + EndTag
  {
  }

  /** What the callback writes is one line, then an empty one. */
  lemma EmittedLines(q: string, body: string)
    requires '\n' !in q && '\n' !in body
    ensures Split(Canonical(q, body) + "\n", '\n') == [Canonical(q, body), ""]
  {
    var line := Canonical(q, body);
    var a := |QueryOpen|;
    var c := a + |q| + |TagClose|;
    CanonicalPieces(q, body);
    assert '\n' !in line by {
      forall k | 0 <= k < |line| ensures line[k] != '\n' {
        if a <= k < a + |q| { assert line[k] == q[k - a]; }
        else if c <= k < c + |body| { assert line[k] == body[k - c]; }
      }
    }
    SplitConcat(line, "", '\n');
    SplitWithoutSeparator(line, '\n');
    assert line + ['\n'] + "" == line + "\n";
  }

  /** The command's scanner finds the opening tag at 0 with the query. */
  lemma CanonicalOpenTag(q: string, body: string)
    requires |q| > 0 && ClosesOnce(q)
    ensures OpenTagIn(Canonical(q, body)) == Some(TagHit(0, q))
  {
    CanonicalPieces(q, body);
    assert Canonical(q, body) == QueryOpen + q + TagClose + (body + EndTag);
    OpenTagLeads(q, body + EndTag);
  }

  /** The same for any line that starts with the opening tag, a query and
      the tag's closing, whatever follows. */
  lemma OpenTagLeads(q: string, rest: string)
    requires |q| > 0 && ClosesOnce(q)
    ensures OpenTagIn(QueryOpen + q + TagClose + rest) == Some(TagHit(0, q))
  {
    var pre := QueryOpen + q + TagClose;
    var line := pre + rest;
    var a := |QueryOpen|;
    var j := a + |q|;
    assert StartsAt(line, 0, QueryOpen) by { assert line[..a] == pre[..a]; }
    assert StartsAt(line, j, TagClose) by { assert line[j..j + |TagClose|] == pre[j..]; }
    assert pre[a..] == q + TagClose;
    forall p | a + 1 <= p < j ensures !StartsAt(line, p, TagClose) {
      assert line[p..p + |TagClose|] == pre[p..p + |TagClose|] == pre[a..][p - a..p - a + |TagClose|];
      assert !StartsAt(q + TagClose, p - a, TagClose);
    }
    assert FindFrom(line, TagClose, a + 1) == j;
    assert line[a..j] == q by { assert line[a..j] == pre[a..j]; }
  }

  /** The first end tag in the line is the one that closes the placeholder. */
  lemma CanonicalEndTag(q: string, body: string)
    requires NoEndTagInOpening(q) && NoEndTagWithin(body)
    ensures var line := Canonical(q, body); FindFrom(line, EndTag, 0) == |line| - |EndTag|
  {
    var line := Canonical(q, body);
    var c := |QueryOpen| + |q| + |TagClose|;
    CanonicalPieces(q, body);
    assert line[c..] == body + EndTag;
    EndTagAfterBody(line, c, body);
    NoEndTagBeforeBody(q, body);
  }

  /** The lines of a placeholder whose value has the lines `bs`: the
      opening tag and the query glued to the first of them, the others, and
      the end tag after the last. */
  function PlaceholderLines(q: string, bs: seq<string>): (r: seq<string>)
    requires |bs| > 0
    ensures |r| == |bs|
  {
    var m := [QueryOpen + q + TagClose + bs[0]] + bs[1..];
    m[..|m| - 1] + [m[|m| - 1] + EndTag]
  }

  /** What the callback writes splits into the placeholder's lines, then an
      empty line. */
  lemma EmittedSplit(q: string, b: string)
    requires '\n' !in q
    ensures Split(Canonical(q, b) + "\n", '\n') == PlaceholderLines(q, Split(b, '\n')) + [""]
  {
    var pre := QueryOpen + q + TagClose;
    var bs := Split(b, '\n');
    NoSeparatorJoined(QueryOpen, q, '\n');
    NoSeparatorJoined(QueryOpen + q, TagClose, '\n');
    SplitPrepend(pre, b, '\n');
    SplitAppendTail(pre + b, EndTag, '\n');
    CanonicalPieces(q, b);
    assert Canonical(q, b) + "\n" == (pre + b + EndTag) + ['\n'] + "";
    SplitConcat(pre + b + EndTag, "", '\n');
  }

  /** An end tag met in `x`, or one starting in `y`, would start in
      `x + "\n" + y`. */
  lemma NoEndTagAround(x: string, y: string)
    requires NoEndTagWithin(x + ['\n'] + y)
    ensures !HasEndTag(x) && NoEndTagWithin(y)
  {
    var t := x + ['\n'] + y;
    var tt := t + EndTag;
    var k := FindFrom(x, EndTag, 0);
    if k != -1 {
      assert tt[k..k + |EndTag|] == x[k..k + |EndTag|];
      assert StartsAt(tt, k, EndTag);
      assert false;
    }
    forall k | 0 <= k < |y| ensures !StartsAt(y + EndTag, k, EndTag) {
      var o := |x| + 1;
      assert tt[o..] == y + EndTag;
      if StartsAt(y + EndTag, k, EndTag) {
        assert tt[o + k..o + k + |EndTag|] == (y + EndTag)[k..k + |EndTag|];
        assert StartsAt(tt, o + k, EndTag);
        assert false;
      }
    }
  }

  /** Lines joined into a value without an end tag: none but the last holds
      one, and none starts in the last. */
  lemma {:induction false} ValueLinesFree(bs: seq<string>)
    requires |bs| > 0 && NoEndTagWithin(Join(bs, '\n'))
    ensures forall i :: 0 <= i < |bs| - 1 ==> !HasEndTag(bs[i])
    ensures NoEndTagWithin(bs[|bs| - 1])
    decreases |bs|
  {
    if |bs| > 1 {
      NoEndTagAround(bs[0], Join(bs[1..], '\n'));
      ValueLinesFree(bs[1..]);
      assert forall i :: 1 <= i < |bs| - 1 ==> bs[i] == bs[1..][i - 1];
    }
  }

  /** The opening line holds no end tag when the value's first line holds none. */
  lemma OpeningLineFree(q: string, x: string)
    requires NoEndTagInOpening(q) && !HasEndTag(x)
    ensures !HasEndTag(QueryOpen + q + TagClose + x)
  {
    var pre := QueryOpen + q + TagClose;
    var line := pre + x;
    var k := FindFrom(line, EndTag, 0);
    if k != -1 {
      if k < |pre| {
        NoEndTagBeforeBody(q, x);
        CanonicalPieces(q, x);
        var s := Canonical(q, x);
        assert StartsAt(line, k, EndTag);
        assert s == line + EndTag;
        assert s[k..k + |EndTag|] == line[k..k + |EndTag|];
        assert StartsAt(s, k, EndTag);
        assert false;
      } else {
        assert line[k..k + |EndTag|] == x[k - |pre|..k - |pre| + |EndTag|];
        ContainsAt(x, EndTag, k - |pre|);
        assert false;
      }
    }
  }

  /** In a note holding only what the callback wrote, running the command
      with the cursor on its first line gives back the query, and the span
      from the start of the opening tag to just past the end tag, which ends
      the value's last line: inserting a query and then editing it finds the
      same placeholder, whatever lines the value holds. The query may hold
      `"`, as long as the lazy capture still closes at its own `"></span>`. */
  lemma EmittedLocated(query: string, value: string, h: Host)
    requires var q := h.escapeNewLines(query); |q| > 0 && '\n' !in q && ClosesOnce(q) && NoEndTagInOpening(q)
    requires NoEndTagWithin(h.unescape(value))
    ensures var q, b := h.escapeNewLines(query), h.unescape(value);
            var lines := Split(Emitted(query, value, h), '\n');
            var last := Count(b, '\n');
            lines == PlaceholderLines(q, Split(b, '\n')) + [""]
            && SpanRefs(lines, 0, h) == Refs(h.restoreNewLines(q), 0, 0, last, |lines[last]|)
  {
    var q, b := h.escapeNewLines(query), h.unescape(value);
    var bs := Split(b, '\n');
    var last := |bs| - 1;
    var lines := PlaceholderLines(q, bs) + [""];
    EmittedSplit(q, b);
    ValueLinesFree(bs);
    OpeningFound(q, bs, lines);
    ClosingFound(q, bs, lines);
  }

  /** The backward scan from the first line finds the opening tag there. */
  lemma OpeningFound(q: string, bs: seq<string>, lines: seq<string>)
    requires |q| > 0 && ClosesOnce(q) && |bs| > 0 && lines == PlaceholderLines(q, bs) + [""]
    ensures ScanUp(lines, 0, 0) == Some(0) && OpenTagIn(lines[0]) == Some(TagHit(0, q))
  {
    var pre := QueryOpen + q + TagClose;
    if |bs| == 1 {
      assert lines[0] == pre + (bs[0] + EndTag);
      OpenTagLeads(q, bs[0] + EndTag);
    } else {
      assert lines[0] == pre + bs[0];
      OpenTagLeads(q, bs[0]);
    }
  }

  /** The forward scan from the first line finds the end tag at the end of
      the value's last line. */
  /** No line of the placeholder before the value's last line holds an end tag. */
  lemma EarlyLinesFree(q: string, bs: seq<string>, lines: seq<string>)
    requires NoEndTagInOpening(q) && |bs| > 0 && lines == PlaceholderLines(q, bs) + [""]
    requires forall i :: 0 <= i < |bs| - 1 ==> !HasEndTag(bs[i])
    ensures forall i :: 0 <= i < |bs| - 1 ==> !HasEndTag(lines[i])
  {
    forall i | 0 <= i < |bs| - 1 ensures !HasEndTag(lines[i]) {
      if i == 0 {
        assert lines[0] == QueryOpen + q + TagClose + bs[0];
        OpeningLineFree(q, bs[0]);
      } else {
        assert lines[i] == bs[i];
      }
    }
  }

  lemma ClosingFound(q: string, bs: seq<string>, lines: seq<string>)
    requires NoEndTagInOpening(q) && '\n' !in q && |bs| > 0 && lines == PlaceholderLines(q, bs) + [""]
    requires forall i :: 0 <= i < |bs| - 1 ==> !HasEndTag(bs[i])
    requires NoEndTagWithin(bs[|bs| - 1])
    ensures var last := |bs| - 1;
            ScanDown(lines, 0) == Some(last) && FindFrom(lines[last], EndTag, 0) + |EndTag| == |lines[last]|
  {
    var last := |bs| - 1;
    EarlyLinesFree(q, bs, lines);
    if last == 0 {
      CanonicalPieces(q, bs[0]);
      assert lines[0] == Canonical(q, bs[0]);
      CanonicalEndTag(q, bs[0]);
    } else {
      assert lines[last] == bs[last] + EndTag;
      EndTagAfterBody(lines[last], 0, bs[last]);
    }
    ScanDownNone(lines, 0);
    ScanDownFound(lines, 0);
  }

  // ---------------------------------------------------------------------------
  // The editor the callback writes into

  /** A position in the editor: a line and a character within it. */
  datatype Pos = Pos(line: nat, ch: nat)

  predicate Within(lines: seq<string>, p: Pos) {
    p.line < |lines| && p.ch <= |lines[p.line]|
  }

  predicate Before(p: Pos, q: Pos) {
    p.line < q.line || (p.line == q.line && p.ch <= q.ch)
  }

  /** Everything before `from` and everything after `to`, in the note's text. */
  function TextBefore(lines: seq<string>, from: Pos): string
    requires Within(lines, from)
  {
    Join(lines[..from.line] + [lines[from.line][..from.ch]], '\n')
  }

  function TextAfter(lines: seq<string>, to: Pos): string
    requires Within(lines, to)
  {
    Join([lines[to.line][to.ch..]] + lines[to.line + 1..], '\n')
  }

  /** The lines once the text from `from` to `to` is replaced by `text`. */
  function Replaced(lines: seq<string>, from: Pos, to: Pos, text: string): seq<string>
    requires Within(lines, from) && Within(lines, to) && Before(from, to)
  {
    lines[..from.line] + Split(lines[from.line][..from.ch] + text + lines[to.line][to.ch..], '\n') + lines[to.line + 1..]
  }

  /** Joining is associative over a split of the pieces. */
  lemma {:induction false} JoinAppend(x: seq<string>, y: seq<string>, c: char)
    requires |x| > 0 && |y| > 0
    ensures Join(x + y, c) == Join(x, c) + [c] + Join(y, c)
    decreases |x|
  {
    if |x| == 1 {
      assert (x + y)[1..] == y;
    } else {
      JoinAppend(x[1..], y, c);
      assert (x + y)[1..] == x[1..] + y;
    }
  }

  /** Lines `m + post` whose first part joins to `x + mid + y` join to `x`,
      `mid`, then the text from `y` on. */
  lemma {:induction false} JoinRight(m: seq<string>, post: seq<string>, x: string, mid: string, y: string, c: char)
    requires |m| > 0 && Join(m, c) == x + mid + y
    ensures Join(m + post, c) == x + mid + Join([y] + post, c)
  {
    if |post| > 0 {
      JoinAppend(m, post, c);
      JoinAppend([y], post, c);
    } else {
      assert m + post == m;
      assert [y] + post == [y];
    }
  }

  /** Lines `pre + m + post` whose middle part joins to `x + mid + y` join
      to the text up to `x`, then `mid`, then the text from `y` on. */
  lemma {:induction false} JoinAround(pre: seq<string>, m: seq<string>, post: seq<string>, x: string, mid: string, y: string, c: char)
    requires |m| > 0 && Join(m, c) == x + mid + y
    ensures Join(pre + m + post, c) == Join(pre + [x], c) + mid + Join([y] + post, c)
  {
    JoinRight(m, post, x, mid, y, c);
    var tail := Join([y] + post, c);
    if |pre| > 0 {
      var p := Join(pre, c);
      assert pre + m + post == pre + (m + post);
      JoinAppend(pre, m + post, c);
      JoinAppend(pre, [x], c);
      assert p + [c] + (x + mid + tail) == (p + [c] + x) + mid + tail;
    } else {
      assert pre + m + post == m + post;
      assert pre + [x] == [x];
    }
  }

  /** Text added before the first line and after the last one of a join
      is added before and after the whole. */
  lemma {:induction false} JoinEnds(u: string, inner: seq<string>, v: string, x: string, y: string, c: char)
    ensures Join([x + u] + inner + [v + y], c) == x + Join([u] + inner + [v], c) + y
  {
    var w, w' := inner + [v + y], inner + [v];
    assert Join(w, c) == Join(w', c) + y by {
      if |inner| > 0 {
        JoinAppend(inner, [v + y], c);
        JoinAppend(inner, [v], c);
      } else {
        assert w == [v + y] && w' == [v];
      }
    }
    JoinAppend([x + u], w, c);
    JoinAppend([u], w', c);
    assert [x + u] + inner + [v + y] == [x + u] + w;
    assert [u] + inner + [v] == [u] + w';
  }

  /** After a replacement the note's text is the text before `from`, the
      new text, and the text after `to`. */
  lemma ReplacedText(lines: seq<string>, from: Pos, to: Pos, text: string)
    requires Within(lines, from) && Within(lines, to) && Before(from, to)
    ensures Join(Replaced(lines, from, to, text), '\n') == TextBefore(lines, from) + text + TextAfter(lines, to)
  {
    var x, y := lines[from.line][..from.ch], lines[to.line][to.ch..];
    JoinAround(lines[..from.line], Split(x + text + y, '\n'), lines[to.line + 1..], x, text, y, '\n');
  }

  /** The text from `from` to `to`. */
  function Selected(lines: seq<string>, from: Pos, to: Pos): string
    requires Within(lines, from) && Within(lines, to) && Before(from, to)
  {
    if from.line == to.line then lines[from.line][from.ch..to.ch]
    else Join([lines[from.line][from.ch..]] + lines[from.line + 1..to.line] + [lines[to.line][..to.ch]], '\n')
  }

  /** The lines the selection touches join to the head of the first, the
      selection, and the tail of the last. */
  lemma SelectedMiddle(lines: seq<string>, from: Pos, to: Pos)
    requires Within(lines, from) && Within(lines, to) && Before(from, to)
    ensures Join(lines[from.line..to.line + 1], '\n')
            == lines[from.line][..from.ch] + Selected(lines, from, to) + lines[to.line][to.ch..]
  {
    var u, v := lines[from.line], lines[to.line];
    var x, y := u[..from.ch], v[to.ch..];
    if from.line == to.line {
      assert lines[from.line..to.line + 1] == [u];
      assert u == x + u[from.ch..to.ch] + y;
    } else {
      var inner := lines[from.line + 1..to.line];
      assert lines[from.line..to.line + 1] == [u] + inner + [v];
      assert u == x + u[from.ch..] && v == v[..to.ch] + y;
      JoinEnds(u[from.ch..], inner, v[..to.ch], x, y, '\n');
    }
  }

  /** Before a replacement the note's text is the text before `from`, the
      selected text, and the text after `to`: what `Replaced` takes out is
      exactly the selection. */
  lemma SelectionSplits(lines: seq<string>, from: Pos, to: Pos)
    requires Within(lines, from) && Within(lines, to) && Before(from, to)
    ensures Join(lines, '\n') == TextBefore(lines, from) + Selected(lines, from, to) + TextAfter(lines, to)
  {
    var x, y := lines[from.line][..from.ch], lines[to.line][to.ch..];
    SelectedMiddle(lines, from, to);
    assert lines == lines[..from.line] + lines[from.line..to.line + 1] + lines[to.line + 1..];
    JoinAround(lines[..from.line], lines[from.line..to.line + 1], lines[to.line + 1..], x, Selected(lines, from, to), y, '\n');
  }

  /** The editor's document and selection, as the callback uses them. */
  class Editor {
    var lines: seq<string>
    var anchor: Pos
    var head: Pos

    /** One or more lines, none holding a line break, and the selection's
        ends inside them. */
    predicate Valid()
      reads this
    {
      |lines| > 0 && (forall i :: 0 <= i < |lines| ==> '\n' !in lines[i])
      && Within(lines, anchor) && Within(lines, head)
    }

    /** `editor.getValue()`. */
    function Value(): (r: string)
      reads this
      requires Valid()
      ensures Split(r, '\n') == lines
    {
      SplitJoin(lines, '\n');
      Join(lines, '\n')
    }

    /** `editor.setSelection(anchor, head)`. */
    method SetSelection(a: Pos, b: Pos)
      requires Valid() && Within(lines, a) && Within(lines, b)
      modifies this
      ensures Valid() && lines == old(lines) && anchor == a && head == b
    {
      anchor, head := a, b;
    }

    /** `editor.replaceSelection(text)`: the selection, whichever way it
        points, is replaced and the cursor is left after the new text. */
    method ReplaceSelection(text: string)
      requires Valid()
      modifies this
      ensures lines == Replaced(old(lines), Low(old(anchor), old(head)), High(old(anchor), old(head)), text)
      ensures Join(lines, '\n') == TextBefore(old(lines), Low(old(anchor), old(head))) + text
                                   + TextAfter(old(lines), High(old(anchor), old(head)))
      ensures Valid() && anchor == head == CursorAfter(old(lines), Low(old(anchor), old(head)), text)
    {
      var from, to := Low(anchor, head), High(anchor, head);
      ReplacedText(lines, from, to, text);
      ReplacedLines(lines, from, to, text);
      var after := CursorAfter(lines, from, text);
      lines := Replaced(lines, from, to, text);
      anchor, head := after, after;
    }
  }

  /** The earlier and the later end of a selection. */
  function Low(p: Pos, q: Pos): (r: Pos)
    ensures r == p || r == q
    ensures Before(r, p) && Before(r, q)
  {
    if Before(p, q) then p else q
  }

  function High(p: Pos, q: Pos): (r: Pos)
    ensures r == p || r == q
    ensures Before(p, r) && Before(q, r) && Before(Low(p, q), r)
  {
    if Before(p, q) then q else p
  }

  /** Where the cursor stands once `text` is written at `from`: on the last
      line of the new text, just after it. */
  function CursorAfter(lines: seq<string>, from: Pos, text: string): Pos
    requires Within(lines, from)
  {
    var inserted := Split(lines[from.line][..from.ch] + text, '\n');
    Pos(from.line + |inserted| - 1, |inserted[|inserted| - 1]|)
  }

  /** The replaced lines hold no line break, and the cursor left after the
      new text is inside them. */
  lemma ReplacedLines(lines: seq<string>, from: Pos, to: Pos, text: string)
    requires Within(lines, from) && Within(lines, to) && Before(from, to)
    requires forall i :: 0 <= i < |lines| ==> '\n' !in lines[i]
    ensures var r := Replaced(lines, from, to, text);
            |r| > 0 && (forall i :: 0 <= i < |r| ==> '\n' !in r[i]) && Within(r, CursorAfter(lines, from, text))
  {
    var x, y := lines[from.line][..from.ch], lines[to.line][to.ch..];
    var inserted := Split(x + text, '\n');
    var mid := Split(x + text + y, '\n');
    assert '\n' !in y by {
      forall k | 0 <= k < |y| ensures y[k] != '\n' { assert y[k] == lines[to.line][to.ch + k]; }
    }
    SplitAppendTail(x + text, y, '\n');
    var r := Replaced(lines, from, to, text);
    assert r == lines[..from.line] + mid + lines[to.line + 1..];
    forall i | 0 <= i < |r| ensures '\n' !in r[i] {
      if i < from.line { assert r[i] == lines[i]; }
      else if i < from.line + |mid| { assert r[i] == mid[i - from.line]; }
      else { assert r[i] == lines[to.line + 1 + (i - from.line - |mid|)]; }
    }
    assert r[from.line + |inserted| - 1] == mid[|inserted| - 1];
  }

  /** The dialog's callback: in edit mode the located span is selected
      first; then the selection is replaced by the new placeholder. */
  method ApplyQuery(editor: Editor, refs: Refs, query: string, value: string, edit: bool, h: Host)
    requires editor.Valid()
    requires Within(editor.lines, Pos(refs.startLine, refs.startCh)) && Within(editor.lines, Pos(refs.endLine, refs.endCh))
    modifies editor
    ensures editor.Valid()
    ensures edit ==> editor.Value() == TextBefore(old(editor.lines), Low(Pos(refs.startLine, refs.startCh), Pos(refs.endLine, refs.endCh)))
                                       + Emitted(query, value, h)
                                       + TextAfter(old(editor.lines), High(Pos(refs.startLine, refs.startCh), Pos(refs.endLine, refs.endCh)))
    ensures !edit ==> editor.lines == Replaced(old(editor.lines), Low(old(editor.anchor), old(editor.head)),
                                               High(old(editor.anchor), old(editor.head)), Emitted(query, value, h))
  {
    if edit {
      editor.SetSelection(Pos(refs.startLine, refs.startCh), Pos(refs.endLine, refs.endCh));
    }
    editor.ReplaceSelection(Emitted(query, value, h));
  }

  /** Both positions the scans leave lie inside the note. */
  lemma SpanRefsWithin(lines: seq<string>, cursor: nat, h: Host)
    requires cursor < |lines|
    ensures var r := SpanRefs(lines, cursor, h);
            Within(lines, Pos(r.startLine, r.startCh)) && Within(lines, Pos(r.endLine, r.endCh))
  {
    var up := ScanUp(lines, cursor, cursor);
    if up.Some? {
      OpenTagFromFound(lines[up.value], 0);
    }
    var down := ScanDown(lines, cursor);
    if down.Some? {
      var e := FindFrom(lines[down.value], EndTag, 0);
      assert e != -1;
    }
  }

  /** The whole command: locate the span around the cursor (the editor's
      head, `editor.getCursor()`) in the editor's text, then write what the
      dialog returns (`query`, `value`, and whether it was an edit): over the
      located span when editing, over the selection otherwise. */
  method QueryVariables(editor: Editor, h: Host, query: string, value: string, edit: bool)
      returns (refs: Refs)
    requires editor.Valid()
    modifies editor
    ensures refs == SpanRefs(old(editor.lines), old(editor.head).line, h)
    ensures Within(old(editor.lines), Pos(refs.startLine, refs.startCh)) && Within(old(editor.lines), Pos(refs.endLine, refs.endCh))
    ensures editor.Valid()
    ensures edit ==> editor.Value() == TextBefore(old(editor.lines), Low(Pos(refs.startLine, refs.startCh), Pos(refs.endLine, refs.endCh)))
                                       + Emitted(query, value, h)
                                       + TextAfter(old(editor.lines), High(Pos(refs.startLine, refs.startCh), Pos(refs.endLine, refs.endCh)))
    ensures !edit ==> editor.lines == Replaced(old(editor.lines), Low(old(editor.anchor), old(editor.head)),
                                               High(old(editor.anchor), old(editor.head)), Emitted(query, value, h))
  {
    var cursor := editor.head.line;
    refs := LocateSpan(editor.Value(), cursor, h);
    SpanRefsWithin(editor.lines, cursor, h);
    ApplyQuery(editor, refs, query, value, edit, h);
  }
}
