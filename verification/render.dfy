/** The rewriting of a note's live-variable placeholders (src/main.ts): three
    passes over the whole text that bring the older placeholder forms up to
    the current one and show each placeholder's current value. */
module Render {
  import opened Wrappers
  import opened Strings
  import opened Values
  import opened Scanners
  import opened VaultProps
  import opened QueryParser
  import opened CustomFunctions

  // ---------------------------------------------------------------------------
  // Placeholder patterns

  /** The pattern `OPEN([^"]+)"CLOSE BODY END`: an opening tag with a key in
      double quotes, then the shortest body up to the end tag. A body written
      `.*?` may not cross a line terminator, one written `[\s\S]*?` may. */
  datatype Marker = Marker(open: string, close: string, endTag: string, multiline: bool)

  const EndTag := "<span type=\"end\"></span>"

  /** Version 1: `<span id="KEY"/>…<span type="end"/>`, on one line. */
  const IdMarker := Marker("<span id=\"", "/>", "<span type=\"end\"/>", false)
  /** Version 2: `<span query="QUERY"/>…<span type="end"/>`. */
  const SelfClosingMarker := Marker("<span query=\"", "/>", "<span type=\"end\"/>", true)
  /** Version 3, the current form: `<span query="QUERY"></span>…<span type="end"></span>`. */
  const QueryMarker := Marker("<span query=\"", "></span>", EndTag, true)

  /** A placeholder found in the text: its key and the index just past its end tag. */
  datatype Found = Found(key: string, end: nat)

  /** `s[i..f.end]` is a placeholder of the form `m` with the key `f.key`: the
      key is a non-empty run without `"`, and the end tag is the first one
      after the opening tag. */
  predicate PlaceholderAt(s: string, i: nat, m: Marker, f: Found) {
    var c := i + |m.open| + |f.key| + 1 + |m.close|;
    var e := f.end - |m.endTag|;
    |f.key| > 0 && '"' !in f.key && c <= e && f.end <= |s|
    && s[i..c] == m.open + f.key + "\"" + m.close
    && s[e..f.end] == m.endTag
    && (forall k :: c <= k < e ==> !StartsAt(s, k, m.endTag))
    && (!m.multiline ==> NoLineTerminator(s[c..e]))
  }

  /** The first `"` at or after `i`, or the end of the text. */
  function QuoteFrom(s: string, i: nat): (r: nat)
    requires i <= |s|
    ensures i <= r <= |s| && (r == |s| || s[r] == '"')
    decreases |s| - i
  {
    if i == |s| || s[i] == '"' then i else QuoteFrom(s, i + 1)
  }

  lemma {:induction false} QuoteFromSkips(s: string, i: nat)
    requires i <= |s|
    ensures forall k :: i <= k < QuoteFrom(s, i) ==> s[k] != '"'
    decreases |s| - i
  {
    if i < |s| && s[i] != '"' {
      QuoteFromSkips(s, i + 1);
    }
  }

  /** The quote search from `i` stops at `r` when `r` holds the first quote from `i` on. */
  lemma {:induction false} QuoteFromIs(s: string, i: nat, r: nat)
    requires i <= r < |s| && s[r] == '"'
    requires forall k :: i <= k < r ==> s[k] != '"'
    ensures QuoteFrom(s, i) == r
    decreases r - i
  {
    if i < r {
      QuoteFromIs(s, i + 1, r);
    }
  }

  /** The placeholder of the form `m` that starts at index `i`, if one does. */
  function MarkerAt(s: string, i: nat, m: Marker): Option<Found>
    requires i <= |s|
  {
    if !StartsAt(s, i, m.open) then None
    else
      var a := i + |m.open|;
      var q := QuoteFrom(s, a);
      if q == a || q == |s| || !StartsAt(s, q + 1, m.close) then None
      else
        var c := q + 1 + |m.close|;
        var j := FindFrom(s, m.endTag, c);
        if j < 0 || (!m.multiline && !NoLineTerminator(s[c..j])) then None
        else Some(Found(s[a..q], j + |m.endTag|))
  }

  /** What `MarkerAt` finds is a placeholder of the form asked for. */
  lemma MarkerAtFound(s: string, i: nat, m: Marker)
    requires i <= |s| && MarkerAt(s, i, m).Some?
    ensures PlaceholderAt(s, i, m, MarkerAt(s, i, m).value)
  {
    var a := i + |m.open|;
    var q := QuoteFrom(s, a);
    var c := q + 1 + |m.close|;
    var j := FindFrom(s, m.endTag, c);
    assert MarkerAt(s, i, m).value == Found(s[a..q], j + |m.endTag|);
    PlaceholderParts(s, i, m, q, j);
  }

  /** The parts `MarkerAt` checks make up a placeholder. */
  lemma PlaceholderParts(s: string, i: nat, m: Marker, q: nat, j: nat)
    requires StartsAt(s, i, m.open) && i + |m.open| < q < |s| && QuoteFrom(s, i + |m.open|) == q
    requires StartsAt(s, q + 1, m.close) && q + 1 + |m.close| <= j && StartsAt(s, j, m.endTag)
    requires forall k :: q + 1 + |m.close| <= k < j ==> !StartsAt(s, k, m.endTag)
    requires !m.multiline ==> NoLineTerminator(s[q + 1 + |m.close|..j])
    ensures PlaceholderAt(s, i, m, Found(s[i + |m.open|..q], j + |m.endTag|))
  {
    var a := i + |m.open|;
    var c := q + 1 + |m.close|;
    QuoteFromSkips(s, a);
    assert '"' !in s[a..q] by {
      forall k | 0 <= k < q - a ensures s[a..q][k] != '"' { assert s[a..q][k] == s[a + k]; }
    }
    QuotedParts(s, i, a, q, c, m.open, m.close);
  }

  /** The text from `i` to `c` is the opening, the key up to the quote, the
      quote and the closing. */
  lemma QuotedParts(s: string, i: nat, a: nat, q: nat, c: nat, open: string, close: string)
    requires i <= a <= q < c <= |s| && s[q] == '"'
    requires s[i..a] == open && s[q + 1..c] == close
    ensures s[i..c] == open + s[a..q] + "\"" + close
  {
    assert s[i..c] == s[i..a] + s[a..q] + [s[q]] + s[q + 1..c];
  }

  /** A placeholder as `matchAll` reports it: the whole text matched and the key. */
  datatype Match = Match(text: string, key: string)

  /** `[...s.matchAll(re)]` from index `i`: the leftmost placeholder, then the
      search goes on where that one ended. */
  function MatchesFrom(s: string, i: nat, m: Marker): (r: seq<Match>)
    requires i <= |s|
    ensures forall x :: x in r ==> |x.key| > 0 && '"' !in x.key
    decreases |s| - i
  {
    match MarkerAt(s, i, m)
    case Some(f) =>
      MarkerAtFound(s, i, m);
      [Match(s[i..f.end], f.key)] + MatchesFrom(s, f.end, m)
    case None => if i == |s| then [] else MatchesFrom(s, i + 1, m)
  }

  function Matches(s: string, m: Marker): seq<Match> {
    MatchesFrom(s, 0, m)
  }

  // ---------------------------------------------------------------------------
  // What a placeholder is rewritten to

  /** The current form of a placeholder: the escaped query, then what it shows. */
  function Canonical(escapedQuery: string, body: string): string {
    "<span query=\"" + escapedQuery + "\"></span>" + body + "<span type=\"end\"></span>"
  }

  /** `errorSpan(message)`. */
  function ErrorSpan(message: string): string {
    "<span style=\"color: red\">Error: " + message + "</span>"
  }

  /** What version 1 shows for a key whose value is falsy. */
  const IdError := "<span style=\"color: red\">Live Variable Error</span>"

  /** What version 1 writes for the key `key`: the query `get(KEY)`, showing the
      value when it is truthy and an error otherwise. */
  function IdRendering(key: string, vp: VaultProperties, h: Host): string
    reads vp
  {
    var v := vp.GetProperty(key);
    Canonical("get(" + key + ")", if Falsy(v) then IdError else StringifyIfObj(h, v))
  }

  /** The value of the query written, HTML-escaped, in a placeholder. */
  function QueryValue(escapedQuery: string, vp: VaultProperties, h: Host, d: Delimiters): Value
    reads vp
  {
    TryComputeValueFromQuery(h.unescape(escapedQuery), vp, h, d)
  }

  /** What versions 2 and 3 write for a query: its value, or the error span
      when the value is undefined. */
  function QueryRendering(escapedQuery: string, vp: VaultProperties, h: Host, d: Delimiters): string
    reads vp
  {
    Canonical(escapedQuery, QueryBody(escapedQuery, vp, h, d))
  }

  /** What a placeholder shows for a query. */
  function QueryBody(escapedQuery: string, vp: VaultProperties, h: Host, d: Delimiters): string
    reads vp
  {
    var v := QueryValue(escapedQuery, vp, h, d);
    if v.Undefined? then ErrorSpan("Invalid Query") else StringifyIfObj(h, v)
  }

  // ---------------------------------------------------------------------------
  // The passes, as functions of the text

  /** One `data = data.replace(find, put)`. */
  datatype Edit = Edit(find: string, put: string)

  /** The edits applied in turn, each to the first occurrence of its text in
      the result of the ones before it. */
  function ReplaceEach(data: string, edits: seq<Edit>): string
    decreases |edits|
  {
    if |edits| == 0 then data
    else ReplaceEach(ReplaceFirst(data, edits[0].find, edits[0].put), edits[1..])
  }

  lemma ReplaceEachStep(data: string, edits: seq<Edit>, i: nat)
    requires i < |edits|
    ensures ReplaceEach(data, edits[i..]) == ReplaceEach(ReplaceFirst(data, edits[i].find, edits[i].put), edits[i + 1..])
  {
    assert edits[i..][1..] == edits[i + 1..];
  }

  function IdEdits(ms: seq<Match>, vp: VaultProperties, h: Host): seq<Edit>
    reads vp
  {
    seq(|ms|, i requires 0 <= i < |ms| reads vp => Edit(ms[i].text, IdRendering(ms[i].key, vp, h)))
  }

  function QueryEdits(ms: seq<Match>, vp: VaultProperties, h: Host, d: Delimiters): seq<Edit>
    reads vp
  {
    seq(|ms|, i requires 0 <= i < |ms| reads vp => Edit(ms[i].text, QueryRendering(ms[i].key, vp, h, d)))
  }

  /** The text `renderVariablesV1` writes back. */
  function IdPass(data: string, vp: VaultProperties, h: Host): string
    reads vp
  {
    ReplaceEach(data, IdEdits(Matches(data, IdMarker), vp, h))
  }

  /** The text the query loop of `renderVariablesV2` (with `m` the version 2
      form) or `renderVariablesV3` (with the current form) writes back. */
  function QueryPass(data: string, m: Marker, vp: VaultProperties, h: Host, d: Delimiters): string
    reads vp
  {
    ReplaceEach(data, QueryEdits(Matches(data, m), vp, h, d))
  }

  /** The number of true flags. */
  function CountTrue(flags: seq<bool>): (r: nat)
    ensures r <= |flags|
    ensures r == 0 <==> forall i :: 0 <= i < |flags| ==> !flags[i]
    decreases |flags|
  {
    if |flags| == 0 then 0
    else
      var n := |flags| - 1;
      CountTrue(flags[..n]) + if flags[n] then 1 else 0
  }

  lemma CountTrueStep(flags: seq<bool>, i: nat)
    requires i < |flags|
    ensures CountTrue(flags[..i + 1]) == CountTrue(flags[..i]) + if flags[i] then 1 else 0
  {
    assert flags[..i + 1][..i] == flags[..i];
  }

  /** For each version 1 placeholder, whether its key has a falsy value. */
  function IdFailed(ms: seq<Match>, vp: VaultProperties): seq<bool>
    reads vp
  {
    seq(|ms|, i requires 0 <= i < |ms| reads vp => Falsy(vp.GetProperty(ms[i].key)))
  }

  /** For each query placeholder, whether its value is undefined. */
  function QueryFailed(ms: seq<Match>, vp: VaultProperties, h: Host, d: Delimiters): seq<bool>
    reads vp
  {
    seq(|ms|, i requires 0 <= i < |ms| reads vp => QueryValue(ms[i].key, vp, h, d).Undefined?)
  }

  // ---------------------------------------------------------------------------
  // Code blocks: the pattern ```(\w+)\n([\s\S]*?)\n```

  /** A code block found in the text: its language, its code and the index
      just past its closing fence. */
  datatype Block = Block(lang: string, code: string, end: nat)

  /** The end of the run of word characters starting at `i`. */
  function WordEnd(s: string, i: nat): (r: nat)
    requires i <= |s|
    ensures i <= r <= |s| && (r == |s| || !IsWordChar(s[r]))
    decreases |s| - i
  {
    if i < |s| && IsWordChar(s[i]) then WordEnd(s, i + 1) else i
  }

  lemma {:induction false} WordEndSkips(s: string, i: nat)
    requires i <= |s|
    ensures forall k :: i <= k < WordEnd(s, i) ==> IsWordChar(s[k])
    decreases |s| - i
  {
    if i < |s| && IsWordChar(s[i]) {
      WordEndSkips(s, i + 1);
    }
  }

  /** The code block starting at `i`, if one does: three backticks, a
      non-empty word naming the language, a newline, then the shortest code
      that a newline and three backticks follow. */
  function BlockAt(s: string, i: nat): (r: Option<Block>)
    requires i <= |s|
    ensures r.Some? ==> i < r.value.end <= |s|
  {
    if !StartsAt(s, i, "```") then None
    else
      var w := WordEnd(s, i + 3);
      if w == i + 3 || w == |s| || s[w] != '\n' then None
      else
        var j := FindFrom(s, "\n```", w + 1);
        if j < 0 then None
        else Some(Block(s[i + 3..w], s[w + 1..j], j + 4))
  }

  /** A block found at `i` is three backticks, a non-empty language, a new
      line, then the code up to the first new line and three backticks. */
  lemma BlockAtFound(s: string, i: nat)
    requires i <= |s| && BlockAt(s, i).Some?
    ensures var b := BlockAt(s, i).value;
            var p := i + 3 + |b.lang| + 1;
            |b.lang| > 0 && s[i..b.end] == "```" + b.lang + "\n" + b.code + "\n```"
            && (forall k :: p <= k < b.end - 4 ==> !StartsAt(s, k, "\n```"))
  {
    var w := WordEnd(s, i + 3);
    var j := FindFrom(s, "\n```", w + 1);
    assert BlockAt(s, i).value == Block(s[i + 3..w], s[w + 1..j], j + 4);
    BlockParts(s, i, w, j);
  }

  /** The fence, the language, the new line, the code and the closing fence
      make up the block's text. */
  lemma BlockParts(s: string, i: nat, w: nat, j: nat)
    requires i + 3 <= w < j && j + 4 <= |s| && s[w] == '\n'
    requires StartsAt(s, i, "```") && StartsAt(s, j, "\n```")
    ensures s[i..j + 4] == "```" + s[i + 3..w] + "\n" + s[w + 1..j] + "\n```"
  {
    assert s[i..j + 4] == s[i..i + 3] + s[i + 3..w] + [s[w]] + s[w + 1..j] + s[j..j + 4];
  }

  /** The language of a block is made of word characters. */
  lemma BlockLanguage(s: string, i: nat)
    requires i <= |s| && BlockAt(s, i).Some?
    ensures forall k :: 0 <= k < |BlockAt(s, i).value.lang| ==> IsWordChar(BlockAt(s, i).value.lang[k])
  {
    WordEndSkips(s, i + 3);
    var lang := BlockAt(s, i).value.lang;
    forall k | 0 <= k < |lang| ensures IsWordChar(lang[k]) {
      assert lang[k] == s[i + 3 + k];
    }
  }

  /** The `forEach` over the variables found in a block: each variable whose
      value is defined has every `START VAR END` in the code replaced by the
      value's text; a null value throws (None). */
  function FillVariables(code: string, vars: seq<string>, vp: VaultProperties, h: Host, d: Delimiters): Option<string>
    reads vp
    decreases |vars|
  {
    if |vars| == 0 then Some(code)
    else
      var v := vp.GetProperty(vars[0]);
      if v.Undefined? then FillVariables(code, vars[1..], vp, h, d)
      else
        match ToStringOrThrow(h, v)
        case None => None
        case Some(t) => FillVariables(ReplaceAllLiteral(code, d.start + vars[0] + d.end, t), vars[1..], vp, h, d)
  }

  /** The replacement callback for one block: the block as it was when its
      code holds no `START…END` span, otherwise the block with the filled code. */
  function BlockDisplay(lang: string, code: string, text: string, vp: VaultProperties, h: Host, d: Delimiters): Option<string>
    reads vp
  {
    var vars := SpanGroups(code, d.start, d.end);
    if |vars| == 0 then Some(text)
    else
      match FillVariables(code, vars, vp, h, d)
      case None => None
      case Some(c) => Some("```" + lang + "\n" + c + "\n```")
  }

  /** `data.replace(codeBlockRe, callback)` from index `i`; None when a
      callback throws. */
  function ReplaceBlocksFrom(s: string, i: nat, vp: VaultProperties, h: Host, d: Delimiters): Option<string>
    requires i <= |s|
    reads vp
    decreases |s| - i
  {
    match BlockAt(s, i)
    case Some(b) =>
      (match BlockDisplay(b.lang, b.code, s[i..b.end], vp, h, d)
       case None => None
       case Some(t) =>
         match ReplaceBlocksFrom(s, b.end, vp, h, d)
         case None => None
         case Some(rest) => Some(t + rest))
    case None =>
      if i == |s| then Some("")
      else
        match ReplaceBlocksFrom(s, i + 1, vp, h, d)
        case None => None
        case Some(rest) => Some([s[i]] + rest)
  }

  function ReplaceBlocks(s: string, vp: VaultProperties, h: Host, d: Delimiters): Option<string>
    reads vp
  {
    ReplaceBlocksFrom(s, 0, vp, h, d)
  }

  /** The text `renderVariablesV3` writes back, or None when the code-block
      pass throws and the note is left as it was. */
  function V3Pass(data: string, vp: VaultProperties, h: Host, d: Delimiters): Option<string>
    reads vp
  {
    match ReplaceBlocks(data, vp, h, d)
    case None => None
    case Some(t) => Some(QueryPass(t, QueryMarker, vp, h, d))
  }

  // ---------------------------------------------------------------------------
  // The plugin object

  /** A note in the vault. */
  class VaultFile {
    var data: string

    constructor (data: string)
      ensures this.data == data
    {
      this.data := data;
    }
  }

  /** The plugin: its settings and the vault's properties. `vault.process(file, f)`
      replaces the note's text by `f(text)`, and leaves it when `f` throws. A
      notice is modelled by counting it. */
  class LiveVariables {
    var settings: Settings
    var vaultProperties: VaultProperties

    constructor (settings: Settings, vaultProperties: VaultProperties)
      ensures this.settings == settings && this.vaultProperties == vaultProperties
    {
      this.settings := settings;
      this.vaultProperties := vaultProperties;
    }

    /** `renderVariables(file)`: the three passes in turn. */
    method RenderVariables(file: VaultFile, h: Host) returns (notices: nat)
      modifies file
      ensures var d := settings.variableDelimiters;
              var t1 := IdPass(old(file.data), vaultProperties, h);
              var t2 := QueryPass(t1, SelfClosingMarker, vaultProperties, h, d);
              file.data == V3Pass(t2, vaultProperties, h, d).GetOr(t2)
      ensures var d := settings.variableDelimiters;
              var t1 := IdPass(old(file.data), vaultProperties, h);
              var t2 := QueryPass(t1, SelfClosingMarker, vaultProperties, h, d);
              notices == CountTrue(IdFailed(Matches(old(file.data), IdMarker), vaultProperties))
                         + CountTrue(QueryFailed(Matches(t1, SelfClosingMarker), vaultProperties, h, d))
                         + match ReplaceBlocks(t2, vaultProperties, h, d)
                           case None => 0
                           case Some(t3) => CountTrue(QueryFailed(Matches(t3, QueryMarker), vaultProperties, h, d))
    {
      var n1 := RenderVariablesV1(file, h);
      var n2 := RenderVariablesV2(file, h);
      var n3 := RenderVariablesV3(file, h);
      notices := n1 + n2 + n3;
    }

    /** `renderVariablesV1(file)`: every version 1 placeholder becomes a
        `get` query, with one notice per key whose value is falsy. */
    method RenderVariablesV1(file: VaultFile, h: Host) returns (notices: nat)
      modifies file
      ensures file.data == IdPass(old(file.data), vaultProperties, h)
      ensures notices == CountTrue(IdFailed(Matches(old(file.data), IdMarker), vaultProperties))
    {
      var data;
      data, notices := RewriteIds(file.data, h);
      file.data := data;
    }

    /** The `forEach` over the version 1 matches. */
    method RewriteIds(data0: string, h: Host) returns (data: string, notices: nat)
      ensures data == IdPass(data0, vaultProperties, h)
      ensures notices == CountTrue(IdFailed(Matches(data0, IdMarker), vaultProperties))
    {
      var matches := Matches(data0, IdMarker);
      ghost var edits := IdEdits(matches, vaultProperties, h);
      ghost var failed := IdFailed(matches, vaultProperties);
      data := data0;
      notices := 0;
      var i := 0;
      while i < |matches|
        invariant 0 <= i <= |matches|
        invariant ReplaceEach(data, edits[i..]) == IdPass(data0, vaultProperties, h)
        invariant notices == CountTrue(failed[..i])
      {
        var put, fails := RenderKey(matches[i].key, h);
        assert failed[i] == fails;
        CountTrueStep(failed, i);
        ReplaceEachStep(data, edits, i);
        data := ReplaceFirst(data, matches[i].text, put);
        if fails {
          notices := notices + 1;
        }
        i := i + 1;
      }
      assert failed[..i] == failed;
    }

    /** What version 1 writes for one placeholder, and whether it raises a
        notice: the value when it is truthy, the error otherwise. */
    method RenderKey(key: string, h: Host) returns (put: string, failed: bool)
      ensures put == IdRendering(key, vaultProperties, h)
      ensures failed <==> Falsy(vaultProperties.GetProperty(key))
    {
      var value := vaultProperties.GetProperty(key);
      if !Falsy(value) {
        put := Canonical("get(" + key + ")", StringifyIfObj(h, value));
        failed := false;
      } else {
        put := Canonical("get(" + key + ")", IdError);
        failed := true;
      }
    }

    /** `renderVariablesV2(file)`: every version 2 placeholder is rewritten in
        the current form. */
    method RenderVariablesV2(file: VaultFile, h: Host) returns (notices: nat)
      modifies file
      ensures file.data == QueryPass(old(file.data), SelfClosingMarker, vaultProperties, h, settings.variableDelimiters)
      ensures notices == CountTrue(QueryFailed(Matches(old(file.data), SelfClosingMarker), vaultProperties, h, settings.variableDelimiters))
    {
      var data;
      data, notices := RewriteQueries(file.data, SelfClosingMarker, h);
      file.data := data;
    }

    /** `renderVariablesV3(file)`: the code blocks, then every current-form
        placeholder; nothing is written when a code-block callback throws. */
    method RenderVariablesV3(file: VaultFile, h: Host) returns (notices: nat)
      modifies file
      ensures var d := settings.variableDelimiters;
              match ReplaceBlocks(old(file.data), vaultProperties, h, d)
              case None => file.data == old(file.data) && notices == 0
              case Some(t) => file.data == QueryPass(t, QueryMarker, vaultProperties, h, d)
                              && notices == CountTrue(QueryFailed(Matches(t, QueryMarker), vaultProperties, h, d))
    {
      var blocks := ReplaceBlocks(file.data, vaultProperties, h, settings.variableDelimiters);
      if blocks.None? {
        return 0;
      }
      var data;
      data, notices := RewriteQueries(blocks.value, QueryMarker, h);
      file.data := data;
    }

    /** The `forEach` over the matches of `m` shared by versions 2 and 3: each
        placeholder shows its query's value, or the error span and a notice
        when the value is undefined. */
    method RewriteQueries(data0: string, m: Marker, h: Host) returns (data: string, notices: nat)
      ensures data == QueryPass(data0, m, vaultProperties, h, settings.variableDelimiters)
      ensures notices == CountTrue(QueryFailed(Matches(data0, m), vaultProperties, h, settings.variableDelimiters))
    {
      var d := settings.variableDelimiters;
      var matches := Matches(data0, m);
      ghost var edits := QueryEdits(matches, vaultProperties, h, d);
      ghost var failed := QueryFailed(matches, vaultProperties, h, d);
      data := data0;
      notices := 0;
      var i := 0;
      while i < |matches|
        invariant 0 <= i <= |matches|
        invariant ReplaceEach(data, edits[i..]) == QueryPass(data0, m, vaultProperties, h, d)
        invariant notices == CountTrue(failed[..i])
      {
        var put, fails := RenderQuery(matches[i].key, h);
        assert failed[i] == fails;
        CountTrueStep(failed, i);
        ReplaceEachStep(data, edits, i);
        data := ReplaceFirst(data, matches[i].text, put);
        if fails {
          notices := notices + 1;
        }
        i := i + 1;
      }
      assert failed[..i] == failed;
    }

    /** What versions 2 and 3 write for one placeholder, and whether it
        raises a notice: the value of the unescaped query, or the error span
        when it is undefined. */
    method RenderQuery(escapedQuery: string, h: Host) returns (put: string, failed: bool)
      ensures put == QueryRendering(escapedQuery, vaultProperties, h, settings.variableDelimiters)
      ensures failed <==> QueryValue(escapedQuery, vaultProperties, h, settings.variableDelimiters).Undefined?
    {
      var query := h.unescape(escapedQuery);
      var value := TryComputeValueFromQuery(query, vaultProperties, h, settings.variableDelimiters);
      if !value.Undefined? {
        put := Canonical(escapedQuery, StringifyIfObj(h, value));
        failed := false;
      } else {
        put := Canonical(escapedQuery, ErrorSpan("Invalid Query"));
        failed := true;
      }
    }

    /** The callback given to `data.replace(codeBlockRe, …)` for the block
        `text` with language `lang` and code `code`. */
    method CodeBlockCallback(text: string, lang: string, code: string, h: Host) returns (r: Option<string>)
      ensures r == BlockDisplay(lang, code, text, vaultProperties, h, settings.variableDelimiters)
    {
      var start := settings.variableDelimiters.start;
      var end := settings.variableDelimiters.end;
      var variables := SpanGroups(code, start, end);
      if |variables| == 0 {
        return Some(text);
      }
      var displayCode := code;
      var i := 0;
      while i < |variables|
        invariant 0 <= i <= |variables|
        invariant FillVariables(displayCode, variables[i..], vaultProperties, h, settings.variableDelimiters)
                  == FillVariables(code, variables, vaultProperties, h, settings.variableDelimiters)
      {
        var value := vaultProperties.GetProperty(variables[i]);
        assert variables[i..][1..] == variables[i + 1..];
        if !value.Undefined? {
          var text := ToStringOrThrow(h, value);
          if text.None? {
            return None;
          }
          displayCode := ReplaceAllLiteral(displayCode, start + variables[i] + end, text.value);
        }
        i := i + 1;
      }
      return Some("```" + lang + "\n" + displayCode + "\n```");
    }
  }

  // ---------------------------------------------------------------------------
  // Properties of the passes

  /** Edits that put back the text they find leave the text as it is. */
  lemma {:induction false} ReplaceEachSelf(data: string, edits: seq<Edit>)
    requires forall i :: 0 <= i < |edits| ==> edits[i].put == edits[i].find
    ensures ReplaceEach(data, edits) == data
    decreases |edits|
  {
    if |edits| > 0 {
      ReplaceFirstSelf(data, edits[0].find);
      ReplaceEachSelf(data, edits[1..]);
    }
  }

  /** A note whose placeholders already show what their queries evaluate to
      is left as it is by a query pass. */
  lemma QueryPassStable(data: string, m: Marker, vp: VaultProperties, h: Host, d: Delimiters)
    requires forall x :: x in Matches(data, m) ==> QueryRendering(x.key, vp, h, d) == x.text
    ensures QueryPass(data, m, vp, h, d) == data
  {
    var ms := Matches(data, m);
    var edits := QueryEdits(ms, vp, h, d);
    forall i | 0 <= i < |edits| ensures edits[i].put == edits[i].find {
      assert ms[i] in ms;
    }
    ReplaceEachSelf(data, edits);
  }

  /** No end tag starts inside `body`, even one that runs on into the end tag after it. */
  predicate NoEndTagWithin(body: string) {
    forall k :: 0 <= k < |body| ==> !StartsAt(body + EndTag, k, EndTag)
  }

  /** Text without `<` holds no end tag. */
  lemma NoAngleNoEndTag(body: string)
    requires '<' !in body
    ensures NoEndTagWithin(body)
  {
    var t := body + EndTag;
    forall k | 0 <= k < |body| ensures !StartsAt(t, k, EndTag) {
      if k + |EndTag| <= |t| {
        assert t[k..k + |EndTag|][0] == body[k];
      }
    }
  }

  /** The first end tag from `c` on is the one closing `s`, when `s[c..]` is a
      body without an end tag followed by the end tag. */
  lemma EndTagAfterBody(s: string, c: nat, body: string)
    requires c <= |s| && s[c..] == body + EndTag && NoEndTagWithin(body)
    ensures FindFrom(s, EndTag, c) == |s| - |EndTag|
  {
    var e := |s| - |EndTag|;
    assert StartsAt(s, e, EndTag) by { assert s[e..e + |EndTag|] == s[c..][|body|..]; }
    forall k | c <= k < e ensures !StartsAt(s, k, EndTag) {
      assert s[k..k + |EndTag|] == s[c..][k - c..k - c + |EndTag|];
      assert !StartsAt(body + EndTag, k - c, EndTag);
    }
  }

  /** The placeholder found at `i` when the opening tag, the quote ending a
      non-empty key, the closing tag and the first end tag after it are
      where the arguments say. */
  lemma MarkerAtIs(s: string, i: nat, m: Marker, q: nat)
    requires m.multiline && StartsAt(s, i, m.open) && i + |m.open| < q < |s| && QuoteFrom(s, i + |m.open|) == q
    requires StartsAt(s, q + 1, m.close) && FindFrom(s, m.endTag, q + 1 + |m.close|) >= 0
    ensures MarkerAt(s, i, m) == Some(Found(s[i + |m.open|..q], FindFrom(s, m.endTag, q + 1 + |m.close|) + |m.endTag|))
  {
  }

  /** Where the parts of a placeholder in the current form lie. */
  lemma CanonicalLayout(q: string, body: string)
    requires '"' !in q
    ensures var s := Canonical(q, body);
            var a := |QueryMarker.open|;
            var c := a + |q| + 1 + |QueryMarker.close|;
            StartsAt(s, 0, QueryMarker.open) && a + |q| < |s| && s[a..a + |q|] == q
            && QuoteFrom(s, a) == a + |q| && StartsAt(s, a + |q| + 1, QueryMarker.close)
            && c <= |s| && s[c..] == body + EndTag
  {
    var s := Canonical(q, body);
    var a := |QueryMarker.open|;
    assert s[a..a + |q|] == q;
    forall k | a <= k < a + |q| ensures s[k] != '"' {
      assert s[k] == q[k - a];
    }
    QuoteFromIs(s, a, a + |q|);
  }

  /** A placeholder in the current form is matched as one placeholder, with
      its own query as the key, when the query has no quote and the body no
      end tag. */
  lemma CanonicalMatches(q: string, body: string)
    requires |q| > 0 && '"' !in q && NoEndTagWithin(body)
    ensures var s := Canonical(q, body);
            Matches(s, QueryMarker) == [Match(s, q)]
  {
    var s := Canonical(q, body);
    var c := |QueryMarker.open| + |q| + 1 + |QueryMarker.close|;
    CanonicalLayout(q, body);
    EndTagAfterBody(s, c, body);
    MarkerAtIs(s, 0, QueryMarker, |QueryMarker.open| + |q|);
    assert s[|QueryMarker.open|..|QueryMarker.open| + |q|] == q;
    WholeMatch(s, QueryMarker, q);
  }

  /** A text that is one placeholder from start to end is matched as that one. */
  lemma WholeMatch(s: string, m: Marker, key: string)
    requires MarkerAt(s, 0, m) == Some(Found(key, |s|))
    ensures Matches(s, m) == [Match(s, key)]
  {
    assert MatchesFrom(s, |s|, m) == [];
    assert s[0..|s|] == s;
  }

  /** The error span holds no end tag. */
  lemma ErrorSpanNoEndTag()
    ensures NoEndTagWithin(ErrorSpan("Invalid Query"))
  {
    var p, x, y := "<span style=\"color: red\">Error: ", "Invalid Query", "</span>";
    var body := p + x + y;
    var t := body + EndTag;
    forall k | 0 <= k < |body| ensures !StartsAt(t, k, EndTag) {
      if k + |EndTag| <= |t| {
        var w := t[k..k + |EndTag|];
        if k == 0 {
          assert w[6] == p[6] == 's';
        } else if k < |p| {
          assert w[0] == p[k] != '<';
        } else if k < |p| + |x| {
          assert w[0] == x[k - |p|] != '<';
        } else if k == |p| + |x| {
          assert w[1] == y[1] == '/';
        } else {
          assert w[0] == y[k - |p| - |x|] != '<';
        }
      }
    }
  }

  /** Replacing the whole text gives the replacement. */
  lemma ReplaceWhole(s: string, r: string)
    ensures ReplaceFirst(s, s, r) == r
  {
    assert StartsAt(s, 0, s);
    assert FindFrom(s, s, 0) == 0;
  }

  /** A note whose every code block has no `START…END` span in its code goes
      through the code-block pass unchanged. */
  lemma {:induction false} BlocksKeptFrom(s: string, i: nat, vp: VaultProperties, h: Host, d: Delimiters)
    requires i <= |s|
    requires forall j :: i <= j <= |s| && BlockAt(s, j).Some? ==> NoSpans(BlockAt(s, j).value.code, d.start, d.end)
    ensures ReplaceBlocksFrom(s, i, vp, h, d) == Some(s[i..])
    decreases |s| - i
  {
    match BlockAt(s, i)
    case Some(b) =>
      BlocksKeptFrom(s, b.end, vp, h, d);
      BlockKept(s, i, vp, h, d);
    case None =>
      if i < |s| {
        BlocksKeptFrom(s, i + 1, vp, h, d);
        NonBlockKept(s, i, vp, h, d);
      } else {
        assert s[i..] == [];
      }
  }

  /** One step of BlocksKeptFrom: a block without spans is kept as it is. */
  lemma BlockKept(s: string, i: nat, vp: VaultProperties, h: Host, d: Delimiters)
    requires i <= |s| && BlockAt(s, i).Some?
    requires NoSpans(BlockAt(s, i).value.code, d.start, d.end)
    requires ReplaceBlocksFrom(s, BlockAt(s, i).value.end, vp, h, d) == Some(s[BlockAt(s, i).value.end..])
    ensures ReplaceBlocksFrom(s, i, vp, h, d) == Some(s[i..])
  {
    var b := BlockAt(s, i).value;
    SpanGroupsEmpty(b.code, d.start, d.end);
    assert BlockDisplay(b.lang, b.code, s[i..b.end], vp, h, d) == Some(s[i..b.end]);
    assert s[i..] == s[i..b.end] + s[b.end..];
  }

  /** One step of BlocksKeptFrom: a character that starts no block is kept. */
  lemma {:induction false} NonBlockKept(s: string, i: nat, vp: VaultProperties, h: Host, d: Delimiters)
    requires i < |s| && BlockAt(s, i).None?
    requires ReplaceBlocksFrom(s, i + 1, vp, h, d) == Some(s[i + 1..])
    ensures ReplaceBlocksFrom(s, i, vp, h, d) == Some(s[i..])
  {
    var rest := s[i + 1..];
    assert ReplaceBlocksFrom(s, i, vp, h, d) == Some([s[i]] + rest);
    assert s[i..] == [s[i]] + rest;
  }

  /** Text without a backtick holds no code block. */
  lemma NoBacktickNoBlocks(s: string, vp: VaultProperties, h: Host, d: Delimiters)
    requires '`' !in s
    ensures ReplaceBlocks(s, vp, h, d) == Some(s)
  {
    forall j | 0 <= j <= |s| ensures BlockAt(s, j).None? {
      if j + 3 <= |s| {
        assert s[j..j + 3][0] == s[j];
      }
    }
    BlocksKeptFrom(s, 0, vp, h, d);
  }

  /** A note made of one current-form placeholder, without backticks, is
      rewritten by version 3 to that placeholder showing its query's value;
      and rendering that again changes nothing. */
  lemma RenderSingle(q: string, body: string, vp: VaultProperties, h: Host, d: Delimiters)
    requires |q| > 0 && '"' !in q && '`' !in q
    requires '`' !in body && NoEndTagWithin(body)
    requires var b := QueryBody(q, vp, h, d); '`' !in b && NoEndTagWithin(b)
    ensures V3Pass(Canonical(q, body), vp, h, d) == Some(QueryRendering(q, vp, h, d))
    ensures V3Pass(QueryRendering(q, vp, h, d), vp, h, d) == Some(QueryRendering(q, vp, h, d))
  {
    RenderSingleOnce(q, body, vp, h, d);
    RenderSingleOnce(q, QueryBody(q, vp, h, d), vp, h, d);
  }

  lemma RenderSingleOnce(q: string, body: string, vp: VaultProperties, h: Host, d: Delimiters)
    requires |q| > 0 && '"' !in q && '`' !in q
    requires '`' !in body && NoEndTagWithin(body)
    ensures V3Pass(Canonical(q, body), vp, h, d) == Some(QueryRendering(q, vp, h, d))
  {
    var s := Canonical(q, body);
    assert '`' !in s;
    NoBacktickNoBlocks(s, vp, h, d);
    CanonicalMatches(q, body);
    QueryPassSingle(s, q, vp, h, d);
  }

  /** A text that is one placeholder becomes that placeholder's rendering. */
  lemma QueryPassSingle(s: string, q: string, vp: VaultProperties, h: Host, d: Delimiters)
    requires Matches(s, QueryMarker) == [Match(s, q)]
    ensures QueryPass(s, QueryMarker, vp, h, d) == QueryRendering(q, vp, h, d)
  {
    var r := QueryRendering(q, vp, h, d);
    var edits := QueryEdits(Matches(s, QueryMarker), vp, h, d);
    assert edits == [Edit(s, r)];
    ReplaceWhole(s, r);
    assert ReplaceEach(s, edits) == ReplaceEach(r, []);
  }

  /** The error span has no backtick, and ends no placeholder early. */
  lemma ErrorSpanPlain()
    ensures '`' !in ErrorSpan("Invalid Query") && NoEndTagWithin(ErrorSpan("Invalid Query"))
  {
    ErrorSpanNoEndTag();
  }

  /** Version 1 turns a key into a current-form placeholder whose query is
      `get(KEY)`. */
  lemma IdRenderingMatches(key: string, vp: VaultProperties, h: Host)
    requires '"' !in key
    requires var v := vp.GetProperty(key); !Falsy(v) && '<' !in StringifyIfObj(h, v)
    ensures var r := IdRendering(key, vp, h);
            Matches(r, QueryMarker) == [Match(r, "get(" + key + ")")]
  {
    NoAngleNoEndTag(StringifyIfObj(h, vp.GetProperty(key)));
    CanonicalMatches("get(" + key + ")", StringifyIfObj(h, vp.GetProperty(key)));
  }

  /** The `get(KEY)` query version 1 writes evaluates, on the next render, to
      the value version 1 showed, for a key holding no comma and no outer
      white space, whose query text has nothing to unescape. */
  lemma IdUpgradeEvaluates(key: string, vp: VaultProperties, h: Host, d: Delimiters)
    requires ',' !in key && Trim(key) == key
    requires h.unescape("get(" + key + ")") == "get(" + key + ")"
    requires !Falsy(vp.GetProperty(key))
    ensures QueryValue("get(" + key + ")", vp, h, d) == h.decorate(vp.GetProperty(key))
  {
    SplitTrimWithoutSeparator(key, ',');
    GetQueryValue(key, vp, h, d);
    assert GetFunc([key], vp) == vp.GetProperty(key);
  }

  /** Variables whose values are all undefined leave the code as it is. */
  lemma {:induction false} FillUndefined(code: string, vars: seq<string>, vp: VaultProperties, h: Host, d: Delimiters)
    requires forall i :: 0 <= i < |vars| ==> vp.GetProperty(vars[i]).Undefined?
    ensures FillVariables(code, vars, vp, h, d) == Some(code)
    decreases |vars|
  {
    if |vars| > 0 {
      FillUndefined(code, vars[1..], vp, h, d);
    }
  }

  /** Filling throws exactly when one of the variables holds null. */
  lemma {:induction false} FillThrows(code: string, vars: seq<string>, vp: VaultProperties, h: Host, d: Delimiters)
    ensures FillVariables(code, vars, vp, h, d).None?
            <==> exists i :: 0 <= i < |vars| && vp.GetProperty(vars[i]).Null?
    decreases |vars|
  {
    if |vars| > 0 {
      var v := vp.GetProperty(vars[0]);
      var next := if v.Undefined? || v.Null? then code
                  else ReplaceAllLiteral(code, d.start + vars[0] + d.end, TextOrEmpty(h, v));
      FillThrows(next, vars[1..], vp, h, d);
      if exists i :: 0 <= i < |vars| && vp.GetProperty(vars[i]).Null? {
        var i :| 0 <= i < |vars| && vp.GetProperty(vars[i]).Null?;
        if i > 0 { assert vars[1..][i - 1] == vars[i]; }
      }
      if exists i :: 0 <= i < |vars[1..]| && vp.GetProperty(vars[1..][i]).Null? {
        var i :| 0 <= i < |vars[1..]| && vp.GetProperty(vars[1..][i]).Null?;
        assert vars[i + 1] == vars[1..][i];
      }
    }
  }

  /** A variable written once in the code has that one occurrence replaced by
      its value's text. */
  lemma FillOne(a: string, name: string, b: string, vp: VaultProperties, h: Host, d: Delimiters)
    requires var v := vp.GetProperty(name); !v.Undefined? && !v.Null?
    requires var tok := d.start + name + d.end;
             |tok| > 0 && forall k :: 0 <= k < |a| + |tok| + |b| && k != |a| ==> !StartsAt(a + tok + b, k, tok)
    ensures FillVariables(a + (d.start + name + d.end) + b, [name], vp, h, d)
            == Some(a + TextOrEmpty(h, vp.GetProperty(name)) + b)
  {
    var tok := d.start + name + d.end;
    ReplaceAllOnce(a, tok, b, TextOrEmpty(h, vp.GetProperty(name)));
  }
}
