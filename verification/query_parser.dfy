/** The query language of live variables (src/VariableQueryParser.ts): text
    of the form `func(args)` is parsed into a function and its arguments, and
    evaluated against the property store. */
module QueryParser {
  import opened Wrappers
  import opened Strings
  import opened Values
  import opened Scanners
  import opened VaultProps

  /** The supported functions, in the order the call pattern tries them. */
  datatype Func = Sum | Get | Concat | JsFunc | CodeBlock

  function FuncName(f: Func): string {
    match f
    case Sum => "sum"
    case Get => "get"
    case Concat => "concat"
    case JsFunc => "jsFunc"
    case CodeBlock => "codeBlock"
  }

  datatype VarQuery = VarQuery(func: Func, args: seq<string>)

  /** The start and end markers of a placeholder inside a code block (`{{` and `}}` by default). */
  datatype Delimiters = Delimiters(start: string, end: string)

  // ---------------------------------------------------------------------------
  // parseQuery: the pattern `(sum|get|concat|jsFunc|codeBlock)\(([\s\S]*)\)`

  /** The function whose name and opening parenthesis start at index `i`. */
  function CallAt(q: string, i: nat): (r: Option<Func>)
    ensures r.Some? ==> StartsAt(q, i, FuncName(r.value) + "(")
    ensures r.None? ==> forall f: Func :: !StartsAt(q, i, FuncName(f) + "(")
  {
    if StartsAt(q, i, FuncName(Sum) + "(") then Some(Sum)
    else if StartsAt(q, i, FuncName(Get) + "(") then Some(Get)
    else if StartsAt(q, i, FuncName(Concat) + "(") then Some(Concat)
    else if StartsAt(q, i, FuncName(JsFunc) + "(") then Some(JsFunc)
    else if StartsAt(q, i, FuncName(CodeBlock) + "(") then Some(CodeBlock)
    else None
  }

  /** The index where the arguments of the call starting at `i` begin. */
  function BodyStart(q: string, i: nat): nat
    requires CallAt(q, i).Some?
  {
    i + |FuncName(CallAt(q, i).value)| + 1
  }

  /** The pattern matches at `i`: a call starts there and a ')' follows it,
      the last ')' of the text closing the greedy argument body. */
  predicate CallMatchesAt(q: string, i: nat) {
    CallAt(q, i).Some? && LastIndexOf(q, ')') >= BodyStart(q, i)
  }

  /** The leftmost index where the pattern matches (it is not anchored). */
  function FindCall(q: string): (r: Option<nat>)
    ensures r.None? ==> forall i: nat :: !CallMatchesAt(q, i)
    ensures r.Some? ==> r.value < |q| && CallMatchesAt(q, r.value)
                        && forall i: nat :: i < r.value ==> !CallMatchesAt(q, i)
  {
    var ok := (i: nat) => CallMatchesAt(q, i);
    var r := Leftmost(0, |q|, ok);
    assert forall i: nat :: i >= |q| ==> !CallMatchesAt(q, i);
    assert forall i: nat :: ok(i) == CallMatchesAt(q, i);
    r
  }

  /** The argument text of the call matched at `i`: from its '(' to the last ')'. */
  function ArgsText(q: string, i: nat): string
    requires CallMatchesAt(q, i)
  {
    q[BodyStart(q, i)..LastIndexOf(q, ')')]
  }

  /** `parseQuery(query)`: the function and the parsed arguments of the
      leftmost call, whose argument text runs to the last ')'; an error when
      no call matches, and the arguments' own error when they do not parse. */
  function ParseQuery(q: string): (r: Result<VarQuery, string>)
    ensures (forall i: nat :: !CallMatchesAt(q, i)) ==> r == Failure("error parsing ref: " + q + ".")
    ensures FindCall(q).Some? ==>
              var i := FindCall(q).value;
              var f := CallAt(q, i).value;
              var parsed := ParseArgs(f, ArgsText(q, i));
              (parsed.Success? ==> r == Success(VarQuery(f, parsed.value)))
              && (parsed.Failure? ==> r == Failure(parsed.error))
  {
    match FindCall(q)
    case None => Failure("error parsing ref: " + q + ".")
    case Some(i) =>
      var f := CallAt(q, i).value;
      match ParseArgs(f, ArgsText(q, i))
      case Failure(e) => Failure(e)
      case Success(args) => Success(VarQuery(f, args))
  }

  /** `tryParseQuery(query)`: the parsed query, or nothing where parsing throws. */
  function TryParseQuery(q: string): (r: Option<VarQuery>)
    ensures r.None? <==> ParseQuery(q).Failure?
    ensures r.Some? ==> Success(r.value) == ParseQuery(q)
  {
    match ParseQuery(q)
    case Failure(_) => None
    case Success(vq) => Some(vq)
  }

  /** `parseArgs(func, argsStr)`: the grammar of each function. */
  function ParseArgs(f: Func, body: string): (r: Result<seq<string>, string>)
    ensures !f.JsFunc? && !f.CodeBlock? ==> r.Success? && |r.value| == Count(body, ',') + 1
    ensures !f.JsFunc? && !f.CodeBlock? ==> forall i :: 0 <= i < |r.value| ==> r.value[i] == Trim(Split(body, ',')[i])
  {
    match f
    case JsFunc => ParseJsFuncArgs(body)
    case CodeBlock => ParseCodeBlockArgs(body)
    case _ => Success(SplitTrim(body, ','))
  }

  /** The paths written before the keyword part: none when that text is
      empty, otherwise its comma-separated pieces, trimmed. */
  function PathList(paths: string): seq<string> {
    if |paths| == 0 then [] else SplitTrim(paths, ',')
  }

  // ---------------------------------------------------------------------------
  // jsFunc: the pattern `(.*),\s*func\s*=\s*(.+)\s*`

  /** A comma from which `\s*func\s*=\s*(.+)` matches. */
  predicate FuncComma(s: string, c: nat) {
    c < |s| && s[c] == ',' && KeywordValue(s, c + 1, "func").Some?
  }

  /** No comma after `c` opens a `func` part. */
  predicate NoFuncPartAfter(s: string, c: nat) {
    forall k :: c < k < |s| ==> !FuncComma(s, k)
  }

  function FuncCommaIn(s: string): nat -> bool {
    (c: nat) => FuncComma(s, c)
  }

  /** The greedy `(.*)` from `p`: the last usable comma on that line. */
  function FuncCommaFrom(s: string, p: nat): Option<nat>
    requires p <= |s|
  {
    Rightmost(p, LineEnd(s, p), FuncCommaIn(s))
  }

  /** The pattern matches from index `p`. */
  function FuncStartIn(s: string): nat -> bool {
    (p: nat) => p < |s| && FuncCommaFrom(s, p).Some?
  }

  /** The leftmost index at which the pattern matches. */
  function FuncMatchStart(s: string): Option<nat> {
    Leftmost(0, |s|, FuncStartIn(s))
  }

  /** `parseJsFuncArgs(argsStr)`: the lambda text, then the paths before it. */
  function ParseJsFuncArgs(s: string): (r: Result<seq<string>, string>)
    ensures r.Success? ==> |r.value| >= 1 && |r.value[0]| > 0 && NoLineTerminator(r.value[0])
    ensures r.Failure? <==> FuncMatchStart(s).None?
  {
    match FuncMatchStart(s)
    case None => Failure("parseArgs error")
    case Some(p) =>
      var c := FuncCommaFrom(s, p).value;
      var lambda := KeywordValue(s, c + 1, "func").value;
      Success([lambda] + PathList(s[p..c]))
  }

  /** Without the keyword `func` the arguments of jsFunc never parse. */
  lemma JsFuncNeedsKeyword(s: string)
    requires !Contains(s, "func")
    ensures ParseJsFuncArgs(s).Failure?
  {

  }

  /** `, kw = ` written at `c`: the keyword part after the comma matches and
      ends just past the '='. */
  lemma KeywordWritten(s: string, c: nat, kw: string)
    requires |kw| > 0 && !IsWs(kw[0])
    requires StartsAt(s, c, ", " + kw + " = ")
    ensures KeywordEquals(s, c + 1, kw) == Some(c + |kw| + 4)
  {
    var w := ", " + kw + " = ";
    assert s[c + 1] == w[1] && s[c + 2] == w[2] == kw[0];
    assert SkipWs(s, c + 1) == c + 2;
    assert w[2..2 + |kw|] == kw;
    assert s[c + 2..c + 2 + |kw|] == s[c..c + |w|][2..2 + |kw|];
    assert s[c + 2 + |kw|] == w[2 + |kw|] == ' ';
    assert s[c + 3 + |kw|] == w[3 + |kw|] == '=';
    assert SkipWs(s, c + 2 + |kw|) == c + 3 + |kw|;
  }

  /** A value written after ` = ` up to the end of the text is captured whole. */
  lemma ValueWritten(s: string, q: nat, v: string)
    requires q < |s| && s[q] == ' ' && s[q + 1..] == v
    requires |v| > 0 && !IsWs(v[0]) && NoLineTerminator(v)
    ensures RestOfLine(s, q) == Some(v)
  {
    assert s[q + 1] == v[0];
    assert SkipWs(s, q) == q + 1;
    assert forall k :: q + 1 <= k < |s| ==> !IsLineTerminator(s[k]) by {
      forall k | q + 1 <= k < |s| ensures !IsLineTerminator(s[k]) { assert s[k] == v[k - q - 1]; }
    }
    assert LineEnd(s, q + 1) == |s|;
    assert s[q + 1..|s|] == v;
  }

  /** The whole of `kw = v` at the end of the text, after the comma at `c`. */
  lemma KeywordValueWritten(s: string, c: nat, kw: string, v: string)
    requires |kw| > 0 && !IsWs(kw[0])
    requires c + |kw| + 5 <= |s| && s[c..c + |kw| + 5] == ", " + kw + " = " && s[c + |kw| + 5..] == v
    requires |v| > 0 && !IsWs(v[0]) && NoLineTerminator(v)
    ensures KeywordValue(s, c + 1, kw) == Some(v)
  {
    KeywordWritten(s, c, kw);
    var w := ", " + kw + " = ";
    assert s[c + |kw| + 4] == w[|kw| + 4] == ' ';
    ValueWritten(s, c + |kw| + 4, v);
  }

  /** Arguments written as `paths, func = lambda` on one line parse back into
      the lambda followed by the paths in their written order. The lambda may
      hold commas (`(x, y) => x * y`); only a later comma that itself opens a
      `func =` part would draw the greedy `(.*)` past the written one. */
  lemma JsFuncRoundTrip(paths: string, lambda: string)
    requires NoLineTerminator(paths)
    requires |lambda| > 0 && !IsWs(lambda[0]) && NoLineTerminator(lambda)
    requires NoFuncPartAfter(paths + ", func = " + lambda, |paths|)
    ensures ParseJsFuncArgs(paths + ", func = " + lambda) == Success([lambda] + PathList(paths))
  {
    var s := paths + ", func = " + lambda;
    var c := |paths|;
    var l := c + 9;
    assert s[..c] == paths && s[c..l] == ", func = " && s[l..] == lambda;
    assert NoLineTerminator(s) by {
      forall k | 0 <= k < |s| ensures !IsLineTerminator(s[k]) {
        if k < c { assert s[k] == paths[k]; }
        else if k >= l { assert s[k] == lambda[k - l]; }
        else { assert s[k] == ", func = "[k - c]; }
      }
    }
    JsFuncParsed(s, paths, lambda);
  }

  /** A lambda in which the word `func` does not occur opens no second
      `func` part, whatever commas it holds. */
  lemma NoKeywordNoFuncPart(paths: string, lambda: string)
    requires !Contains(lambda, "func")
    ensures NoFuncPartAfter(paths + ", func = " + lambda, |paths|)
  {
    var s := paths + ", func = " + lambda;
    var l := |paths| + 9;
    assert s[|paths|..l] == ", func = " && s[l..] == lambda;
    forall k | |paths| < k < |s| ensures !FuncComma(s, k) {
      if k < l {
        assert s[k] == s[|paths|..l][k - |paths|];
      } else if FuncComma(s, k) {
        KeywordInTail(s, lambda, l, SkipWs(s, k + 1), "func");
      }
    }
  }

  /** An occurrence of `kw` at `a` in the text, past the start `l` of the
      `tail` that ends it, is an occurrence in `tail`. */
  lemma KeywordInTail(s: string, tail: string, l: nat, a: nat, kw: string)
    requires l <= a && l <= |s| && s[l..] == tail && StartsAt(s, a, kw)
    ensures Contains(tail, kw)
  {
    forall k | a - l <= k < a - l + |kw| ensures tail[k] == s[l + k] {
      assert tail[k] == s[l..][k];
    }
    assert tail[a - l..a - l + |kw|] == s[a..a + |kw|];
    ContainsAt(tail, kw, a - l);
  }

  /** The same, for text laid out as `paths, func = lambda`. */
  lemma JsFuncParsed(s: string, paths: string, lambda: string)
    requires |lambda| > 0 && !IsWs(lambda[0]) && NoLineTerminator(s)
    requires |s| == |paths| + 9 + |lambda|
    requires s[..|paths|] == paths && s[|paths|..|paths| + 9] == ", func = " && s[|paths| + 9..] == lambda
    requires NoFuncPartAfter(s, |paths|)
    ensures ParseJsFuncArgs(s) == Success([lambda] + PathList(paths))
  {
    var c := |paths|;
    KeywordValueWritten(s, c, "func", lambda);
    assert LineEnd(s, 0) == |s|;
    RightmostIs(0, |s|, FuncCommaIn(s), c);
    LeftmostIs(0, |s|, FuncStartIn(s), 0);
  }

  // ---------------------------------------------------------------------------
  // codeBlock: the pattern `(.*),\s*code\s*=\s*([\s\S]*)\s*,\s*lang\s*=\s*(.+)\s*`

  /** A comma from which `\s*lang\s*=\s*(.+)` matches. */
  predicate LangComma(s: string, c: nat) {
    c < |s| && s[c] == ',' && KeywordValue(s, c + 1, "lang").Some?
  }

  function LangCommaIn(s: string): nat -> bool {
    (c: nat) => LangComma(s, c)
  }

  /** After the comma at `c`: `\s*code\s*=\s*`, then the greedy `[\s\S]*`
      running to the last comma that a `lang` part follows. The start of the
      code and the index of that comma. */
  function CodeTail(s: string, c: nat): (r: Option<(nat, nat)>)
    requires c < |s|
    ensures r.Some? ==> r.value.0 <= r.value.1 && LangComma(s, r.value.1)
  {
    match KeywordEquals(s, c + 1, "code")
    case None => None
    case Some(q) =>
      var start := SkipWs(s, q);
      match Rightmost(start, |s|, LangCommaIn(s))
      case None => None
      case Some(c2) => Some((start, c2))
  }

  predicate CodeComma(s: string, c: nat) {
    c < |s| && s[c] == ',' && CodeTail(s, c).Some?
  }

  function CodeCommaIn(s: string): nat -> bool {
    (c: nat) => CodeComma(s, c)
  }

  function CodeCommaFrom(s: string, p: nat): Option<nat>
    requires p <= |s|
  {
    Rightmost(p, LineEnd(s, p), CodeCommaIn(s))
  }

  function CodeStartIn(s: string): nat -> bool {
    (p: nat) => p < |s| && CodeCommaFrom(s, p).Some?
  }

  function CodeMatchStart(s: string): Option<nat> {
    Leftmost(0, |s|, CodeStartIn(s))
  }

  /** `parseCodeBlockArgs(argsStr)`: the code, the language, then the paths. */
  function ParseCodeBlockArgs(s: string): (r: Result<seq<string>, string>)
    ensures r.Success? ==> |r.value| >= 2 && |r.value[1]| > 0 && NoLineTerminator(r.value[1])
    ensures r.Failure? <==> CodeMatchStart(s).None?
  {
    match CodeMatchStart(s)
    case None => Failure("parseArgs error")
    case Some(p) =>
      var c1 := CodeCommaFrom(s, p).value;
      var (start, c2) := CodeTail(s, c1).value;
      var lang := KeywordValue(s, c2 + 1, "lang").value;
      Success([s[start..c2], lang] + PathList(s[p..c1]))
  }

  /** Without the keyword `code` the arguments of codeBlock never parse. */
  lemma CodeBlockNeedsKeyword(s: string)
    requires !Contains(s, "code")
    ensures ParseCodeBlockArgs(s).Failure?
  {

  }

  /** Arguments written as `paths, code = CODE, lang = LANG` parse back into
      the code (which may span lines and hold commas, `f(a, b)`), the
      language and the paths in order. Only a later comma on the first line
      that itself opens a `code =` part, or a comma after the code that opens
      a `lang =` part, would draw the greedy groups past the written ones. */
  lemma CodeBlockRoundTrip(paths: string, code: string, lang: string)
    requires NoLineTerminator(paths)
    requires |code| > 0 && !IsWs(code[0])
    requires |lang| > 0 && !IsWs(lang[0]) && NoLineTerminator(lang)
    requires var s := paths + ", code = " + code + ", lang = " + lang;
             NoCodePartAfter(s, |paths|) && NoLangPartAfter(s, |paths| + 9 + |code|)
    ensures ParseCodeBlockArgs(paths + ", code = " + code + ", lang = " + lang)
            == Success([code, lang] + PathList(paths))
  {
    var s := paths + ", code = " + code + ", lang = " + lang;
    CodeBlockSlices(s, paths, code, lang);
    CodeBlockLaidOutParsed(s, paths, code, lang);
  }

  /** A language in which the word `lang` does not occur opens no second
      `lang` part. */
  lemma NoKeywordNoLangPart(prefix: string, lang: string)
    requires !Contains(lang, "lang")
    ensures NoLangPartAfter(prefix + ", lang = " + lang, |prefix|)
  {
    var s := prefix + ", lang = " + lang;
    var l := |prefix| + 9;
    assert s[|prefix|..l] == ", lang = " && s[l..] == lang;
    forall k | |prefix| < k < |s| ensures !LangComma(s, k) {
      if k < l {
        assert s[k] == s[|prefix|..l][k - |prefix|];
      } else if LangComma(s, k) {
        KeywordInTail(s, lang, l, SkipWs(s, k + 1), "lang");
      }
    }
  }

  /** The same, for text whose parts lie where `CodeBlockSlices` puts them. */
  lemma CodeBlockLaidOutParsed(s: string, paths: string, code: string, lang: string)
    requires NoLineTerminator(paths)
    requires |code| > 0 && !IsWs(code[0])
    requires |lang| > 0 && !IsWs(lang[0]) && NoLineTerminator(lang)
    requires |s| == |paths| + |code| + |lang| + 18
    requires s[..|paths|] == paths && s[|paths|..|paths| + 9] == ", code = "
    requires s[|paths| + 9..|paths| + 9 + |code|] == code
    requires s[|paths| + 9 + |code|..|paths| + 9 + |code| + 9] == ", lang = "
    requires s[|paths| + 9 + |code| + 9..] == lang
    requires NoCodePartAfter(s, |paths|) && NoLangPartAfter(s, |paths| + 9 + |code|)
    ensures ParseCodeBlockArgs(s) == Success([code, lang] + PathList(paths))
  {
    CodeBlockLaidOut(s, paths, code, lang);
    CodeBlockParsed(s, |paths|, |paths| + 9, |paths| + 9 + |code|, paths, code, lang);
  }

  /** The facts about a match of the pattern whose first code part follows
      the comma `c1`, whose code is `s[cs..c2]` and whose language part
      follows the comma `c2`. */
  predicate CodeBlockMatch(s: string, c1: nat, cs: nat, c2: nat, lang: string) {
    c1 < cs <= c2 < |s| && s[c1] == ','
    && KeywordEquals(s, c1 + 1, "code") == Some(cs - 1) && SkipWs(s, cs - 1) == cs
    && Rightmost(cs, |s|, LangCommaIn(s)) == Some(c2)
    && KeywordValue(s, c2 + 1, "lang") == Some(lang)
    && NoCodePartAfter(s, c1)
  }

  /** No comma after `c` on the first line opens a `code` part. */
  predicate NoCodePartAfter(s: string, c: nat) {
    forall k :: c < k < LineEnd(s, 0) ==> !CodeComma(s, k)
  }

  /** No comma after `c` opens a `lang` part. */
  predicate NoLangPartAfter(s: string, c: nat) {
    forall k :: c < k < |s| ==> !LangComma(s, k)
  }

  /** How the pattern matches text whose parts lie where `CodeBlockSlices`
      puts them: from the start, with the code part at the first comma after
      the paths and the language part at the comma after the code. */
  lemma CodeBlockLaidOut(s: string, paths: string, code: string, lang: string)
    requires NoLineTerminator(paths)
    requires |code| > 0 && !IsWs(code[0])
    requires |lang| > 0 && !IsWs(lang[0]) && NoLineTerminator(lang)
    requires |s| == |paths| + |code| + |lang| + 18
    requires s[..|paths|] == paths && s[|paths|..|paths| + 9] == ", code = "
    requires s[|paths| + 9..|paths| + 9 + |code|] == code
    requires s[|paths| + 9 + |code|..|paths| + 9 + |code| + 9] == ", lang = "
    requires s[|paths| + 9 + |code| + 9..] == lang
    requires NoCodePartAfter(s, |paths|) && NoLangPartAfter(s, |paths| + 9 + |code|)
    ensures CodeBlockMatch(s, |paths|, |paths| + 9, |paths| + 9 + |code|, lang)
  {
    var c1 := |paths|;
    var cs := c1 + 9;
    var c2 := cs + |code|;
    assert c1 < cs <= c2 < |s| && s[c1] == ',' by {
      assert s[c1] == s[c1..cs][0];
    }
    LangPartWritten(s, c2, lang, cs);
    CodePartWritten(s, c1, code);
  }

  /** Where the parts of `paths, code = CODE, lang = LANG` lie. */
  lemma CodeBlockSlices(s: string, paths: string, code: string, lang: string)
    requires s == paths + ", code = " + code + ", lang = " + lang
    ensures |s| == |paths| + |code| + |lang| + 18
    ensures s[..|paths|] == paths && s[|paths|..|paths| + 9] == ", code = "
    ensures s[|paths| + 9..|paths| + 9 + |code|] == code
    ensures s[|paths| + 9 + |code|..|paths| + 9 + |code| + 9] == ", lang = "
    ensures s[|paths| + 9 + |code| + 9..] == lang
  {
  }

  /** Text that starts with a line without terminators and then a comma
      reaches past that comma before its first line break. */
  lemma BeforeLineEnd(s: string, paths: string)
    requires |paths| < |s| && s[..|paths|] == paths && NoLineTerminator(paths) && s[|paths|] == ','
    ensures |paths| < LineEnd(s, 0)
  {
    forall k | 0 <= k < |paths| ensures !IsLineTerminator(s[k]) {
      assert s[k] == s[..|paths|][k];
    }
  }

  /** The parse of text whose first code part starts at the comma `c1`, holds
      the code `s[cs..c2]`, and whose language part follows the comma `c2`. */
  lemma CodeBlockParsed(s: string, c1: nat, cs: nat, c2: nat, paths: string, code: string, lang: string)
    requires CodeBlockMatch(s, c1, cs, c2, lang)
    requires NoLineTerminator(paths) && s[..c1] == paths && s[cs..c2] == code
    ensures ParseCodeBlockArgs(s) == Success([code, lang] + PathList(paths))
  {
    BeforeLineEnd(s, paths);
    CodeTailIs(s, c1, cs, c2);
    CodeCommaFromIs(s, c1);
    LeftmostIs(0, |s|, CodeStartIn(s), 0);
    ParseCodeBlockArgsFrom(s, c1, cs, c2, lang);
    assert s[0..c1] == paths;
  }

  lemma CodeTailIs(s: string, c1: nat, cs: nat, c2: nat)
    requires c1 < cs <= |s|
    requires KeywordEquals(s, c1 + 1, "code") == Some(cs - 1) && SkipWs(s, cs - 1) == cs
    requires Rightmost(cs, |s|, LangCommaIn(s)) == Some(c2)
    ensures CodeTail(s, c1) == Some((cs, c2))
  {
    var start := SkipWs(s, cs - 1);
    assert start == cs;
    assert Rightmost(start, |s|, LangCommaIn(s)) == Some(c2);
  }

  lemma CodeCommaFromIs(s: string, c1: nat)
    requires c1 < LineEnd(s, 0)
    requires CodeComma(s, c1) && NoCodePartAfter(s, c1)
    ensures CodeCommaFrom(s, 0) == Some(c1)
  {
    RightmostIs(0, LineEnd(s, 0), CodeCommaIn(s), c1);
  }

  lemma ParseCodeBlockArgsFrom(s: string, c1: nat, cs: nat, c2: nat, lang: string)
    requires CodeMatchStart(s) == Some(0) && CodeCommaFrom(s, 0) == Some(c1)
    requires CodeTail(s, c1) == Some((cs, c2)) && KeywordValue(s, c2 + 1, "lang") == Some(lang)
    ensures ParseCodeBlockArgs(s) == Success([s[cs..c2], lang] + PathList(s[0..c1]))
  {
  }

  /** `, lang = LANG` at the end of the text, with no later comma that opens a `lang` part:
      that comma is the last one a `lang` part follows, from any `lo` before it. */
  lemma LangPartWritten(s: string, c2: nat, lang: string, lo: nat)
    requires lo <= c2 && c2 + 9 <= |s| && s[c2..c2 + 9] == ", lang = " && s[c2 + 9..] == lang
    requires |lang| > 0 && !IsWs(lang[0]) && NoLineTerminator(lang)
    requires NoLangPartAfter(s, c2)
    ensures KeywordValue(s, c2 + 1, "lang") == Some(lang)
    ensures Rightmost(lo, |s|, LangCommaIn(s)) == Some(c2)
  {
    KeywordValueWritten(s, c2, "lang", lang);
    RightmostIs(lo, |s|, LangCommaIn(s), c2);
  }

  /** `, code = CODE` at `c1`: the keyword and '=' match, then the code starts. */
  lemma CodePartWritten(s: string, c1: nat, code: string)
    requires c1 + 9 + |code| <= |s| && s[c1..c1 + 9] == ", code = " && s[c1 + 9..c1 + 9 + |code|] == code
    requires |code| > 0 && !IsWs(code[0])
    ensures KeywordEquals(s, c1 + 1, "code") == Some(c1 + 9 - 1)
    ensures SkipWs(s, c1 + 9 - 1) == c1 + 9
  {
    KeywordWritten(s, c1, "code");
    assert s[c1 + 8] == s[c1..c1 + 9][8] == ' ';
    assert s[c1 + 9] == s[c1 + 9..c1 + 9 + |code|][0] == code[0];
  }

  // ---------------------------------------------------------------------------
  // Evaluation

  /** `args.map(id => vaultProperties.getProperty(id))`. */
  function Resolve(args: seq<string>, vp: VaultProperties): (r: seq<Value>)
    reads vp
    ensures |r| == |args|
    ensures forall i :: 0 <= i < |args| ==> r[i] == vp.GetProperty(args[i])
  {
    if |args| == 0 then [] else [vp.GetProperty(args[0])] + Resolve(args[1..], vp)
  }

  /** `getFunc(args)`: the value of the first path, or '' when there is none
      or it is undefined or null. */
  function GetFunc(args: seq<string>, vp: VaultProperties): (r: Value)
    reads vp
    ensures !r.Undefined? && !r.Null?
    ensures |args| == 0 ==> r == Str("")
    ensures (|args| > 0 && !vp.GetProperty(args[0]).Undefined? && !vp.GetProperty(args[0]).Null?)
            ==> r == vp.GetProperty(args[0])
  {
    var values := Resolve(args, vp);
    if |values| == 0 || values[0].Undefined? || values[0].Null? then Str("") else values[0]
  }

  /** `a as number` for a value the type check reported as a number. */
  function NumberOf(v: Value): real {
    if v.Num? then v.n else 0.0
  }

  /** The arithmetic sum of the values, first to last. */
  function Total(vs: seq<Value>): real {
    if |vs| == 0 then 0.0 else NumberOf(vs[0]) + Total(vs[1..])
  }

  /** The stringified values, first to last, one after the other. */
  function ConcatAll(h: Host, vs: seq<Value>): string {
    if |vs| == 0 then "" else StringifyIfObj(h, vs[0]) + ConcatAll(h, vs[1..])
  }

  /** `values.reduce(...)` in the numeric case. */
  function FoldSum(acc: real, vs: seq<Value>): real
    decreases |vs|
  {
    if |vs| == 0 then acc else FoldSum(acc + NumberOf(vs[0]), vs[1..])
  }

  /** `values.reduce(...)` in the textual case, the accumulator being a value. */
  function FoldConcat(h: Host, acc: Value, vs: seq<Value>): Value
    decreases |vs|
  {
    if |vs| == 0 then acc
    else FoldConcat(h, Str(StringifyIfObj(h, acc) + StringifyIfObj(h, vs[0])), vs[1..])
  }

  lemma {:induction false} FoldSumTotal(acc: real, vs: seq<Value>)
    ensures FoldSum(acc, vs) == acc + Total(vs)
    decreases |vs|
  {
    if |vs| > 0 { FoldSumTotal(acc + NumberOf(vs[0]), vs[1..]); }
  }

  lemma {:induction false} FoldConcatAll(h: Host, acc: string, vs: seq<Value>)
    ensures FoldConcat(h, Str(acc), vs) == Str(acc + ConcatAll(h, vs))
    decreases |vs|
  {
    if |vs| > 0 {
      FoldConcatAll(h, acc + StringifyIfObj(h, vs[0]), vs[1..]);
      assert acc + StringifyIfObj(h, vs[0]) + ConcatAll(h, vs[1..]) == acc + ConcatAll(h, vs);
    }
  }

  /** `sumFunc(args)`: when the type check reports numbers, their sum from 0;
      otherwise the stringified values concatenated from ''. */
  function SumFunc(args: seq<string>, vp: VaultProperties, h: Host): (r: Value)
    reads vp
    ensures h.arrayType(Resolve(args, vp)) == "number" ==> r == Num(Total(Resolve(args, vp)))
    ensures h.arrayType(Resolve(args, vp)) != "number" ==> r == Str(ConcatAll(h, Resolve(args, vp)))
  {
    var values := Resolve(args, vp);
    if h.arrayType(values) == "number" then
      FoldSumTotal(0.0, values);
      Num(FoldSum(0.0, values))
    else
      FoldConcatAll(h, "", values);
      FoldConcat(h, Str(""), values)
  }

  /** `customJsFunc(args)`: the lambda `args[0]` applied to the values of the
      other paths; undefined when there is no lambda, when a value is
      undefined, or when compiling or calling the lambda throws. */
  function CustomJsFunc(args: seq<string>, vp: VaultProperties, h: Host): (r: Value)
    reads vp
    ensures |args| == 0 ==> r == Undefined
    ensures |args| > 0 && Undefined in Resolve(args[1..], vp) ==> r == Undefined
    ensures |args| > 0 && Undefined !in Resolve(args[1..], vp) ==>
              r == h.invoke(args[0], Resolve(args[1..], vp)).GetOr(Undefined)
  {
    if |args| == 0 then Undefined  // `return undefined` yields no function to call
    else
      var values := Resolve(args[1..], vp);
      if Undefined in values then Undefined
      else
        match h.invoke(args[0], values)
        case None => Undefined
        case Some(v) => v
  }

  /** The guard runs before the lambda: with an undefined value the result
      does not depend on what the lambda does. */
  lemma CustomJsFuncGuard(args: seq<string>, vp: VaultProperties, h1: Host, h2: Host)
    requires |args| > 0 && Undefined in Resolve(args[1..], vp)
    ensures CustomJsFunc(args, vp, h1) == CustomJsFunc(args, vp, h2) == Undefined
  {
  }

  /** The fenced block `codeBlockFunc` returns, before unescaping. */
  function Fence(lang: string, code: string): string {
    "\n```" + lang + "\n" + code + "\n```\n"
  }

  /** The `forEach` of `codeBlockFunc`: each value in turn replaces every
      delimiter span still in the code. */
  function FillSpans(code: string, vs: seq<Value>, h: Host, d: Delimiters): string
    decreases |vs|
  {
    if |vs| == 0 then code
    else FillSpans(ReplaceSpans(code, d.start, d.end, TextOrEmpty(h, vs[0])), vs[1..], h, d)
  }

  /** Code without spans is left as it is by any number of values. */
  lemma {:induction false} FillSpansNoSpans(code: string, vs: seq<Value>, h: Host, d: Delimiters)
    requires NoSpans(code, d.start, d.end)
    ensures FillSpans(code, vs, h, d) == code
    decreases |vs|
  {
    if |vs| > 0 {
      NoSpansUnchanged(code, d.start, d.end, TextOrEmpty(h, vs[0]));
      FillSpansNoSpans(code, vs[1..], h, d);
    }
  }

  /** The first value fills every span; once its text has left no span behind,
      the later values change nothing. */
  lemma FillSpansFirstValue(code: string, vs: seq<Value>, h: Host, d: Delimiters)
    requires |vs| > 0
    requires NoSpans(ReplaceSpans(code, d.start, d.end, TextOrEmpty(h, vs[0])), d.start, d.end)
    ensures FillSpans(code, vs, h, d) == ReplaceSpans(code, d.start, d.end, TextOrEmpty(h, vs[0]))
  {
    FillSpansNoSpans(ReplaceSpans(code, d.start, d.end, TextOrEmpty(h, vs[0])), vs[1..], h, d);
  }

  /** Code with two spans, `a{{x}}b{{y}}c` say, has both filled with the
      first value's text, whatever the later values are. */
  lemma FillTwoSpans(code: string, a: string, x: string, b: string, y: string, c: string, vs: seq<Value>, h: Host, d: Delimiters)
    requires code == a + d.start + x + d.end + b + d.start + y + d.end + c
    requires |vs| > 0
    requires |d.start| > 0 && NoLineTerminator(x) && NoLineTerminator(y) && !Contains(c, d.start)
    requires forall k :: 0 <= k < |a| ==> !StartsAt(code, k, d.start)
    requires forall k :: |a| + |d.start| <= k < |a| + |d.start| + |x| ==> !StartsAt(code, k, d.end)
    requires var k1 := |a| + |d.start| + |x| + |d.end|;
             forall k :: k1 <= k < k1 + |b| ==> !StartsAt(code, k, d.start)
    requires var m2 := |a| + |d.start| + |x| + |d.end| + |b|;
             forall k :: m2 + |d.start| <= k < m2 + |d.start| + |y| ==> !StartsAt(code, k, d.end)
    requires var t := TextOrEmpty(h, vs[0]); NoSpans(a + t + (b + t + c), d.start, d.end)
    ensures var t := TextOrEmpty(h, vs[0]); FillSpans(code, vs, h, d) == a + t + (b + t + c)
  {
    ReplaceTwoSpans(code, a, x, b, y, c, d.start, d.end, TextOrEmpty(h, vs[0]));
    FillSpansFirstValue(code, vs, h, d);
  }

  /** `codeBlockFunc(args)`: the code `args[0]` with its spans filled from
      the values of `args[2..]`, fenced with the language `args[1]` and
      unescaped; a missing code or language reads "undefined". */
  function CodeBlockValue(args: seq<string>, vp: VaultProperties, h: Host, d: Delimiters): (r: Value)
    reads vp
    ensures |args| == 2 ==> r == Str(h.unescape(Fence(args[1], args[0])))
    ensures |args| > 2 ==> r == Str(h.unescape(Fence(args[1], FillSpans(args[0], Resolve(args[2..], vp), h, d))))
  {
    var code := if |args| > 0 then args[0] else "undefined";
    var lang := if |args| > 1 then args[1] else "undefined";
    var values := if |args| > 2 then Resolve(args[2..], vp) else [];
    Str(h.unescape(Fence(lang, FillSpans(code, values, h, d))))
  }

  /** `codeBlockFunc`, with its loop over the values reassigning the code. */
  method CodeBlockFunc(args: seq<string>, vp: VaultProperties, h: Host, d: Delimiters) returns (r: Value)
    ensures r == CodeBlockValue(args, vp, h, d)
  {
    var codeBlock := if |args| > 0 then args[0] else "undefined";
    var lang := if |args| > 1 then args[1] else "undefined";
    var values := if |args| > 2 then Resolve(args[2..], vp) else [];
    var i := 0;
    while i < |values|
      invariant 0 <= i <= |values|
      invariant FillSpans(codeBlock, values[i..], h, d)
                == FillSpans(if |args| > 0 then args[0] else "undefined", values, h, d)
    {
      assert values[i..][1..] == values[i + 1..];
      codeBlock := ReplaceSpans(codeBlock, d.start, d.end, TextOrEmpty(h, values[i]));
      i := i + 1;
    }
    r := Str(h.unescape(Fence(lang, codeBlock)));
  }

  /** `computeValue(varQuery)`: the evaluator of each function; `concat` has none. */
  function ComputeValue(vq: VarQuery, vp: VaultProperties, h: Host, d: Delimiters): (r: Value)
    reads vp
    ensures vq.func == Concat ==> r == Undefined
    ensures vq.func == Get ==> !r.Undefined? && !r.Null?
  {
    match vq.func
    case Sum => SumFunc(vq.args, vp, h)
    case Get => GetFunc(vq.args, vp)
    case Concat => Undefined
    case JsFunc => CustomJsFunc(vq.args, vp, h)
    case CodeBlock => CodeBlockValue(vq.args, vp, h, d)
  }

  /** `tryComputeValueFromQuery(query)`: the decorated value of the parsed
      query, or undefined when the query does not parse. */
  function TryComputeValueFromQuery(query: string, vp: VaultProperties, h: Host, d: Delimiters): (r: Value)
    reads vp
    ensures ParseQuery(query).Failure? ==> r == Undefined
    ensures (forall i: nat :: !CallMatchesAt(query, i)) ==> r == Undefined
    ensures ParseQuery(query).Success? ==> r == h.decorate(ComputeValue(ParseQuery(query).value, vp, h, d))
  {
    match ParseQuery(query)
    case Failure(_) => Undefined
    case Success(vq) => h.decorate(ComputeValue(vq, vp, h, d))
  }

  /** A call written on its own parses into its function and the arguments
      of the whole text between its parentheses, whatever that text holds. */
  lemma ParseCall(f: Func, body: string)
    ensures ParseQuery(FuncName(f) + "(" + body + ")")
            == match ParseArgs(f, body)
               case Failure(e) => Failure(e)
               case Success(args) => Success(VarQuery(f, args))
  {
    var q := FuncName(f) + "(" + body + ")";
    var n := |FuncName(f)|;
    assert q[..n + 1] == FuncName(f) + "(";
    CallAtName(f, q);
    assert LastIndexOf(q, ')') == |q| - 1;
    assert CallMatchesAt(q, 0);
    assert FindCall(q) == Some(0);
    assert q[n + 1..|q| - 1] == body;
  }

  /** The names are told apart by their text: the call found at the start of
      `name(...` is that name's function. */
  lemma CallAtName(f: Func, q: string)
    requires StartsAt(q, 0, FuncName(f) + "(")
    ensures CallAt(q, 0) == Some(f)
  {
    match f
    case Sum =>
    case Get => assert q[0] == 'g';
    case Concat => assert q[0] == 'c' && q[1] == 'o' && q[2] == 'n';
    case JsFunc => assert q[0] == 'j';
    case CodeBlock => assert q[0] == 'c' && q[2] == 'd';
  }

  /** `get(PATHS)` evaluates to the first of the comma-separated, trimmed paths. */
  lemma GetQueryValue(paths: string, vp: VaultProperties, h: Host, d: Delimiters)
    ensures TryComputeValueFromQuery("get(" + paths + ")", vp, h, d)
            == h.decorate(GetFunc(SplitTrim(paths, ','), vp))
  {
    var q := "get(" + paths + ")";
    assert q == FuncName(Get) + "(" + paths + ")";
    ParseCall(Get, paths);
    assert ParseQuery(q) == Success(VarQuery(Get, SplitTrim(paths, ',')));
  }

  // ---------------------------------------------------------------------------
  // getVariableValue

  /** `value !== null ? value : ''`. */
  function NullToEmpty(v: Value): (r: Value)
    ensures !r.Null?
  {
    if v.Null? then Str("") else v
  }

  /** The frontmatter the metadata cache holds for a file. */
  function FrontmatterOf(app: App, file: string): Value {
    if file in app.files then app.files[file] else Undefined
  }

  /** `getVariableValue(id, context)`: the text after the last '/' is the
      property path, the text before it the file (the current file when there
      is no '/'); undefined for an empty id or a missing file, '' for null. */
  function GetVariableValue(id: string, app: Option<App>, currentFile: string): (r: Value)
    ensures id == "" ==> r == Undefined
    ensures !r.Null?
    ensures id != "" && '/' !in id && app.Some? ==>
              r == NullToEmpty(GetValueByPath(FrontmatterOf(app.value, currentFile), id))
  {
    if id == "" then Undefined
    else
      var k := LastIndexOf(id, '/');
      if k == -1 then
        match app
        case None => Undefined
        case Some(a) => NullToEmpty(GetValueByPath(FrontmatterOf(a, currentFile), id))
      else
        match app
        case None => Undefined
        case Some(a) =>
          var filePath := id[..k];
          if filePath !in a.files then Undefined
          else NullToEmpty(GetValueByPath(a.files[filePath], id[k + 1..]))
  }

  /** A file path may hold '/' itself: only the last '/' separates it from
      the property path. */
  lemma GetVariableValueLastSlash(app: App, currentFile: string, filePath: string, prop: string)
    requires '/' !in prop
    ensures GetVariableValue(filePath + "/" + prop, Some(app), currentFile)
            == if filePath in app.files then NullToEmpty(GetValueByPath(app.files[filePath], prop)) else Undefined
  {
    var id := filePath + "/" + prop;
    var n := |filePath|;
    assert id[n] == '/';
    assert forall k :: n < k < |id| ==> id[k] != '/' by {
      forall k | n < k < |id| ensures id[k] != '/' { assert id[k] == prop[k - n - 1]; }
    }
    assert LastIndexOf(id, '/') == n;
    assert id[..n] == filePath && id[n + 1..] == prop;
  }
}
