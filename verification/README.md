# Live variables: the query and placeholder engine

This project models the engine of the Live variables plugin for Obsidian.
A note holds *placeholders*: HTML spans that carry a query such as
`get(price)`, `sum(a, b)`, `jsFunc(a, b, func = (x, y) => x * y)` or
`codeBlock(a, code = …, lang = js)`, followed by the value the query had
when the note was last rendered. The model covers the following parts.

- **Query language** (`query_parser.dfy`, module `QueryParser`).
  - A query of the form `func(args)` is parsed into a function and its
    arguments.
  - It is evaluated against the property store. `get` takes the first value,
    and `sum` adds numbers or concatenates text.
  - `jsFunc` applies a user lambda, but only when every value is defined.
  - `codeBlock` fills `{{…}}` spans in a fenced block.
  - `getVariableValue` splits an id at its last `/`.
- **Property store** (`vault_properties.dfy`, module `VaultProps`). This is the
  `VaultProperties` object.
  - Dotted paths are looked up in frontmatter.
  - Session overrides take precedence over stored values.
  - Every key path of the vault tree is enumerated in pre-order.
  - The cached path lists can be searched.
  - `propertyChanged` detects a change between two frontmatter snapshots.
- **Rendering passes** (`render.dfy`, module `Render`).
  - Version 1 placeholders `<span id="K"/>…<span type="end"/>` are upgraded to
    `get(K)` queries.
  - Version 2 placeholders `<span query="Q"/>…<span type="end"/>` and current
    ones `<span query="Q"></span>…<span type="end"></span>` are rewritten to
    show their query's value.
  - Before the current-form pass, `{{var}}` tokens in fenced code blocks are
    filled in.
- **The "Query variables" command** (`query_command.dfy`, module `QueryCommand`).
  - It scans upward and downward from the cursor line to locate the
    placeholder being edited.
  - It writes the placeholder the query dialog returns into the editor,
    either over the located span or at the selection.
- **Custom functions** (`custom_functions.dfy`, module `CustomFunctions`). The
  registry of named lambdas keeps the names unique.

The plugin's regular expressions are written out as scanners that follow
JavaScript's backtracking order (`scanners.dfy`, and the placeholder and
block scanners in `render.dfy`):
- the leftmost start wins;
- a greedy group takes the longest run that still lets the rest match;
- a lazy group takes the shortest.

`strings.dfy` gives the JavaScript string operations the code uses, among
them `indexOf`, `lastIndexOf`, `split`, `trim` and `replace` with a string
pattern. `values.dfy` gives the JavaScript values the frontmatter holds.

Most helpers whose source is not part of this model are fields of the
`Host` datatype, each an arbitrary total function:
- `stringifyIfObj` on non-strings, `toString`, `JSON.stringify` and `checkArrayTypes`;
- `highlightText` after `addNewLineAtTheStartIfStartingWithMarkdown`;
- `he.unescape`, `htmlEscapeNewLine` and `getNewLinesFromHtmlEscaping`;
- the dynamic compilation of a lambda.

The path lookup `getValueByPath` of `src/utils` is the exception: it is
modelled by the store's own `getValueByPath`.

Obsidian's metadata cache is a map from file path to frontmatter, with an
optional active file. A note being processed is a `VaultFile` object whose
text the passes reassign. The editor is an `Editor` object holding lines and
a selection. A notice is counted rather than shown.

Where the code and the plugin's description differ, the model follows the code:
- `codeBlockFunc` builds its delimiter pattern with the global flag, so the
  first value already fills every `{{…}}` span of the code. The later values
  find nothing left to fill (`QueryParser.FillSpansFirstValue`).
- `get` with no path evaluates to `''`, not `undefined`, because of the
  `?? ''` in `getFunc`.
- The command's comment says the start position is that of the captured
  query. The code stores `match.index`, which is where `<span query="`
  begins. The model stores `match.index`.
- `getProperty` keeps only the first two pieces of `path.split('/')`.
  `getVariableValue` splits at the last `/` instead. Both are modelled as
  written.

## Model

| member | source | states |
|---|---|---|
| Values.Entries | src/VaultProperties.ts:29-36 | `Object.entries(v ?? {})`: an object's fields in order, one entry per array item or character, none for any other value |
| Values.FindFieldUnique | src/VaultProperties.ts:38 | with distinct keys, looking up an entry's key yields that entry's value |
| Values.ToStringOrThrow | src/main.ts:141-145 | `value.toString()` throws exactly for undefined and null, and otherwise gives the value's text |
| Strings.Split | src/VariableQueryParser.ts:84 | `split(c)` gives one piece more than there are separators, no piece holds the separator, and joining the pieces gives the text back |
| Strings.SplitTrim | src/VariableQueryParser.ts:84 | `split(',').map(trim)`: one piece per comma plus one, each the trimmed split piece |
| Strings.ReplaceFirst | src/main.ts:52-57 | `data.replace(text, put)` with a string pattern: unchanged when the text does not occur, otherwise the first occurrence is replaced |
| Strings.ReplaceAllOnce | src/main.ts:142-145 | a global literal replacement of a token that occurs once replaces exactly that occurrence |
| Scanners.RestOfLine | src/VariableQueryParser.ts:89 | `\s*(.+)`: the non-empty rest of the line after the white space, and no match exactly when only line terminators follow |
| Scanners.SpanAt | src/VariableQueryParser.ts:217 | `start(.*?)end`: a match runs from the start delimiter to the nearest end delimiter with no line terminator between |
| Scanners.SpanGroupsEmpty | src/main.ts:133-135 | the list of variables found in a block is empty exactly when no delimiter span occurs in it |
| Scanners.NoSpansUnchanged | src/VariableQueryParser.ts:218-223 | replacing the spans of code that has none leaves it unchanged |
| Scanners.ReplaceOneSpan | src/VariableQueryParser.ts:218-223 | code with one span has exactly that span replaced by the value |
| Scanners.ReplaceTwoSpans | src/VariableQueryParser.ts:217-223 | the global replace puts the replacement for each of two spans and copies the text around them |
| QueryParser.CallAt | src/VariableQueryParser.ts:52-56 | a function is reported at an index exactly when its name and `(` start there |
| QueryParser.FindCall | src/VariableQueryParser.ts:52-57 | the unanchored pattern matches first at the leftmost index where a call starts and a later `)` exists, and nowhere when no index qualifies |
| QueryParser.ParseQuery | src/VariableQueryParser.ts:51-67 | no match gives the error `error parsing ref: Q.`; otherwise the result is decided by the arguments parsed from the text between the leftmost match's `(` and the last `)`: their success gives the function with them, their failure gives that failure |
| QueryParser.ParseCall | src/VariableQueryParser.ts:51-67 | `f(body)` parses to `f` with the arguments of the whole body, whatever parentheses the body holds |
| QueryParser.TryParseQuery | src/VariableQueryParser.ts:69-75 | nothing exactly when `parseQuery` throws, otherwise its result |
| QueryParser.ParseArgs | src/VariableQueryParser.ts:77-86 | for get, sum and concat the arguments are the comma-split pieces, trimmed, one more than the commas |
| QueryParser.ParseJsFuncArgs | src/VariableQueryParser.ts:88-102 | fails exactly when the `, func =` pattern does not match; a success starts with a non-empty one-line lambda |
| QueryParser.JsFuncRoundTrip | src/VariableQueryParser.ts:88-102 | `paths, func = lambda` parses to the lambda followed by the paths in written order (just the lambda when the paths are empty); the lambda may hold commas, and only a later `, func =` part is excluded |
| QueryParser.NoKeywordNoFuncPart | src/VariableQueryParser.ts:88-102 | a lambda that never writes `func` cannot start a later `, func =` part, so the round trip applies to it |
| QueryParser.JsFuncNeedsKeyword | src/VariableQueryParser.ts:88-102 | arguments without `func` throw |
| QueryParser.ParseCodeBlockArgs | src/VariableQueryParser.ts:104-119 | fails exactly when the `code = … , lang =` pattern does not match; a success holds the code, then a non-empty one-line language |
| QueryParser.CodeBlockRoundTrip | src/VariableQueryParser.ts:104-119 | `paths, code = CODE, lang = LANG` parses to the code (which may span lines and hold commas), the language, then the paths in written order; only a later `, code =` or `, lang =` part is excluded |
| QueryParser.NoKeywordNoLangPart | src/VariableQueryParser.ts:104-119 | a language that never writes `lang` cannot start a later `, lang =` part |
| QueryParser.CodeBlockNeedsKeyword | src/VariableQueryParser.ts:104-119 | arguments without `code` throw |
| QueryParser.Resolve | src/VariableQueryParser.ts:166 | each path is mapped to its `getProperty` value, in order |
| QueryParser.GetFunc | src/VariableQueryParser.ts:165-168 | the first path's value when it is neither undefined nor null, `''` otherwise or with no path; never undefined or null |
| QueryParser.FoldSumTotal | src/VariableQueryParser.ts:174-180 | the numeric `reduce` from an accumulator is the accumulator plus the arithmetic sum of the values |
| QueryParser.FoldConcatAll | src/VariableQueryParser.ts:174-180 | the textual `reduce` is the accumulator followed by the stringified values left to right |
| QueryParser.SumFunc | src/VariableQueryParser.ts:170-181 | when the type check reports `number`, the sum from 0; otherwise the concatenation of the stringified values from `''` |
| QueryParser.CustomJsFunc | src/VariableQueryParser.ts:183-202 | undefined with no lambda or when a value is undefined; otherwise the lambda's result, or undefined when compiling or calling it throws |
| QueryParser.CustomJsFuncGuard | src/VariableQueryParser.ts:190-197 | with an undefined value the result is undefined whatever the lambda does |
| QueryParser.FillSpansNoSpans | src/VariableQueryParser.ts:218-223 | code without a delimiter span is left unchanged by any list of values |
| QueryParser.FillSpansFirstValue | src/VariableQueryParser.ts:217-223 | the first value fills every span; once none is left the later values change nothing |
| QueryParser.FillTwoSpans | src/VariableQueryParser.ts:217-223 | code `a{{x}}b{{y}}c` becomes `a t b t c` with `t` the first value's text: both spans get the first value, whatever the later values are |
| QueryParser.CodeBlockValue | src/VariableQueryParser.ts:204-229 | the unescaped fence `\n```lang\ncode\n```\n`; with no path the code is unchanged, otherwise it is filled from the paths' values |
| QueryParser.CodeBlockFunc | src/VariableQueryParser.ts:204-229 | the loop that reassigns the code computes `CodeBlockValue` |
| QueryParser.ComputeValue | src/VariableQueryParser.ts:140-155 | `concat` has no evaluator and gives undefined; `get` never gives undefined or null |
| QueryParser.TryComputeValueFromQuery | src/VariableQueryParser.ts:121-138 | undefined when parsing fails (in particular when no call matches); otherwise the decorated value of the parsed query |
| QueryParser.GetQueryValue | src/VariableQueryParser.ts:121-138 | `get(PATHS)` evaluates to the decorated `getFunc` of the trimmed comma-separated paths |
| QueryParser.GetVariableValue | src/VariableQueryParser.ts:14-35 | undefined for an empty id; never null (null becomes `''`); an id without `/` is looked up in the current file |
| QueryParser.GetVariableValueLastSlash | src/VariableQueryParser.ts:16-31 | only the last `/` separates the file path, which may itself hold `/`, from the property path |
| VaultProps.Step | src/VaultProperties.ts:130-135 | a step from a value that is not of object type gives undefined |
| VaultProps.GetValueByPath | src/VaultProperties.ts:127-136 | undefined for a falsy object or an empty path; a path without a dot is one step |
| VaultProps.WalkUndefined | src/VaultProperties.ts:130-135 | once undefined, the walk stays undefined (it never throws) |
| VaultProps.WalkMissingKey | src/VaultProperties.ts:130-135 | a missing segment anywhere makes the whole lookup undefined |
| VaultProps.WalkConcat | src/VaultProperties.ts:129-135 | walking two key lists in turn is walking their concatenation |
| VaultProps.GetValueByPathCompose | src/VaultProperties.ts:129-135 | for non-empty paths, looking up `p.q` is looking up `q` in the value at `p` |
| VaultProps.AsWrittenMissesDocument | src/VaultProperties.ts:56 | the dotted lookup of a file name like `note.md` misses the document even when the vault root holds it |
| VaultProps.AsWrittenNoLocalKeys | src/VaultProperties.ts:54-58 | after `updateProperties` on such a vault the local key list is empty |
| VaultProps.CorrectedFindsDocument | src/VaultProperties.ts:56 | the corrected lookup finds that document's frontmatter |
| VaultProps.LocateDocumentByNames | src/VaultProperties.ts:56 | the corrected lookup of a `/`-joined path walks its folder and file names in turn |
| VaultProps.AllPathsAreJoinedChains | src/VaultProperties.ts:200-223 | the enumeration is the pre-order list of key chains, each joined to the parent path: each key gives one path, emitted before its descendants' paths |
| VaultProps.ChainsNonEmpty | src/VaultProperties.ts:209-220 | every enumerated path names at least one key |
| VaultProps.LocalChainUsesDots | src/VaultProperties.ts:205-213 | in local mode every join uses `.` |
| VaultProps.InsideDocumentUsesDots | src/VaultProperties.ts:205-206 | below a parent path holding `.md/` the joins use `.`, as in local mode |
| VaultProps.FolderChildUsesSlash | src/VaultProperties.ts:205-213 | outside a document and not local, a key is joined with `/` |
| VaultProps.Filter | src/VaultProperties.ts:163 | `filter`: only kept entries, each kept entry as often as in the list |
| VaultProps.FilterIsSubsequence | src/VaultProperties.ts:170-172 | a filtered list keeps the entries in their original order |
| VaultProps.SameSnapshotUnchanged | src/VaultProperties.ts:27-48 | a snapshot identical to the current properties is no change |
| VaultProps.SplitFirstPieces | src/VaultProperties.ts:109 | the first two pieces of `path.split('/')` are the text before the first `/` and the text from it up to the next `/` |
| VaultProps.VaultProperties.constructor | src/VaultProperties.ts:11-25 | the store starts with the given tree, no local properties, no overrides, and both key lists undefined until the first update |
| VaultProps.VaultProperties.GetProperty | src/VaultProperties.ts:98-121 | an override wins; no active file gives undefined; a path with `/` is looked up in the file named before the first `/` with the next piece as path; any other path in the active file; a missing file or frontmatter gives undefined |
| VaultProps.VaultProperties.TemporaryUpdateVariable | src/VaultProperties.ts:233-234 | the override map gains the entry; `getProperty` then returns the value for that path and the same as before for every other path |
| VaultProps.VaultProperties.GetAllPaths | src/VaultProperties.ts:200-223 | the loop that appends each path and the recursive paths below it computes the pre-order enumeration |
| VaultProps.VaultProperties.UpdateLocalKeysAndAllVariableKeys | src/VaultProperties.ts:184-190 | the local keys are the local enumeration; the combined list is the local keys followed by every global path |
| VaultProps.FilterKeys | src/VaultProperties.ts:163 | `list.filter(keep)` throws exactly when the list is undefined, and otherwise keeps the entries `keep` accepts |
| VaultProps.VaultProperties.UpdateProperties | src/VaultProperties.ts:54-58 | the store holds the new tree, the active file's properties as the dotted lookup of its path finds them, and both key lists rebuilt from them |
| VaultProps.VaultProperties.FindLocalPathsContaining | src/VaultProperties.ts:159-164 | an empty search gives the local key list as it is, undefined before the first update; otherwise exactly the local keys containing the search, in order, and a throw when the list is undefined |
| VaultProps.VaultProperties.FindPathsContaining | src/VaultProperties.ts:166-173 | an empty search gives the combined list as it is, undefined before the first update; otherwise exactly its entries containing the search, in order, and a throw when the list is undefined |
| VaultProps.VaultProperties.FindPathsStartingWith | src/VaultProperties.ts:175-182 | an empty search gives the combined list as it is, undefined before the first update; otherwise exactly its entries starting with the search, in order, and a throw when the list is undefined |
| VaultProps.VaultProperties.PropertyChanged | src/VaultProperties.ts:27-48 | true exactly when the entry counts differ, or the current properties are of object type and some new entry serialises differently from the current value of its key |
| CustomFunctions.CreateCustomFunction | src/service/function.ts:25-33 | the record holds exactly the given name and code |
| CustomFunctions.SavedExisting | src/service/function.ts:11-17 | a taken name leaves the list unchanged |
| CustomFunctions.SavedAppends | src/service/function.ts:18-21 | a new name is appended at the end: one more entry, the earlier ones unchanged |
| CustomFunctions.SavedUnique | src/service/function.ts:11-21 | saving keeps the names unique |
| CustomFunctions.SavedTwice | src/service/function.ts:11-21 | saving the same name twice gives the list of saving it once |
| CustomFunctions.Settings.constructor | src/LiveVariablesSettings.ts:12-19 | no custom function and the delimiters `{{` and `}}` |
| CustomFunctions.Settings.SaveFunction | src/service/function.ts:5-23 | a taken name changes and saves nothing; a new one is appended and the list saved; unique names stay unique |
| Render.MarkerAtFound | src/main.ts:43-46 | a reported placeholder has a non-empty key without `"`, the closing of its opening tag, and ends at the first end tag after it (on the same line for version 1) |
| Render.MarkerAtIs | src/main.ts:116-119 | a multi-line placeholder form matches up to the first end tag after its opening tag |
| Render.MatchesFrom | src/main.ts:48 | every placeholder found has a non-empty key holding no `"` |
| Render.CountTrue | src/main.ts:63-68 | the number of notices is at most the number of placeholders, and zero exactly when none fails |
| Render.BlockAtFound | src/main.ts:120-123 | a code block is three backticks, a non-empty language, a new line, then the shortest code that a new line and three backticks follow |
| Render.BlockLanguage | src/main.ts:121 | a block's language is made of word characters |
| Render.LiveVariables.RenderVariables | src/main.ts:36-40 | the note becomes the version 3 pass of the version 2 pass of the version 1 pass of its text, or stays at the version 2 result when the code-block pass throws; the notices are those of the three passes added up, with none from version 3 when it throws |
| Render.LiveVariables.RenderVariablesV1 | src/main.ts:42-73 | the note is rewritten by the version 1 pass, with one notice per placeholder whose key has a falsy value |
| Render.LiveVariables.RewriteIds | src/main.ts:48-70 | the loop over the collected matches computes the version 1 pass and counts the falsy keys |
| Render.LiveVariables.RenderKey | src/main.ts:49-69 | a key is rewritten to the `get(KEY)` placeholder, and fails exactly when its value is falsy |
| Render.LiveVariables.RenderVariablesV2 | src/main.ts:75-113 | the note is rewritten by the query pass over version 2 placeholders, with one notice per query whose value is undefined |
| Render.LiveVariables.RewriteQueries | src/main.ts:158-187 | the loop over the collected matches computes the query pass and counts the undefined values |
| Render.LiveVariables.RenderQuery | src/main.ts:159-186 | a query is rewritten to the current form keeping its escaped text, showing its value or the error span, and fails exactly when the value is undefined |
| Render.LiveVariables.RenderVariablesV3 | src/main.ts:115-190 | the code blocks are filled and then the query pass runs; when a callback throws the note is left as it was and there is no notice |
| Render.LiveVariables.CodeBlockCallback | src/main.ts:126-155 | the callback for one block gives the block as it was when it has no variable, otherwise the block with its filled code, or throws |
| Render.ReplaceEachSelf | src/main.ts:166-172 | replacements that put back the text they find leave the note as it is |
| Render.QueryPassStable | src/main.ts:158-187 | a note whose placeholders already show their rendering is left as it is |
| Render.CanonicalMatches | src/main.ts:116-119 | a current-form placeholder whose query has no `"` and whose body has no end tag is matched as one placeholder with its own query as the key |
| Render.QueryPassSingle | src/main.ts:158-172 | a note that is one placeholder becomes that query's rendering |
| Render.ErrorSpanNoEndTag | src/main.ts:192-194 | the error span holds no end tag |
| Render.ErrorSpanPlain | src/main.ts:192-194 | the error span holds no backtick and no end tag |
| Render.BlocksKeptFrom | src/main.ts:126-155 | when no block holds a delimiter span, the code-block pass gives the text back unchanged |
| Render.NoBacktickNoBlocks | src/main.ts:120-126 | text without a backtick passes the code-block pass unchanged |
| Render.RenderSingleOnce | src/main.ts:115-190 | the version 3 pass turns a lone current-form placeholder into its query's rendering |
| Render.RenderSingle | src/main.ts:115-190 | that rendering is a fixed point: rendering it again gives the same text |
| Render.IdRenderingMatches | src/main.ts:51-57 | a truthy key's version 1 rewrite is a current-form placeholder with the query `get(KEY)` |
| Render.IdUpgradeEvaluates | src/main.ts:54-56 | the `get(KEY)` query written by version 1 evaluates on the next render to the decorated value version 1 showed |
| Render.FillUndefined | src/main.ts:139-147 | variables whose values are all undefined leave the code as it is |
| Render.FillThrows | src/main.ts:139-147 | filling throws exactly when one of the variables holds null |
| Render.FillOne | src/main.ts:142-145 | a variable written once is replaced by its value's text |
| QueryCommand.OpenTagFromFound | src/commands/query-variables.ts:11-14 | a hit is an opening tag, a non-empty query holding no earlier `"></span>`, then `"></span>` |
| QueryCommand.OpenTagFromLeftmost | src/commands/query-variables.ts:31 | the hit is at or before any opening tag that `"></span>` later follows |
| QueryCommand.ScanUp | src/commands/query-variables.ts:24-39 | a line found by the backward scan is at or above the start line and holds an opening tag |
| QueryCommand.ScanDown | src/commands/query-variables.ts:43-50 | a line found by the forward scan is at or below the start line and holds an end tag |
| QueryCommand.FindStart | src/commands/query-variables.ts:24-39 | the backward loop with its `break`s sets the query and the start position the scan specifies |
| QueryCommand.FindEnd | src/commands/query-variables.ts:41-50 | the forward loop sets the end line and the index just past the first end tag on it |
| QueryCommand.LocateSpan | src/commands/query-variables.ts:15-50 | the five variables after both loops over the note's lines |
| QueryCommand.ScanUpFound | src/commands/query-variables.ts:24-39 | the backward scan stops at the nearest opening tag, with no stopping line and no opening tag between it and the cursor |
| QueryCommand.ScanUpReaches | src/commands/query-variables.ts:25-30 | an end tag on the cursor line does not stop the scan; an opening tag with no end-tag line above the cursor between is found |
| QueryCommand.ScanDownFound | src/commands/query-variables.ts:43-50 | the forward scan stops at the first line holding an end tag |
| QueryCommand.ScanDownNone | src/commands/query-variables.ts:43-50 | it finds nothing exactly when no line from the cursor down holds an end tag |
| QueryCommand.SpanAroundCursor | src/commands/query-variables.ts:24-50 | when both tags are found, start line ≤ cursor ≤ end line, the start is an opening tag and the end is just past an end tag |
| QueryCommand.NothingFound | src/commands/query-variables.ts:17-21 | with nothing to find, the query is empty and every position 0 |
| QueryCommand.EndTagOnCursorLine | src/commands/query-variables.ts:25-30 | with the end tag on the cursor line, the span is found from the line above |
| QueryCommand.SpanRefsWithin | src/commands/query-variables.ts:17-50 | both positions the scans leave lie inside the note |
| QueryCommand.CanonicalOpenTag | src/commands/query-variables.ts:11-14 | the opening tag of a written placeholder is matched at its start with the query as the capture, for any non-empty query in which no `"></span>` starts after its first character (quotes allowed) |
| QueryCommand.QuoteFreeQuery | src/commands/query-variables.ts:11-14 | a query without `"` meets both conditions the command needs: the lazy capture closes at its own `"></span>`, and the opening tag holds no end tag |
| QueryCommand.CanonicalEndTag | src/commands/query-variables.ts:41-47 | the first end tag of a written placeholder is its own |
| QueryCommand.EmittedLines | src/commands/query-variables.ts:65-69 | for a value without a new line, the written text is one placeholder line followed by a new line |
| QueryCommand.EmittedSplit | src/commands/query-variables.ts:65-69 | the written text splits into the opening tag and query glued to the value's first line, its other lines, the end tag after the last, then an empty line |
| QueryCommand.EmittedLocated | src/commands/query-variables.ts:10-69 | in a note holding only what the callback wrote, the command run from its first line finds the placeholder again: the restored query, from (0,0) to just past the end tag that ends the value's last line, whatever lines the value holds, for any escaped query (quotes allowed) whose lazy capture closes at its own `"></span>` and whose opening tag holds no end tag |
| QueryCommand.Editor.Value | src/commands/query-variables.ts:16 | splitting the editor's text at new lines gives its lines back |
| QueryCommand.Editor.SetSelection | src/commands/query-variables.ts:60-63 | the selection becomes the two positions and the text is unchanged |
| QueryCommand.Editor.ReplaceSelection | src/commands/query-variables.ts:65-69 | the text between the selection's ends, taken in order, is replaced by the new text, and the cursor is left after it |
| QueryCommand.SelectionSplits | src/commands/query-variables.ts:65-69 | the note is the text before the selection, the selected text, then the text after it |
| QueryCommand.ApplyQuery | src/commands/query-variables.ts:58-69 | in edit mode the range from the start position to the end position is replaced by the new placeholder; otherwise the current selection is |
| QueryCommand.QueryVariables | src/commands/query-variables.ts:10-73 | the span is located from the editor's cursor line and lies in the note; in edit mode the note becomes the text before the span, the new placeholder, then the text after it; otherwise the selection is replaced by the placeholder |

## Left out

- The directory walk and frontmatter loading (`getDirectoryTree`, `getMarkdownProperties`) read the file system. The tree they build is a parameter of the `VaultProperties` constructor and of `UpdateProperties`.
- `getLocalProperty`, `getAllVariableKeys`, `findPropertiesWithPathContaining`, `findLocalPropertiesWithPathContaining` and `getPropertyPreview` are one-line wrappers for the user interface and are not modelled.
- Helpers whose source is not part of this model, other than `getValueByPath`, are uninterpreted `Host` functions: `stringifyIfObj` on non-strings, `checkArrayTypes`, `highlightText` with `addNewLineAtTheStartIfStartingWithMarkdown`, `htmlEscapeNewLine`, `getNewLinesFromHtmlEscaping`, `he.unescape`, `JSON.stringify` and `toString`. Nothing is proved about what they compute.
- The `highlightText` setting is not modelled, because it only reaches `highlightText`.
- QueryParser.CustomJsFunc: the lambda's compilation and call (`new Function`) is one uninterpreted host function. Only the guard and the error handling around it are modelled.
- QueryParser.SumFunc: `NaN` and floating-point rounding are not modelled. Numbers are reals, and a number passed off as a string by the type check is read as 0.
- `$&`, `$1` and the other `$` patterns in replacement strings are not modelled. Every replacement is literal.
- Delimiters and variable names spliced unescaped into a regular expression are not modelled. They are matched as literal text, which agrees with the code whenever they hold no regular-expression metacharacter.
- `Notice`s are counted rather than shown, and their truncated text is not modelled.
- `vault.process` is modelled as one synchronous rewrite of the note's text. Asynchronous interleaving of the three passes with other writers is not modelled.
- `saveData` is modelled by recording the list it would write. Persistence itself is left out.
- The query dialog and the rest of the user interface are not modelled. The query, the value and the edit flag it returns are parameters of `QueryCommand.QueryVariables`.
- The editor keeps its cursor inside the note, as Obsidian does. The editor's clipping of out-of-range positions is not modelled.
- QueryParser.GetVariableValue: `getValueByPath` from `src/utils` is not part of this model. The model assumes it behaves like the `getValueByPath` of `VaultProperties` (a dotted walk that gives undefined on a missing key) and uses that one. This is an assumption: what the `src/utils` version does with other inputs is not captured.
- Values.StringifyIfObj: `stringifyIfObj` from `src/utils` is not part of this model. The model assumes it returns a string unchanged, and the textual fold of `sum` (`QueryParser.FoldConcat`, `QueryParser.SumFunc`) relies on that. What it does with other values is the uninterpreted `Host` field `stringifyObject`.
- QueryCommand.EmittedLocated: the escaped query is assumed to hold no line break. `htmlEscapeNewLine` is a `Host` function and nothing is proved about it, so the lemma takes this as a condition. The lemma also holds only in a note that contains nothing but the written placeholder; other text around it is not modelled.
- String positions (`match.index`, `indexOf`, an editor position's `ch`) and the entries `Object.entries` gives for a string are counted in characters, not in UTF-16 code units. They differ only for text outside the Basic Multilingual Plane.
- Event wiring, the insert-variable commands and the settings tab are not modelled.

## Findings

| source | as written | input that shows it | evidently intended | confidence | as-written member | corrected member |
|---|---|---|---|---|---|---|
| src/VaultProperties.ts:56 | `updateProperties` looks the active file's path up with the dotted `getValueByPath`, which splits `note.md` into `note` and `md` | a vault whose root holds `note.md` with any frontmatter, and the active file `note.md`: the local properties come out undefined | walk the file's `/`-separated path through the directory tree and take the document's frontmatter | not executed | VaultProps.AsWrittenMissesDocument | VaultProps.CorrectedFindsDocument |
