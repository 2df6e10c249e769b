# qds-design-auto, modelled in Dafny

qds-design-auto turns a natural-language request into a React component styled with the
design system's tokens. It does this in five parts:

- The generation route (`POST /api/generate`) checks the request and builds a system prompt
  from the tokens plus a user prompt from a template. It then asks the v0 model for code,
  reading the answer as a server-sent-event stream.
- The returned code is validated, with up to two attempts.
- Every generation is stored.
- The browser side strips TypeScript from the code and exposes its default export.
- The code is placed in a page shown in a sandboxed frame. A small widget keeps request counters in local
  storage, and a logger times each stage against per-stage thresholds.

This project models that core as Dafny code and proves what each part promises:

- The regular expressions become matcher functions driven by one generic left-to-right
  replacement scan. Each matcher is proved sound: a match it reports has the shape the
  expression describes. For `export\s+default\s+`, `export\s+default\s+function\s+` and the
  function-head expression, the converse is proved as well, so there the matcher reports
  exactly the JavaScript match.
- The stream reader, the retry loop and the stateful components (the sandbox host, the
  preview, the logger, the status widget) become methods and classes. Their new state is
  tied to specification functions whose properties are proved as lemmas.

Modules, one per source file, plus shared ones:

| module | file | models |
|---|---|---|
| `Wrappers` | wrappers.dfy | `Option` and `Result` |
| `Text` | text.dfy | character classes, `split`, `join`, `trim`, `toLowerCase`, decimal printing |
| `Scan` | scan.dfy | `String.prototype.replace` with a global or a first-match regular expression |
| `Patterns` | patterns.dfy | expressions shared by several files (`export default`, import lines, leading blank lines) |
| `CodeGuard` | codeguard.dfy | tests/code-guard.test.ts |
| `TypeScriptUtils` | typescriptutils.dfy | lib/typescript-utils.ts |
| `TailwindProcessor` | tailwind.dfy | lib/tailwind-processor.ts |
| `PromptTemplates` | prompts.dfy | lib/prompt-templates.ts |
| `SandboxTemplate` | sandboxtemplate.dfy | lib/sandbox-template.ts, the code rewriting passes |
| `SandboxDocuments` | srcdoc.dfy | lib/sandbox-template.ts, the two HTML documents |
| `V0Client` | v0client.dfy | `callV0API` in app/api/generate/route.ts |
| `GenerateRoute` | generate.dfy | the rest of app/api/generate/route.ts |
| `SandboxHost` | sandboxhost.dfy | components/Sandbox.backup.tsx |
| `DynamicPreview` | dynamicpreview.dfy | components/DynamicPreview.tsx |
| `Logging` | logging.dfy | lib/logger.ts |
| `StatusWidget` | statuswidget.dfy | components/StatusWidget.tsx |

Collaborators outside the core become parameters:
- the HTTP transport of each model call;
- the JSON parser of an event;
- Babel's transform;
- the `new Function` instantiation;
- the clock;
- the database insert;
- the environment's API key.

## Model

| member | source | states |
|---|---|---|
| CodeGuard.Validate | tests/code-guard.test.ts:12-44 | the code is valid exactly when none of the five forbidden patterns occurs and `export default function Name` does; each reason is returned exactly when its check is the first one in the fixed order to fire |
| CodeGuard.EmptyCodeRejected | tests/code-guard.test.ts:138-141 | the empty string is rejected with the missing-export reason |
| CodeGuard.ExternalUrlNeedsAttribute | tests/code-guard.test.ts:143-155 | without `src=` or `href=` no URL is reported, so URLs in comments or text pass the first check |
| CodeGuard.DangerousHtmlReportedBeforeScript | tests/code-guard.test.ts:73-83 | code holding both `dangerouslySetInnerHTML` and a script tag, and nothing caught earlier, is rejected for `dangerouslySetInnerHTML` |
| CodeGuard.BareFunctionRejected | tests/code-guard.test.ts:103-113 | code without the word `export` is always rejected; unless a security check fires first, the reason is the missing-export one |
| CodeGuard.ReasonNamesExportDefault | tests/code-guard.test.ts:40 | the missing-export reason contains `export default` |
| CodeGuard.NetworkCallNeedsWord | tests/code-guard.test.ts:19 | the network check fires only when `fetch`, `axios` or `XMLHttpRequest` occurs |
| CodeGuard.NetworkCallNeedsLetters | tests/code-guard.test.ts:19 | text without an `h`, an `s` and an `X` never trips the network check |
| CodeGuard.DynamicCodeNeedsWord | tests/code-guard.test.ts:29 | the dynamic-code check fires only when `eval` or `Function` occurs |
| CodeGuard.MinimalComponentClean | tests/code-guard.test.ts:14-36 | `export default function A() {}` passes all five security checks |
| CodeGuard.ExportHeadMatched | tests/code-guard.test.ts:39 | `export default function ` followed by a non-blank character matches up to that character |
| CodeGuard.MinimalComponentAccepted | tests/code-guard.test.ts:87-101 | a minimal exported component is valid |
| Patterns.ExportDefaultEnd | lib/typescript-utils.ts:19 | a match of `export\s+default\s+` at i spells `export`, blanks, `default`, and a maximal blank run |
| Patterns.ExportDefaultEndComplete | lib/typescript-utils.ts:19 | whenever the text at i has that shape, the matcher reports that very end, so matcher and shape coincide |
| Patterns.ExportDefaultFunctionEnd | lib/sandbox-template.ts:253 | a match of `export\s+default\s+function\s+` starts with `export` and ends where the blanks after `function` stop |
| Patterns.ExportDefaultFunctionEndIs | app/api/generate/route.ts:20 | the matcher follows the three words and the blank runs between them to the end of the last run |
| Patterns.NoExportNoDefaultFunction | tests/code-guard.test.ts:39 | text without the word `export` has no `export default function Name` |
| Patterns.ScriptTagNeedsAngle | tests/code-guard.test.ts:34 | the case-insensitive `<script` check needs a literal `<` |
| Patterns.QuotedLineTailEnd | lib/typescript-utils.ts:15 | the quoted tail of an import line ends at a line end and crosses no line terminator except trailing blank lines |
| Patterns.FromClauseEnd | lib/typescript-utils.ts:15 | the lazy `.*?from\s+['"]` search ends its match at a line end |
| Patterns.ImportFromEnd | lib/typescript-utils.ts:15 | an `import ... from '...'` match starts at a line start with `import` and ends at a line end |
| Patterns.ImportBareEnd | lib/typescript-utils.ts:16 | an `import '...'` match starts at a line start with `import` and ends at a line end |
| Patterns.RemoveImportLines | lib/sandbox-template.ts:21-22 | the two import-removing passes only delete text |
| Patterns.ImportFreeUntouched | lib/sandbox-template.ts:21-22 | code in which `import` never occurs comes out unchanged |
| Patterns.LeadingImportRemoved | lib/sandbox-template.ts:21-22 | a first line matched by the `from` form, in code with no other `import`, is removed exactly: the result is the code after the match |
| Patterns.LeadingBlankLinesEnd | lib/typescript-utils.ts:90 | `^\s*\n+` ends just after the last newline of the leading whitespace; none remains before the first content |
| Patterns.StripLeadingBlankLines | lib/sandbox-template.ts:25 | the result is a suffix of the input, only whitespace was dropped and the dropped part ends with a newline, and no newline precedes its first content |
| Patterns.BlankLineCutUnique | lib/sandbox-template.ts:25 | those properties fix the result: any blank prefix ending in a newline, after which no newline precedes the content, is exactly what the pass drops |
| TypeScriptUtils.RemoveExportDefault | lib/typescript-utils.ts:19 | deleting every `export default ` never lengthens the code |
| TypeScriptUtils.ExportFreeUntouched | lib/typescript-utils.ts:19 | code without the word `export` is left unchanged |
| TypeScriptUtils.ExportDefaultPrefixRemoved | lib/typescript-utils.ts:19 | a leading `export default ` is removed and the rest is kept exactly |
| TypeScriptUtils.TypeAnnotation | lib/typescript-utils.ts:38 | an annotation match is a colon and at least one character, none of them `,`, `=` or `)`, stopping at one of those or at the end |
| TypeScriptUtils.ParamTypeRemoved | lib/typescript-utils.ts:38-39 | `name: Type` followed by a default or nothing loses exactly the type |
| TypeScriptUtils.MapClean | lib/typescript-utils.ts:35-40 | every parameter is cleaned, position by position |
| TypeScriptUtils.NonEmpty | lib/typescript-utils.ts:41 | the kept parameters are all non-empty and no more than before |
| TypeScriptUtils.RebuiltHead | lib/typescript-utils.ts:44 | the rebuilt head starts with `function ` |
| TypeScriptUtils.HeadCallback | lib/typescript-utils.ts:30-45 | a blank parameter list returns the match unchanged; otherwise the head is rebuilt around the cleaned list |
| TypeScriptUtils.FunctionHead | lib/typescript-utils.ts:30 | a head match starts with `function`, has a name, an opening parenthesis, and ends at the first `)` after it |
| TypeScriptUtils.PlainHeadShape | lib/typescript-utils.ts:30 | `function name(params)` with no `)` inside the parameters is matched whole, with the name and the parentheses where they stand |
| TypeScriptUtils.FunctionParamsShape | lib/typescript-utils.ts:30-45 | each match of the pass ends just after a `)` and is replaced by itself or by a rebuilt `function ` head |
| TypeScriptUtils.HeadMatch | lib/typescript-utils.ts:30-45 | the match ends just after the closing parenthesis and is replaced by the callback's value for its three captures |
| TypeScriptUtils.FunctionHeadIs | lib/typescript-utils.ts:30 | a text with the head's shape is matched with exactly those pieces |
| TypeScriptUtils.CleanTypedParam | lib/typescript-utils.ts:33-42 | a single typed parameter cleans to its bare name |
| TypeScriptUtils.TypedParameterHead | lib/typescript-utils.ts:30-45 | `function f(p: T)` becomes `function f(p)` and the match covers the whole head |
| TypeScriptUtils.TypedParamCallback | lib/typescript-utils.ts:32-44 | a single parameter `p:T` is rewritten to `function name(p)` |
| TypeScriptUtils.AccessModifier | lib/typescript-utils.ts:83 | a modifier match sits at a word boundary, is one of the four words followed by at least one blank, and is deleted |
| TypeScriptUtils.ModifiersDistinct | lib/typescript-utils.ts:83 | at most one of the four modifier words starts at any position |
| TypeScriptUtils.RemoveModifiers | lib/typescript-utils.ts:83 | removing the modifiers never lengthens the code |
| TypeScriptUtils.ModifierDropped | lib/typescript-utils.ts:83 | a leading modifier and its blanks are dropped, and modifier-free text after it is kept |
| TypeScriptUtils.NoModifierAfter | lib/typescript-utils.ts:83 | text that holds none of the modifier words gives the modifier pass no match anywhere |
| TypeScriptUtils.BlankLinesCollapsed | lib/typescript-utils.ts:93 | after collapsing, no three newlines are in a row |
| TypeScriptUtils.TrimKeepsNoTriple | lib/typescript-utils.ts:95 | trimming keeps that property |
| TypeScriptUtils.RemoveTypeScript | lib/typescript-utils.ts:11-96 | the result has no leading or trailing blank and no three newlines in a row |
| TypeScriptUtils.IdentifierEnd | lib/typescript-utils.ts:105 | `[a-zA-Z_$][\w$]*` runs to the first non-identifier character |
| TypeScriptUtils.ExportedName | lib/typescript-utils.ts:105 | the capture of `export default function Name` is an identifier and the match starts with `export` |
| TypeScriptUtils.DeclaredName | lib/typescript-utils.ts:109 | the capture of `function Name(` is an identifier and the match ends with `(` |
| TypeScriptUtils.BoundName | lib/typescript-utils.ts:113 | the capture of `const`, `let` or `var` then `Name =` is an identifier and the match starts with a declarator and ends with `=` |
| TypeScriptUtils.FirstCapture | lib/typescript-utils.ts:105-114 | there is a capture exactly when the pattern occurs, and it is the leftmost match's |
| TypeScriptUtils.ExtractComponentName | lib/typescript-utils.ts:103-117 | the exported name if there is one, else the first declared function's, else the first bound variable's, else nothing; a result is always an identifier |
| TailwindProcessor.GenerateTailwindCss | lib/tailwind-processor.ts:13-16 | the server generates no CSS for any code; the styles come from the CDN |
| TailwindProcessor.CloseFrom | lib/tailwind-processor.ts:26 | the comment closer found is the first one at or after the start, and none is missed |
| TailwindProcessor.CommentEnd | lib/tailwind-processor.ts:26 | a comment match opens with slash-star and ends at the first closer after the opener, which the lazy match cannot pass |
| TailwindProcessor.OptimizeCss | lib/tailwind-processor.ts:23-32 | the minified CSS has single plain spaces only, no space beside `{ } : ; ,`, and no leading or trailing blank; OptimizeKeepsContent and OptimizeKeepsSeparator state what it keeps |
| TailwindProcessor.CollapsedSpaces | lib/tailwind-processor.ts:27 | the whitespace pass leaves single spaces only, empties only empty input, and starts with a space exactly when the input does |
| TailwindProcessor.ConsKeepsShape | lib/tailwind-processor.ts:28 | one more character in front keeps the text single-spaced and tight when its neighbour may touch it |
| TailwindProcessor.TightenedPunctuation | lib/tailwind-processor.ts:28 | the punctuation pass keeps single spaces, removes every space beside punctuation, and keeps a non-space first character |
| TailwindProcessor.TrimKeepsShape | lib/tailwind-processor.ts:29 | trimming keeps both properties |
| TailwindProcessor.SpaceRunsKeepContent | lib/tailwind-processor.ts:27 | the whitespace pass keeps the non-blank characters and their order |
| TailwindProcessor.PunctSpacingKeepsContent | lib/tailwind-processor.ts:28 | the punctuation pass keeps the non-blank characters and their order |
| TailwindProcessor.TrimKeepsContent | lib/tailwind-processor.ts:29 | trimming keeps the non-blank characters and their order |
| TailwindProcessor.OptimizeKeepsContent | lib/tailwind-processor.ts:23-31 | after the comments are removed, the minifier drops blanks only: its output's non-blank characters are those of the comment-free CSS, in order |
| TailwindProcessor.OptimizeCommentFree | lib/tailwind-processor.ts:23-31 | CSS without a comment opener is minified to the same non-blank characters, in order |
| TailwindProcessor.CommentFreeUntouched | lib/tailwind-processor.ts:26 | CSS without a comment opener is unchanged by the comment pass |
| TailwindProcessor.SpaceRunSplit | lib/tailwind-processor.ts:27 | where no whitespace run crosses the join of two texts, the whitespace pass over the joined text is the two passes joined |
| TailwindProcessor.PunctSplit | lib/tailwind-processor.ts:28 | where a character that is neither blank nor punctuation stands beside the join, the punctuation pass over the joined text is the two passes joined |
| TailwindProcessor.TightAtBreak | lib/tailwind-processor.ts:27-28 | a whitespace run between two words becomes one space after both passes, and the words on either side are tightened on their own |
| TailwindProcessor.OptimizeKeepsSeparator | lib/tailwind-processor.ts:23-31 | a whitespace run between two words (neither side blank or punctuation, no comment anywhere) comes out as exactly one space, with each side minified on its own, so `margin: 0  auto` keeps the space between `0` and `auto` |
| PromptTemplates.DetectTemplateType | lib/prompt-templates.ts:97-140 | each template is chosen exactly when its keyword family is the first, in the order landing, form, card, to occur in the lower-cased prompt; general exactly when none does |
| PromptTemplates.ToLowerIdempotent | lib/prompt-templates.ts:98 | lower-casing twice is lower-casing once |
| PromptTemplates.DetectIgnoresCase | lib/prompt-templates.ts:98 | prompts equal up to letter case get the same template, the same as their lower-case form |
| PromptTemplates.LandingTakesPriority | lib/prompt-templates.ts:101-109 | a landing keyword wins over form and card keywords |
| PromptTemplates.UpperNameIsUpperCase | lib/prompt-templates.ts:74 | the name in the template line is the upper-cased template name |
| PromptTemplates.UserPromptHead | lib/prompt-templates.ts:74-77 | the fixed part before the user's words opens with the template line |
| PromptTemplates.Framed | lib/prompt-templates.ts:74-91 | the head, the user's words and the requirements list sit in that order at fixed positions; a non-empty retry reason adds exactly the fix request after them, and nothing follows otherwise |
| PromptTemplates.BuildUserPrompt | lib/prompt-templates.ts:60-92 | the user prompt is framed that way by the template's head and the requirements list |
| PromptTemplates.FramedRetry | lib/prompt-templates.ts:86-89 | a retry prompt is the first attempt's prompt with the fix request appended; an empty reason adds nothing |
| PromptTemplates.UserPromptNamesTemplate | lib/prompt-templates.ts:74 | every user prompt opens with `TEMPLATE: ` and the template in capitals |
| PromptTemplates.ColorEntries | lib/prompt-templates.ts:21-22 | one entry per key, each `key="value"` with a missing colour printed as `undefined` |
| PromptTemplates.ShownSpacing | lib/prompt-templates.ts:38 | the spacing list shown is the scale's first six names, or all of them when there are fewer |
| PromptTemplates.BuildSystemPrompt | lib/prompt-templates.ts:17-50 | the system prompt opens with the rules and ends with the Tailwind and output instructions, and the text between them is exactly the token section |
| PromptTemplates.SystemPromptTokenLists | lib/prompt-templates.ts:21-23 | the colour list has exactly the eight core keys in their order, each quoting its value; the spacing list has at most six names |
| PromptTemplates.SystemPromptSections | lib/prompt-templates.ts:21-23 | the token section opens with the colour list and the radius heading and closes with the spacing list |
| PromptTemplates.GetStylePresetContext | lib/prompt-templates.ts:145-153 | a known style gives its preset, any other the default one; the text is never empty |
| SandboxTemplate.ParenAnnotationShape | lib/sandbox-template.ts:33 | `(name: type)` with a plain name and a type-name run is one match of the parameter pattern, with the name and the type where they stand |
| SandboxTemplate.ParamTypeStripped | lib/sandbox-template.ts:32-43 | a parameter annotated with a capitalised type or a primitive keyword becomes `(name)` |
| SandboxTemplate.NonTypeAnnotationKept | lib/sandbox-template.ts:36-41 | a parenthesised `name: value` whose value is no type is left exactly as it was |
| SandboxTemplate.ArrowParam | lib/sandbox-template.ts:48-58 | the arrow pass matches exactly where the pattern does and always rewrites to `name =>`, so its callback's fallback never fires |
| SandboxTemplate.ArrowTypeDropped | lib/sandbox-template.ts:48-58 | `name: Type =>` with a capitalised type of word characters, angle or square brackets, bars, ampersands and blanks becomes `name =>` |
| SandboxTemplate.DollarTypeKeepsArrow | lib/sandbox-template.ts:48-58 | a `$` ends the arrow pattern's type run, so `name: Type$…` is no match there |
| SandboxTemplate.DeclarationTypeDropped | lib/sandbox-template.ts:62-65 | `const`, `let` or `var` with a capitalised annotation of word characters, angle or square brackets, bars, ampersands and blanks keeps the keyword and the name and loses the annotation |
| SandboxTemplate.DollarTypeKeepsDeclaration | lib/sandbox-template.ts:62-71 | a `$` ends the declaration patterns' type run, so neither the general nor the array pattern matches `const x: Type$…` there |
| SandboxTemplate.ArrayPassWithinGeneralPass | lib/sandbox-template.ts:62-71 | wherever the array pattern matches, the general pattern has matched in the same way, so the second pass repeats the first |
| SandboxTemplate.FieldCallbackOutcome | lib/sandbox-template.ts:81-100 | a field line is left as it is when its trimmed text ends in a bracket, a parenthesis, `=`, `>` or `<`, and otherwise gets `;` before its newline |
| SandboxTemplate.FieldLineTerminated | lib/sandbox-template.ts:79-101 | the field pass at a field line replaces it by itself when left open, and by the line with a semicolon before the newline otherwise |
| SandboxTemplate.FieldsOnlyGainSemicolons | lib/sandbox-template.ts:79-101 | the field pass adds semicolons and nothing else: without its semicolons the fixed body is the body, and it is never shorter |
| SandboxTemplate.TypeBlockRewrite | lib/sandbox-template.ts:75-105 | an `interface` or `type` block is rewritten to `keyword name ` and its body, changed only by added semicolons |
| SandboxTemplate.SemicolonBraceGone | lib/sandbox-template.ts:109 | after the pass no semicolon is directly followed by `{` |
| SandboxTemplate.SemicolonRunsCollapsed | lib/sandbox-template.ts:113 | after the pass no semicolon is directly followed by another, and no `;{` pair appears that was not there |
| SandboxTemplate.CommaSemicolonGone | lib/sandbox-template.ts:117 | after the pass no comma is directly followed by a semicolon, and the pass brings no two semicolons and no `;{` together |
| SandboxTemplate.TypeAliasTerminated | lib/sandbox-template.ts:121-133 | a `type Name = value` line gets `;` before its newline; the callback's guards never fire because the value cannot hold `;` or `{` |
| SandboxTemplate.AliasPassKeepsPairs | lib/sandbox-template.ts:121-133 | the alias pass brings no semicolon next to another one or next to `{` |
| SandboxTemplate.NormalizeCode | lib/sandbox-template.ts:15-136 | the passes run in the source's order, and no semicolon of the result is directly followed by another or by `{` |
| SandboxDocuments.TailOpensWithBacktick | lib/sandbox-template.ts:253 | the component page's text after the code opens with the backtick that closes the literal |
| SandboxDocuments.ExportedFunctionExposed | lib/sandbox-template.ts:253 | `export default function Name` becomes `window.Name`, the rest kept as it was |
| SandboxDocuments.ExposeComponent | lib/sandbox-template.ts:253 | code without the word `export` is embedded unchanged by the export rewrite |
| SandboxDocuments.EmbedAsWritten | lib/sandbox-template.ts:253 | the source's escaping touches backticks only: code without one is embedded as the export rewrite alone gives it |
| SandboxDocuments.BackslashEscapeCooked | lib/sandbox-template.ts:253 | as written, a `\n` in the code passes the escaping untouched and is read back by the page's literal as a line break |
| SandboxDocuments.SubstitutionNotLiteral | lib/sandbox-template.ts:253 | as written, a `${a}` in the code passes the escaping untouched and the page's literal does not read back as text |
| SandboxDocuments.CookEscaped | lib/sandbox-template.ts:253 | any text escaped for a template literal and followed by a backtick reads back as that text, closing at that backtick |
| SandboxDocuments.BacktickEscapeSuffices | lib/sandbox-template.ts:253 | for code without backslashes, `$` or carriage returns, the source's backtick-only escaping equals the full escaping |
| SandboxDocuments.EscapedBetween | lib/sandbox-template.ts:253 | any text, escaped and framed by a tail that opens with a backtick, reads back exactly from the page |
| SandboxDocuments.EmbedInPage | lib/sandbox-template.ts:143-253 | the page's literal reads back as exactly the code with its default export exposed |
| SandboxDocuments.BuildSrcDoc | lib/sandbox-template.ts:143-253 | with full escaping, the component page's literal reads back as the normalized code with its default export exposed, between the page's fixed head and tail |
| SandboxDocuments.PlainUnescaped | lib/sandbox-template.ts:253 | text without backslash, backtick, `$` or carriage return needs no escaping |
| SandboxDocuments.ExposeKeepsPlain | lib/sandbox-template.ts:253 | the export rewrite adds no character that would need escaping |
| SandboxDocuments.BuildSrcDocAsWritten | lib/sandbox-template.ts:143-253 | the page as the source writes it opens with the page's fixed head and ends with its fixed tail, whatever the code |
| SandboxDocuments.AsWrittenAgrees | lib/sandbox-template.ts:143-253 | for normalized code without backslash, backtick, `$` or carriage return, the page as the source writes it equals the fully escaped page |
| SandboxDocuments.SourceFrame | lib/sandbox-template.ts:163-253 | the component page around the code ends with a tail opening with the literal's closing backtick |
| SandboxDocuments.EscapeAngles | lib/sandbox-template.ts:409 | the escaped message holds no `<` and no `>` |
| SandboxDocuments.AnglesRoundTrip | lib/sandbox-template.ts:409 | a message without `&` decodes back to itself |
| SandboxDocuments.ErrorPolicyRunsNoScript | lib/sandbox-template.ts:349-353 | the error page's policy names no script source and its default source is 'none' |
| SandboxDocuments.PagePolicyFixed | lib/sandbox-template.ts:155-168 | whatever the code, the component page declares the fixed five-directive policy right after its opening lines |
| SandboxDocuments.ErrorPolicyFixed | lib/sandbox-template.ts:349-360 | whatever the message, the error page declares its script-free policy right after its opening lines |
| SandboxDocuments.ShowMessage | lib/sandbox-template.ts:346-412 | the error page is head, shown message, tail; the shown message cannot open a tag, and one without `&` reads back as itself |
| SandboxDocuments.BuildErrorSrcDoc | lib/sandbox-template.ts:346-412 | the error page holds the message between its fixed head and tail, with no angle bracket, and a message without `&` reads back as itself |
| V0Client.BuildRequest | app/api/generate/route.ts:56-93 | the bearer key, both prompts and 4096 tokens are sent; a non-empty reference image is attached and switches to the large model, otherwise the medium model |
| V0Client.StatusError | app/api/generate/route.ts:95-111 | a 4xx status gives the client-error message and any other failing status the server-error message, each naming the status and ending with the status text |
| V0Client.StatusErrorKinds | app/api/generate/route.ts:100-109 | the two kinds of status message differ in their first character |
| V0Client.LineText | app/api/generate/route.ts:141-157 | a line adds code only when it is a `data: ` line other than `[DONE]` whose payload parses to that delta |
| V0Client.LinesTextAppend | app/api/generate/route.ts:143-159 | the code of two runs of lines is the code of each, in order |
| V0Client.SingleEvent | app/api/generate/route.ts:141-153 | one complete event line yields exactly its delta |
| V0Client.UnparsableLineAddsNothing | app/api/generate/route.ts:148-157 | a `data: ` line whose payload does not parse adds nothing |
| V0Client.OtherLineAddsNothing | app/api/generate/route.ts:144 | a line that is not a `data: ` line adds nothing |
| V0Client.PerChunkText | app/api/generate/route.ts:141 | a stream that arrives as one chunk is read exactly as the whole-text reading reads it |
| V0Client.SplitEventLost | app/api/generate/route.ts:135-159 | as written, an event line cut in two by a chunk boundary is lost by the per-chunk reading, though the whole text holds its delta |
| V0Client.RejoinedEvent | app/api/generate/route.ts:135-159 | read as one text, the two halves of a cut line give the event's delta |
| V0Client.PerChunkAgreesOnLineBoundaries | app/api/generate/route.ts:127-160 | when every chunk ends with a newline, the per-chunk reading and the whole-text reading give the same code |
| V0Client.ReadLines | app/api/generate/route.ts:143-159 | the loop over complete lines yields the code of those lines |
| V0Client.ReadStream | app/api/generate/route.ts:127-160 | the loop over chunks, carrying the text after each chunk's last newline, yields the code of the whole text's lines |
| V0Client.FirstPrefixIs | app/api/generate/route.ts:174 | the alternation picks the first alternative that the text starts with |
| V0Client.FenceLanguageRecognised | app/api/generate/route.ts:174 | each fence language tag followed by a line break is recognised as itself, so `ts` never cuts `tsx` short |
| V0Client.OpenFenceEnd | app/api/generate/route.ts:174 | the opening fence ends after the three backticks and an optional tag and line break |
| V0Client.OpenFenceOfFenced | app/api/generate/route.ts:174 | the opening fence, its tag and its line break are removed together, leaving the rest |
| V0Client.CloseFenceStart | app/api/generate/route.ts:175 | the closing fence starts at the newline before a final fence, at the fence when no newline precedes it, and nowhere when there is none |
| V0Client.StripFence | app/api/generate/route.ts:172-177 | the result is trimmed and no longer than the trimmed code; unfenced code is only trimmed |
| V0Client.StripFenceOfFenced | app/api/generate/route.ts:172-177 | fencing code with any recognised tag and cleaning it gives back the trimmed code |
| V0Client.LoneFenceIsEmpty | app/api/generate/route.ts:167-177 | a lone fence passes the empty-code check and is cleaned to nothing, so a successful call can deliver empty code |
| V0Client.Outcome | app/api/generate/route.ts:48-184 | success exactly when an ok response streams unbroken non-empty code, then the fence-stripped code; each failure message exactly for its cause |
| V0Client.CallV0Api | app/api/generate/route.ts:48-184 | the call's result is that outcome |
| GenerateRoute.ValidateGeneratedCode | app/api/generate/route.ts:18-43 | code is valid exactly when it has some accepted function shape and neither a script tag nor `dangerouslySetInnerHTML`; each reason is given exactly for the first check that fails |
| GenerateRoute.StricterGuardImpliesRoute | app/api/generate/route.ts:18-43 | every code the stricter guard of the test suite accepts, the route accepts too |
| GenerateRoute.RouteAcceptsBareFunction | app/api/generate/route.ts:22-26 | a function without `export default` passes the route but not the stricter guard |
| GenerateRoute.GenerationStore.Create | app/api/generate/route.ts:250-255 | a pending record with the prompt, the style, empty code and no CSS is appended under the next id |
| GenerateRoute.GenerationStore.Update | app/api/generate/route.ts:318-419 | only the record with that id changes: the given fields are replaced, the others kept |
| GenerateRoute.Patch | app/api/generate/route.ts:412-419 | id, prompt and style are kept, the status is set, and code and CSS are replaced only when given |
| GenerateRoute.ImageSizeKB | app/api/generate/route.ts:216-220 | the kilobyte count shown is the decoded size rounded half up |
| GenerateRoute.CheckInput | app/api/generate/route.ts:193-242 | the checks run in the source's order: malformed JSON and a missing or blank prompt give 400, a bad or oversized image 400, a missing or placeholder key 500; otherwise the input with style `default` and the detected template filled in |
| GenerateRoute.SystemPrompt | app/api/generate/route.ts:260-273 | the system prompt opens with the built prompt and ends with the vision instructions exactly when an image is given |
| GenerateRoute.AttemptPrompt | app/api/generate/route.ts:289-299 | the user prompt of an attempt is the template prompt with the last reason, wrapped in the image-request lines only on the first attempt with an image |
| GenerateRoute.Attempts | app/api/generate/route.ts:281-386 | accepted code passed validation within the two attempts; exhausted code failed it for the reason given |
| GenerateRoute.ApiErrorMessage | app/api/generate/route.ts:326 | the API's error when it is non-empty, the generic message otherwise; never empty |
| GenerateRoute.Conclude | app/api/generate/route.ts:250-444 | exactly one record is added and the others kept; it is completed with the answered code exactly when the answer is 200, failed with no code on an API failure (500), failed with the last code on a 422 quoting the reason |
| GenerateRoute.AttemptsStep | app/api/generate/route.ts:310-385 | an API failure ends the loop, valid code ends it with that attempt, invalid code ends it on the last attempt and otherwise retries with the reason |
| GenerateRoute.AttemptOnce | app/api/generate/route.ts:282-385 | one pass of the loop either ends it as the loop would, or leaves a reason to retry with before the last attempt |
| GenerateRoute.RunAttempts | app/api/generate/route.ts:275-386 | the loop ends as the attempts from the first one do |
| GenerateRoute.Generate | app/api/generate/route.ts:250-444 | the store and the response after the checks are those the loop's end calls for |
| GenerateRoute.Post | app/api/generate/route.ts:186-467 | the response and the table afterwards are those of the whole request |
| GenerateRoute.Handle | app/api/generate/route.ts:186-467 | the table is unchanged exactly when the checks reject the request; a request that passes them adds exactly one record and keeps the others |
| GenerateRoute.RejectedInputStoresNothing | app/api/generate/route.ts:196-239 | a request rejected by the checks stores nothing and gets 400 or 500 |
| GenerateRoute.GeneratedCodeIsValidated | app/api/generate/route.ts:334-444 | code sent to the client passed validation, after one or two calls, and its record is completed |
| GenerateRoute.ValidationFailureQuotesReason | app/api/generate/route.ts:352-377 | a 422 quotes one of the three reasons, the one the stored code fails for |
| GenerateRoute.RetryNamesTheFailure | app/api/generate/route.ts:289-352 | the second attempt follows only invalid code; its prompt ends with the fix request naming that reason and has no image wrapping |
| SandboxHost.EmbedReadsBack | components/Sandbox.backup.tsx:29 | the literal of the component page built from a frame reads back as the code with its default export exposed |
| SandboxHost.Outcome | components/Sandbox.backup.tsx:21-38 | the error is set exactly for an unusable prop, with the error page showing the invalid-code message; usable code gives the page whose literal reads back as its normalized code, and no error |
| SandboxHost.SourceDocIsBuilt | components/Sandbox.backup.tsx:29-30 | with the design tokens' frames, usable code is shown as buildSrcDoc of it |
| SandboxHost.AsWrittenDocShown | components/Sandbox.backup.tsx:29-30 | for normalized code without backslash, backtick, `$` or carriage return, the document shown is also buildSrcDoc as the source writes it |
| SandboxHost.ErrorDocIsBuilt | components/Sandbox.backup.tsx:34-36 | with the design tokens' frames, an unusable prop is shown as buildErrorSrcDoc of the message |
| SandboxHost.AfterMessage | components/Sandbox.backup.tsx:42-48 | only a sandbox-error message changes the error, and it sets it to the reported one |
| SandboxHost.BannerIffInvalid | components/Sandbox.backup.tsx:56 | after the effect the banner is up exactly when the code was unusable |
| SandboxHost.Sandbox.constructor | components/Sandbox.backup.tsx:18-19 | no error and an empty document at first |
| SandboxHost.Sandbox.CodeChanged | components/Sandbox.backup.tsx:21-38 | the error and the document become the outcome for the new code |
| SandboxHost.Sandbox.OnMessage | components/Sandbox.backup.tsx:41-52 | the error becomes its value after the message, and the document is unchanged |
| DynamicPreview.LineKeywordEnd | components/DynamicPreview.tsx:149-150 | a match of `^word\s+` starts a line with the word and ends after it |
| DynamicPreview.StripLineKeyword | components/DynamicPreview.tsx:149-150 | removing the line keywords never lengthens the code |
| DynamicPreview.CleanCode | components/DynamicPreview.tsx:147-150 | the cleaning chain never lengthens the code |
| DynamicPreview.StripWithoutWord | components/DynamicPreview.tsx:149-150 | without the word the line-keyword pass changes nothing |
| DynamicPreview.CleanUntouched | components/DynamicPreview.tsx:147-150 | code holding neither `export` nor `default` is left as it is |
| DynamicPreview.LeadingWordStripped | components/DynamicPreview.tsx:149-150 | a leading `word ` goes and a rest free of the word is kept |
| DynamicPreview.LeadingExportDefaultCleaned | components/DynamicPreview.tsx:148 | code opening with `export default ` loses exactly that |
| DynamicPreview.LeadingExportCleaned | components/DynamicPreview.tsx:149 | code opening with `export ` loses exactly that |
| DynamicPreview.LeadingDefaultCleaned | components/DynamicPreview.tsx:150 | code opening with `default ` loses exactly that |
| DynamicPreview.BabelFailure | components/DynamicPreview.tsx:164-168 | the message opens with the conversion-failure line, carries Babel's message unchanged and ends with the regenerate hint |
| DynamicPreview.FinalCode | components/DynamicPreview.tsx:175-185 | the function body opens with the prelude, carries the transpiled code unchanged and returns the component's name |
| DynamicPreview.Compile | components/DynamicPreview.tsx:126-203 | a component exactly when every check passes, namely the function that running the final code gives; an unusable prop gives the invalid-code message |
| DynamicPreview.FailureOrder | components/DynamicPreview.tsx:128-169 | the first failing check decides the message whatever the later steps would do |
| DynamicPreview.Select | components/DynamicPreview.tsx:210-264 | the spinner exactly while loading, then the error panel exactly for a truthy error, then the component when there is one, else the placeholder |
| DynamicPreview.InvalidOrMounted | components/DynamicPreview.tsx:128-197 | an unusable prop shows the invalid-code panel; code that compiles is mounted |
| DynamicPreview.Preview.constructor | components/DynamicPreview.tsx:34-38 | no component, no error, loading, neither Babel nor the CSS ready |
| DynamicPreview.Preview.CssSettled | components/DynamicPreview.tsx:41-80 | the CSS step is marked done, whichever way it settled, and nothing else changes |
| DynamicPreview.Preview.BabelReady | components/DynamicPreview.tsx:107-115 | Babel is marked loaded and nothing else changes |
| DynamicPreview.Preview.BabelLoadFailed | components/DynamicPreview.tsx:108-111 | the Babel error is shown, loading is over, and nothing else changes |
| DynamicPreview.Preview.CompileEffect | components/DynamicPreview.tsx:119-207 | nothing happens until Babel and the CSS are ready; then loading ends with exactly one of a component and an error, as the compile step decides, and the screen shows it |
| DynamicPreview.DerivedStateFromError | components/DynamicPreview.tsx:280-282 | the failed state holds the error |
| DynamicPreview.PanelMessage | components/DynamicPreview.tsx:295 | the error's message when it is non-empty, else the generic message; never empty |
| DynamicPreview.ErrorBoundary.constructor | components/DynamicPreview.tsx:275-278 | nothing caught at first |
| DynamicPreview.ErrorBoundary.Catch | components/DynamicPreview.tsx:280-282 | a caught error moves the state to failed with that error |
| DynamicPreview.ErrorBoundary.Render | components/DynamicPreview.tsx:288-311 | the children render exactly when nothing was caught; otherwise the panel shows a non-empty message |
| Logging.Completion | lib/logger.ts:136-156 | a finished metric is logged as a slow warning naming its threshold exactly when its duration exceeds its type's threshold, and as a completion line otherwise |
| Logging.Threshold | lib/logger.ts:136-142 | every threshold lies between one second and one minute; the generation total has the longest, validation the shortest |
| Logging.ThresholdBounds | lib/logger.ts:136-146 | a duration over 60000 ms is slow for every type, one of at most 1000 ms for none |
| Logging.Logger.constructor | lib/logger.ts:45-46 | no running metrics and nothing logged |
| Logging.Logger.StartMetric | lib/logger.ts:98-111 | the id now names a metric of the type started now, whatever it named before, and a debug line is logged |
| Logging.Logger.EndMetric | lib/logger.ts:116-160 | an unknown id gives no duration, a warning, and the table unchanged; a known id gives the time since its start, is logged against its threshold and is removed |
| Logging.Logger.GetMetricStats | lib/logger.ts:165-167 | the copy equals the table |
| Logging.Logger.ClearMetrics | lib/logger.ts:172-174 | the table is empty and the log unchanged |
| Logging.Measure | lib/logger.ts:183-230 | the outcome is handed back or rethrown unchanged; the id is gone from the table and no other id changed; the completion line is logged, followed by a failure line when the function threw |
| Logging.Timer.constructor | lib/logger.ts:238-240 | the timer starts at the clock reading |
| Logging.Timer.Elapsed | lib/logger.ts:242-244 | the start plus the elapsed time is the clock reading, so no time is elapsed before the start |
| Logging.Timer.ElapsedString | lib/logger.ts:246-250 | under a second, the elapsed milliseconds followed by `ms` |
| Logging.Timer.Reset | lib/logger.ts:252-254 | the timer counts from now, so nothing has elapsed |
| StatusWidget.Zero | components/StatusWidget.tsx:46-52 | the initial record counts nothing and is consistent |
| StatusWidget.Updated | components/StatusWidget.tsx:178-194 | one more request, counted as exactly one success or one failure; the error kept only for a failure that reports one; consistency kept |
| StatusWidget.SuccessRate | components/StatusWidget.tsx:61-64 | `0` exactly when nothing was counted |
| StatusWidget.Load | components/StatusWidget.tsx:38-57 | nothing stored gives zeros, a stored record is shown as it is, and text that fails to parse leaves the widget as it was |
| StatusWidget.Store.UpdateMetrics | components/StatusWidget.tsx:161-200 | the stored record becomes the updated one, starting from zeros when there is none; unparseable text is left as it was |
| StatusWidget.Store.ResetMetrics | components/StatusWidget.tsx:205-207 | the record is removed, so every later load shows zeros |
| StatusWidget.FirstUpdate | components/StatusWidget.tsx:168-187 | the first update of an empty store gives one request of the right kind in a consistent record |

## Left out

- The network, the v0 transport and its JSON: `fetch` is the `Env.api` parameter, answering each attempt with a status, a status text and a body (chunks, or a read that fails); the JSON parser of an event's data is the `DeltaParser` parameter; `TextDecoder` is not modelled, chunks arrive as decoded text, so a multi-byte character cut by a chunk boundary is out of scope.
- V0Client.Outcome: reads the stream the corrected way of the first finding below, carrying the text after each chunk's last newline into the next chunk; app/api/generate/route.ts:141 splits every chunk on its own. The two readings agree when every chunk ends with a newline (`PerChunkAgreesOnLineBoundaries`); an event line cut by a chunk boundary gives code in the model where the source loses it (`SplitEventLost`).
- V0Client.CallV0Api and GenerateRoute.Post: inherit that corrected stream reading.
- A delta that is not a string (the source would concatenate whatever `delta.content` holds): the parser parameter yields text only.
- Babel and `new Function`: both are parameters (`transform`, `run`) of the preview's compile step; their own behaviour is not modelled.
- The database: lib/db.ts is not part of this model; the generation table is a sequence and a new record's id is the next index, where the database generates string ids.
- GenerateRoute.Post: the catch-all answer `500` for an exception other than malformed JSON (a database failure, a `referenceImage` that is not a string) is not modelled.
- GenerateRoute.Post: the logger calls and metrics the handler makes, and the `metrics` and `status` fields of the success body (`totalDuration` is a clock difference), are not threaded through the route; `Logging` models the logger on its own.
- GenerateRoute.Post: a `template` value outside the four names is not representable (the request carries a `TemplateType`); the source passes such a string through unchecked, and its hint line then reads `undefined`.
- GenerateRoute.Post: `generateTailwindCSS` always gives the empty string, so the answer's `css` is always empty and `calculateCSSSize` (a `Blob` size) is left out.
- PromptTemplates.BuildUserPrompt: the default argument `general` of lib/prompt-templates.ts:63 is not modelled; every caller in the model passes the template.
- PromptTemplates.GetStylePresetContext: a style name that is a key of `Object.prototype` (`constructor`, `toString`) finds an inherited value in the source; the model's preset table has only the listed keys.
- Text.ToLower: lower-cases ASCII letters only; `toLowerCase` also maps other scripts, which no keyword of the template detection uses.
- TypeScriptUtils.RemoveTypeScript: the passes of lib/typescript-utils.ts:22-26 and 50-80 (interfaces, type aliases, annotations, generics, casts) are the `TypePasses` parameter; the model states what the surrounding passes do whatever they give.
- SandboxTemplate.NormalizeCode: does not state that no `,;` pair remains, because the alias pass runs after the comma pass and can create one (`type A = B,` gains a `;`).
- SandboxDocuments.CookTemplate: `\x` and `\u` escapes are not decoded (they give None), so the read-back lemmas hold for escaped text, which never contains them.
- SandboxDocuments.BuildSrcDoc: the design tokens file is the `Theme` parameter; the page's fixed text, the vendor script list, the style sheet and the in-page runner script are text the theme supplies or constants, not reproduced with the source's whitespace.
- SandboxDocuments.BuildSrcDoc: the page uses the corrected escaping of the second finding below (backslash, backtick, `$` and carriage return), not the backtick-only escaping of lib/sandbox-template.ts:253; `BuildSrcDocAsWritten` is the page as written, and `AsWrittenAgrees` shows the two are the same text for normalized code without those characters. Code holding them gives a different page in the source.
- SandboxHost.Outcome, SandboxHost.Sandbox.CodeChanged and SandboxHost.SourceDocIsBuilt: inherit that corrected page; `AsWrittenDocShown` ties the shown document to the page as written for code without the four characters.
- SandboxDocuments.ExposeComponent: what the page's script does with its literal is not modelled; only the literal's value is. As written, the rewrite turns `export default function Name() {…}` into `window.Name() {…}` (see `ExportedFunctionExposed`), which `eval` does not accept as a statement, and the literal holds JSX that was never transpiled.
- SandboxDocuments.EmbedInPage and SandboxDocuments.BuildSrcDoc: the HTML parser's script-data state is not modelled. A `</script` (in any letter case) inside the code ends the page's `<script type="text/babel">` element before the literal closes; neither escaping removes it, and the route's case-insensitive `<script` check does not reject `</script`. The read-back holds for the text of the page, not for what the browser hands the script.
- SandboxHost: the markup, class names and the frame element itself are not modelled; the frame's `sandbox` attribute is the constant `SandboxHost.FramePermissions`, and what the browser enforces from it is out of scope.
- DynamicPreview: the Tailwind CDN script, `tailwind.config`, the server style element and their cleanup, `window.tokens`, and the `typeof window` server-rendering branches are reduced to the flags the effects set; effects run when the model calls the methods, not on React's schedule.
- DynamicPreview.FinalCode: the function body the source builds also holds a comment line, blank lines and indentation; the model keeps only the statements, the transpiled code and the `return`.
- DynamicPreview: the error boundary's stack trace and its logging to the console are not modelled.
- Logging: timestamps, the context and metadata objects, the development and production output formats and the console itself are not modelled; an entry is a level and a message.
- Logging.Logger.GetMetricStats: the source's copy of the table shares the metric objects with the logger; metrics are values here.
- Logging.Measure: the measured function is represented by its outcome only, so whatever it logs or measures itself (a nested metric, say) is not part of the model; the completion entry directly follows the start entry, and the log grows by two or three entries, only for a function that logs nothing.
- Logging.Timer.ElapsedString: the seconds form, `toFixed(2)` of a floating-point quotient, is None.
- StatusWidget.SuccessRate: the percentage, `toFixed(1)` of a floating-point quotient, is None whenever a request was counted.
- StatusWidget: `averageResponseTime`, its running mean and its `toFixed` text, the 90/70 colour thresholds of the status dot, the ten-second refresh timer and the widget's visibility are floating point or presentation, and are not modelled.
- StatusWidget.Load: stored JSON that parses to something other than a record (`null`, a number) is not representable; an empty stored string counts as nothing stored, as in the source's truthiness test.

## Findings

| source | as written | input that shows it | evidently intended | confidence | as-written member | corrected member |
|---|---|---|---|---|---|---|
| app/api/generate/route.ts:135-159 | each chunk is split into lines on its own, so an event line cut by a chunk boundary is read as two broken lines | two chunks `data: ` + a and b + newline, where a alone is not JSON and a + b is an event with a delta | text after a chunk's last newline is kept and continued by the next chunk | not executed | V0Client.SplitEventLost | V0Client.ReadStream |
| lib/sandbox-template.ts:253 | only backticks are escaped before the code goes into the page's template literal | code holding `\n` inside a string literal, or a template literal holding `${a}` | backslashes and `${` are escaped too, so the literal reads back as the code | not executed | SandboxDocuments.BackslashEscapeCooked | SandboxDocuments.EmbedInPage |
