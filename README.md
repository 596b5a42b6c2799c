# convertMD core in Dafny

convertMD is a browser Markdown tool with two modes:
- a Markdown editor with a live preview and an "Auto-Format" button;
- a rich-text converter, where a contentEditable surface is turned into Markdown by Turndown.

This project models the four pieces of logic behind that UI and proves properties about them.

- **FormatService, FormatProperties, FormatExamples** model `formatMarkdown`, the local Markdown normalizer in services/formatService.ts.
  - Each of the nine `String.replace` passes is a search written out with JavaScript regular-expression semantics:
    - the leftmost match wins and later matches start where the previous one ended;
    - `^` under the `m` flag matches at 0 and after any line terminator;
    - `.` excludes line terminators and `\s` includes them;
    - lookarounds read the string the pass started from;
    - greedy quantifiers give characters back one at a time, and lazy ones take one more at a time.
  - `Replace` applies one pass globally, and `FormatMarkdown` chains the nine passes in source order.
  - FormatProperties proves a closed form for the insertion passes 1-3 and 7-9.
  - For the emphasis passes 4-6 it proves what every match looks like, including that the lazy group ends at the first closing. It also proves when a match fires and what the whole pass then returns.
  - It also proves the invariant that the whole pipeline only adds or removes spaces and newlines.
  - FormatExamples works out concrete single-pass results.
- **RichTextEditor** models the synchronisation bridge of components/RichTextEditor.tsx. The parts are:
  - the surface markup;
  - the `isInternalChange` flag and its deferred reset;
  - the guarded write-back of the `initialHtml` prop;
  - `handleInput` publishing through `onChange`;
  - toolbar commands, including the link prompt.

  `Bridge` and `Step` are the specification. The class `SyncBridge` keeps the same fields and updates them in place, and each method is proved to follow the matching function.
- **Types** and **App** model the state of App.tsx and its handlers:
  - the derive effect that fills `generatedMarkdown` from Turndown;
  - mode-routed content writes;
  - the Auto-Format guards and outcome;
  - clear;
  - the choice of exported text.

  `AppState` and the functions over it are the specification, and the class `Controller` updates the same fields in place.
- **Editor** models `insertFormat`, `insertBlock` and the toolbar table of components/Editor.tsx as pure functions from (text, selection) to a new text and selection. `JsText` holds the JavaScript string primitives they rely on (`substring` with its clamping, `lastIndexOf`, `\s`, `trim() === ""`).

### Where the code and its stated intent differ

The model follows the code.
- Pass 1 (`/^(#{1,6})(?! )/gm`, services/formatService.ts:13) is commented "Ensure space after #". Because of backtracking it does more than that:
  - `"## T"` becomes `"# # T"` and `"###### Six"` becomes `"##### # Six"`, because `#{1,6}` gives back its last `#`;
  - seven or more `#` get a space after the sixth (`"#######x"` becomes `"###### #x"`) rather than being left alone.
- So the pass, and with it the pipeline, is not idempotent: `"##T"` becomes `"## T"`, which becomes `"# # T"`. The model proves the pipeline's space-and-newline invariant instead.
- Pass 2 (line 16) also fires on `**bold**` and `---` at a line start. As a result, `"** bold **"` on a line of its own, the very example of the comment on line 21, comes out of formatMarkdown as `"* * bold **"` and not as `"**bold**"` (`FormatExamples.FormatBoldAtLineStart`).
- Pass 4 (line 22) keeps one space in `"**   **"`, which becomes `"** **"`: the group needs a character, so the opening ` +` gives spaces back to it.
- Pass 9 (line 33) separates consecutive list items: `"- a\n- b"` becomes `"- a\n\n- b"`.
- The derive effect (App.tsx:44-57) runs only when `richTextContent` or `mode` changes. Two consequences follow:
  - "Loading converter..." stays after the converter becomes available, until one of those changes (`App.CommitSettles`).
  - A confirmed clear in converter mode empties `generatedMarkdown`, but the effect then runs for the new `""` and fills it with `turndown("")` or the loading text (`App.ClearThenCommit`).
- A toolbar command of the rich-text editor that changes the surface calls `onChange` twice with the same markup and schedules two flag resets. The reason is that execCommand fires the surface's input event (components/RichTextEditor.tsx:110) before the explicit `handleInput()` on line 53 (`RichTextEditor.CommandPublishes`). The parent ends in the same state either way.
- While Auto-Format waits for its result, only its own button (components/Toolbar.tsx:196), the Markdown editor's formatting buttons (components/Editor.tsx:125) and its textarea (components/Editor.tsx:152) are disabled. Clear, Import and the mode switch stay usable, and the result then overwrites `markdownContent` unconditionally (App.tsx:78). A clear confirmed during the wait is lost, and after a switch to converter mode the result lands in the hidden Markdown buffer (`App.FormatOverwritesInterleaved`).

## Model

| member | source | states |
|---|---|---|
| FormatService.HeaderAt | services/formatService.ts:13 | `/^(#{1,6})(?! )/gm` tried at i, backtracking from six `#` down to one; a match ends after the kept `#`s and its replacement is the match plus one space |
| FormatService.BulletAt | services/formatService.ts:16 | `/^(\s*)([-*+])(?! )/gm` at i with `\s*` backtracking; a match is kept and followed by one space |
| FormatService.NumberAt | services/formatService.ts:19 | `/^(\s*)(\d+)\.(?! )/gm` at i, with `\s*` and `\d+` both backtracking; a match is kept and followed by one space |
| FormatService.SqueezeAt | services/formatService.ts:22-24 | `\*\* +(.+?) +\*\*`, `__ +(.+?) +__` and the `*` form with its lookarounds at i: greedy padding, lazy group, greedy closing padding; a match loses at least two characters |
| FormatService.QuoteAt | services/formatService.ts:27 | `/^>(?! )/gm` at i: a line-initial `>` not followed by a space becomes `"> "` |
| FormatService.BlankHeaderAt | services/formatService.ts:30 | `/([^\n])\n(#{1,6} )/g` at i; the replacement is the match with one extra `'\n'` after its first character |
| FormatService.BlankBulletAt | services/formatService.ts:33 | `/([^\n])\n([-*+] )/g` at i; the replacement is the match with one extra `'\n'` after its first character |
| FormatService.MatchAt | services/formatService.ts:13-33 | the match of pass r at i: inserting passes append one space, newline passes add one `'\n'` after the first character, squeeze passes shrink by at least two |
| FormatService.Matches | services/formatService.ts:13-33 | the table of candidate matches of pass r, one per start position, each ending inside s |
| FormatService.Run | services/formatService.ts:13-33 | the greedy first choice of a quantifier: the maximal run of a character class starting at i |
| FormatProperties.ScanCopy | services/formatService.ts:13-33 | a global replace copies every position up to the next match start unchanged |
| FormatProperties.ScanLength | services/formatService.ts:13-33 | a replace whose matches all grow never shortens the text and one whose matches all shrink never lengthens it; an unchanged length means no match fired |
| FormatProperties.MatchesResize | services/formatService.ts:13-33 | every match of a space or newline pass grows by exactly one character; every squeeze match shrinks by at least two |
| FormatProperties.ReplaceUnchangedIff | services/formatService.ts:13-33 | `Replace`, one global pass, leaves the text unchanged if and only if it has no match at any position |
| FormatProperties.ScanSingle | services/formatService.ts:13-33 | with exactly one match in the scanned range, the result is prefix + replacement + suffix |
| FormatProperties.ReplaceSingle | services/formatService.ts:13-33 | the same for one pass of `String.replace` with a single match |
| FormatProperties.Strip | services/formatService.ts:13-33 | the text with every space and `'\n'` deleted, which the pipeline keeps intact |
| FormatProperties.StripConcat | services/formatService.ts:13-33 | deleting spaces and newlines distributes over concatenation |
| FormatProperties.SqueezePreservesStrip | services/formatService.ts:22-24 | a squeeze replacement differs from its match only by the deleted padding spaces |
| FormatProperties.MatchPreservesStrip | services/formatService.ts:13-33 | every single replacement of every pass keeps the text once spaces and newlines are deleted |
| FormatProperties.ScanPreservesStrip | services/formatService.ts:13-33 | a global replace whose matches each keep the stripped text keeps it for the whole string |
| FormatProperties.ReplacePreservesStrip | services/formatService.ts:13-33 | every pass keeps the text with spaces and newlines deleted |
| FormatProperties.ApplyAllPreservesStrip | services/formatService.ts:10-33 | any chain of passes keeps it |
| FormatProperties.FormatPreservesStrip | services/formatService.ts:6-36 | `FormatMarkdown`, the nine passes chained in source order, only inserts and deletes spaces and newlines: the input and the output agree once both are removed |
| FormatProperties.FormatSteps | services/formatService.ts:6-36 | `FormatMarkdown` is the nine passes applied one after another, pass 1 first and pass 9 last |
| FormatProperties.HeaderGap | services/formatService.ts:12-13 | where pass 1 puts its space at a line start with n `#`: after the sixth for n ≥ 7, after the run if it is not followed by a space, after the next-to-last `#` otherwise (n ≥ 2) |
| FormatProperties.HeaderRule | services/formatService.ts:13 | the backtracking search of pass 1 equals the closed form HeaderGap |
| FormatProperties.BulletGap | services/formatService.ts:15-16 | where pass 2 puts its space: after the first non-whitespace character of a line when it is `-`, `*` or `+` and not followed by a space |
| FormatProperties.BulletRule | services/formatService.ts:16 | the backtracking search of pass 2 equals BulletGap |
| FormatProperties.NumberGap | services/formatService.ts:18-19 | where pass 3 puts its space: after leading whitespace, digits and a `.` not followed by a space |
| FormatProperties.NumberRule | services/formatService.ts:19 | the backtracking search of pass 3 equals NumberGap |
| FormatProperties.BulletTryNone | services/formatService.ts:16 | when every character of the tried indentation is whitespace, giving back whitespace never yields a bullet match |
| FormatProperties.NumberSpaceTryNone | services/formatService.ts:19 | the same for the indentation of pass 3 |
| FormatProperties.DigitTryNone | services/formatService.ts:19 | giving back digits of `\d+` never finds a `.` where a digit stands |
| FormatProperties.QuoteGap | services/formatService.ts:26-27 | where pass 7 puts its space: after a line-initial `>` not followed by a space |
| FormatProperties.BlankHeaderRule | services/formatService.ts:30 | pass 8 matches at i if and only if a non-newline character, a `'\n'`, 1-6 `#` and a space follow; the match ends after that space |
| FormatProperties.SqueezeRule | services/formatService.ts:21-24 | a squeeze match is delimiter, at least one space, a group with no line terminator, at least one space, delimiter; it is replaced by the delimited group, with the `*` lookarounds holding; the lazy group ends at the first position after its start where spaces and the delimiter follow |
| FormatProperties.SqueezeSpanShape | services/formatService.ts:22-24 | the span found by the squeeze search has that shape |
| FormatProperties.SqueezeTight | services/formatService.ts:21-23 | a delimiter not followed by a space starts no squeeze match, so `**bold**` is untouched |
| FormatProperties.SqueezeFires | services/formatService.ts:21-24 | conversely, the delimiter, spaces, then a group that starts with a non-space, stays on one line and ends at its first closing, then spaces and the delimiter (with the `*` lookarounds) do match; the group may hold spaces, and the match becomes the delimited group |
| FormatProperties.SqueezeSpanFires | services/formatService.ts:22-24 | the squeeze search takes all the opening spaces and ends the group at the first closing |
| FormatProperties.SqueezeOnce | services/formatService.ts:21-24 | a whole squeeze pass over a text with one padded emphasis, and the delimiter's mark nowhere else, tightens exactly that emphasis and copies the rest |
| FormatProperties.SqueezeNeedsMark | services/formatService.ts:22-24 | no squeeze match starts where the delimiter's mark is not |
| FormatProperties.SqueezeNeedsClose | services/formatService.ts:22-24 | no squeeze match starts where no closing (spaces then the delimiter) follows the opening padding |
| FormatProperties.LazyGroupWalk | services/formatService.ts:22-24 | the lazy `(.+?)` extends over positions where no closing starts and stops at the first one where spaces and the delimiter follow |
| FormatProperties.LazyGroupFirst | services/formatService.ts:22-24 | the group the lazy `(.+?)` settles on holds no earlier closing |
| FormatProperties.OpenTryFirstClose | services/formatService.ts:22-24 | whichever opening padding wins after give-back, its group ends at the first closing |
| FormatProperties.CloseTryFails | services/formatService.ts:22-24 | where no closing starts, every give-back of the closing ` +` fails |
| FormatProperties.CloseAt | services/formatService.ts:22-24 | the closing ` +` followed by the delimiter closes at the delimiter |
| FormatProperties.OneLine | services/formatService.ts:13-27 | on a line without terminators a space pass can match only at 0, and the result is the text with one space inserted at the match end |
| FormatProperties.HeaderLine | services/formatService.ts:13 | pass 1 on one line inserts one space at HeaderGap, or leaves the line alone |
| FormatProperties.BulletLine | services/formatService.ts:16 | pass 2 on one line inserts one space at BulletGap and keeps the indentation |
| FormatProperties.NumberLine | services/formatService.ts:19 | pass 3 on one line inserts one space at NumberGap |
| FormatProperties.QuoteLine | services/formatService.ts:27 | pass 7 on one line inserts one space at QuoteGap |
| FormatProperties.SplitAt | services/formatService.ts:13-33 | when a pass matches the same way in a and b as in `a + [c] + b` and not at c, its global replace over `a + [c] + b` is its replace over a, then c, then its replace over b |
| FormatProperties.HeaderLines | services/formatService.ts:13 | `^` with the `m` flag anchors at every line: pass 1 over `a + [c] + b`, for any line terminator c, is pass 1 over a, then c, then pass 1 over b |
| FormatProperties.QuoteLines | services/formatService.ts:27 | the same for pass 7 |
| FormatProperties.NeedsNewlineNext | services/formatService.ts:30-33 | the blank-line passes match only just before a `'\n'` |
| FormatProperties.OneNewline | services/formatService.ts:30-33 | with a single `'\n'`, a blank-line pass doubles it exactly when it matches before it and otherwise leaves the text alone |
| FormatProperties.TwoLines | services/formatService.ts:30-33 | on two lines a blank-line pass gives `a + "\n\n" + b` or leaves the text unchanged, never firing for an empty first line |
| FormatProperties.BlankHeaderLines | services/formatService.ts:29-30 | pass 8 on two lines inserts a blank line if and only if the first line is non-empty and the second opens with 1-6 `#` and a space |
| FormatProperties.HeaderOpenerAfter | services/formatService.ts:30 | pass 8 matches at the last character of the first line if and only if the second line opens a header |
| FormatProperties.BlankBulletLines | services/formatService.ts:32-33 | pass 9 on two lines inserts a blank line if and only if the first line is non-empty and the second starts with `-`, `*` or `+` and a space, with no indentation |
| FormatExamples.HeaderSpaced | services/formatService.ts:12-13 | `"#Title"` becomes `"# Title"` |
| FormatExamples.SubheaderSpaced | services/formatService.ts:12-13 | `"###Sub"` becomes `"### Sub"` |
| FormatExamples.HeaderAlreadySpaced | services/formatService.ts:13 | `"# T"` is unchanged |
| FormatExamples.HeaderBacktracks | services/formatService.ts:13 | `"## T"` becomes `"# # T"` |
| FormatExamples.HeaderSeven | services/formatService.ts:13 | `"#######x"` becomes `"###### #x"` |
| FormatExamples.HeaderSix | services/formatService.ts:13 | `"###### Six"` becomes `"##### # Six"` |
| FormatExamples.DoubleHashSpaced | services/formatService.ts:13 | `"##T"` becomes `"## T"` |
| FormatExamples.HeaderNotIdempotent | services/formatService.ts:13 | applying pass 1 to its own output changes it again: `"##T"` gives `"## T"`, which gives `"# # T"` |
| FormatExamples.BulletAfterIndent | services/formatService.ts:15-16 | after w leading spaces, a bare bullet marker gets one space after it and the indentation is kept |
| FormatExamples.BulletIndented | services/formatService.ts:15-16 | `"  *Item"` becomes `"  * Item"` |
| FormatExamples.BulletAlreadySpaced | services/formatService.ts:16 | `"- Item"` is unchanged |
| FormatExamples.NumberSpaced | services/formatService.ts:18-19 | `"1.First"` becomes `"1. First"` |
| FormatExamples.NumberAlreadySpaced | services/formatService.ts:19 | `"1. First"` is unchanged |
| FormatExamples.BoldSqueezed | services/formatService.ts:21-22 | `"a ** bold ** b"` becomes `"a **bold** b"` |
| FormatExamples.BoldWordsSqueezed | services/formatService.ts:22 | `"** a b **"` becomes `"**a b**"`: a space inside the group is kept |
| FormatExamples.BoldPaddingOnly | services/formatService.ts:22 | `"**   **"` becomes `"** **"`, through the give-back of the opening spaces |
| FormatExamples.UnderscoreSqueezed | services/formatService.ts:23 | `"__ x __"` becomes `"__x__"` |
| FormatExamples.ItalicSqueezed | services/formatService.ts:24 | `"a * x * b"` becomes `"a *x* b"` |
| FormatExamples.ItalicFirstClose | services/formatService.ts:24 | in `"* a * b *"` the match at 0 is `"* a *"` alone, replaced by `"*a*"` |
| FormatExamples.QuoteNested | services/formatService.ts:26-27 | `">>x"` becomes `"> >x"` |
| FormatExamples.BlankBeforeHeading | services/formatService.ts:29-30 | `"Some text\n# Header"` becomes `"Some text\n\n# Header"` |
| FormatExamples.NoBlankBeforeFirstHeading | services/formatService.ts:29-30 | `"# Header\nSome text"` is unchanged |
| FormatExamples.BlankBetweenItems | services/formatService.ts:32-33 | `"- a\n- b"` becomes `"- a\n\n- b"` |
| FormatExamples.NoBlankBeforeOrdered | services/formatService.ts:32-33 | an ordered item `"1. x"` after a text line gets no blank line |
| FormatExamples.BoldAtLineStartIsBullet | services/formatService.ts:13-16 | pass 1 leaves `"** bold **"` alone and pass 2 reads its first `*` as a bullet: `"* * bold **"` |
| FormatExamples.SplitBoldKept | services/formatService.ts:19-23 | passes 3, 4 and 5 leave `"* * bold **"` unchanged: the `**` of pass 4 now opens nowhere |
| FormatExamples.SplitBoldNotItalic | services/formatService.ts:24 | pass 6 leaves `"* * bold **"` unchanged: no `*` there is followed by spaces, a group, spaces and a lone `*` |
| FormatExamples.SplitBoldLastPasses | services/formatService.ts:27-33 | passes 7, 8 and 9 leave `"* * bold **"` unchanged |
| FormatExamples.FormatBoldAtLineStart | services/formatService.ts:6-36 | `FormatMarkdown("** bold **")` is `"* * bold **"`: the example that the comment on line 21 says becomes `"**bold**"` is split by pass 2 and never squeezed |
| JsText.Substring | components/Editor.tsx:43-45 | `String.prototype.substring` with clamped bounds; for in-range bounds it is the slice |
| JsText.SubstringFrom | components/Editor.tsx:45 | `substring(a)`; for an in-range start it is the suffix |
| JsText.LastIndexOf | components/Editor.tsx:73 | -1 or the index of the last occurrence of c, with no c after it |
| RichTextEditor.SyncEffect | components/RichTextEditor.tsx:31-35 | the effect body either leaves the bridge alone or writes a value different from the current markup into the surface, and nothing else |
| RichTextEditor.RerenderWith | components/RichTextEditor.tsx:31-36 | a render never calls onChange and never touches the flag, and the effect remembers the new value |
| RichTextEditor.Mount | components/RichTextEditor.tsx:26-36 | after mounting, the surface holds initialHtml, the flag is clear, nothing is pending and nothing was published |
| RichTextEditor.InputPublishesOnce | components/RichTextEditor.tsx:38-46 | `InputWith`: a user edit, reaching handleInput through the surface's input event (line 110), on a mounted surface sets the flag, schedules one reset and calls onChange exactly once with the new markup; an unmounted surface is untouched |
| RichTextEditor.FlagClearsOnlyOnTick | components/RichTextEditor.tsx:40-44 | of the events of `Step`, only the deferred reset (`TickOnce`) clears the flag |
| RichTextEditor.TickClearsFlag | components/RichTextEditor.tsx:40-44 | in a valid bridge the next deferred reset always clears a set flag, and validity is kept |
| RichTextEditor.StepKeepsValid | components/RichTextEditor.tsx:38-46 | every event of `Step` keeps a set flag backed by a pending reset |
| RichTextEditor.RerenderWritesIff | components/RichTextEditor.tsx:32-34 | a render writes the surface if and only if the value is new to the effect, the surface exists, the flag is clear, the value differs from the markup, and it is not `""` against `"<br>"`; the surface then holds the value |
| RichTextEditor.RerenderIdempotent | components/RichTextEditor.tsx:31-36 | rendering the same value twice has the effect of rendering it once |
| RichTextEditor.NoFeedback | components/RichTextEditor.tsx:31-36 | any run of renders and resets never calls onChange |
| RichTextEditor.DroppedNotDeferred | components/RichTextEditor.tsx:31-36 | a value that arrives while the flag is set is dropped: later resets and renders of the same value never write it |
| RichTextEditor.DroppedStays | components/RichTextEditor.tsx:31-36 | once the effect has seen a value, resets and renders of that value leave the surface as it is |
| RichTextEditor.InputsPublishAll | components/RichTextEditor.tsx:38-46 | n inputs publish exactly the n markups in order, schedule n resets, and leave the last markup on the surface with the flag set |
| RichTextEditor.EchoNeverOverwrites | components/RichTextEditor.tsx:31-54 | the parent echoing the published markup back never changes the surface, before or after a reset, after typing or after a toolbar command |
| RichTextEditor.CommandPublishes | components/RichTextEditor.tsx:48-54 | `CommandWith`: a toolbar command on a mounted surface leaves the new markup there and sets the flag; when it changed the surface, the input event execCommand fires (line 110) and the explicit call on line 53 publish that markup twice and schedule two resets, otherwise it is published once with one reset; an unmounted surface is untouched |
| RichTextEditor.LinkGuard | components/RichTextEditor.tsx:95-96 | `LinkWith`: a cancelled or empty prompt changes nothing and publishes nothing; a non-empty URL on a mounted surface runs createLink as a command: the linked markup is left there, the flag is set, and it is published twice when the link changed the surface, once otherwise; nothing else is ever published |
| RichTextEditor.SyncBridge.constructor | components/RichTextEditor.tsx:26-36 | the mounted component is in the state Mount describes, and valid |
| RichTextEditor.SyncBridge.Rerender | components/RichTextEditor.tsx:31-36 | updates the fields in place exactly as RerenderWith; it keeps the bridge valid |
| RichTextEditor.SyncBridge.HandleInput | components/RichTextEditor.tsx:38-46 | sets the flag, appends the markup to the onChange log and schedules a reset, when mounted; it keeps the bridge valid |
| RichTextEditor.SyncBridge.Input | components/RichTextEditor.tsx:38-46 | a user edit: the surface takes the new markup, then its input event runs handleInput: the state is InputWith of the old one; it keeps the bridge valid |
| RichTextEditor.SyncBridge.Command | components/RichTextEditor.tsx:48-54 | execCommand: the surface takes the new markup, handleInput runs from the input event if that changed it, then once more from line 53: the state is CommandWith of the old one; it keeps the bridge valid |
| RichTextEditor.SyncBridge.Link | components/RichTextEditor.tsx:95-96 | the state is LinkWith of the old one; it keeps the bridge valid |
| RichTextEditor.SyncBridge.Tick | components/RichTextEditor.tsx:44 | one deferred reset clears the flag; it keeps the bridge valid |
| RichTextEditor.SyncBridge.Unmount | components/RichTextEditor.tsx:26 | the ref is cleared and nothing else changes; it keeps the bridge valid |
| App.Derived | App.tsx:44-57 | the derive effect remembers its deps and changes at most generatedMarkdown |
| App.InitialCommit | App.tsx:32-41 | the first render holds editor mode, side-by-side layout, not processing, the default buffers and an empty generated text |
| App.CommitDerives | App.tsx:44-56 | in converter mode with changed deps, generatedMarkdown becomes turndown(richTextContent) when the converter is loaded, else "Loading converter..." |
| App.CommitOnlyOnChange | App.tsx:44-57 | with unchanged deps the effect changes nothing; in editor mode it never touches generatedMarkdown |
| App.CommitSettles | App.tsx:57 | a second run of the effect without new deps changes nothing, even if the converter has loaded since |
| App.SwitchToConverter | App.tsx:44-57 | switching to converter mode with a loaded converter derives the Markdown of the current rich text |
| App.ActiveContentRouting | App.tsx:59-66 | `WithActiveContent`: after an import or a write, the input pane of the current mode (App.tsx:147-161) shows the new content; the other mode's buffer, the output, the mode and the rest are unchanged |
| App.ActiveContentOverwrites | App.tsx:59-66 | writing back what the input pane shows changes nothing, and a second write replaces the first |
| App.MagicConvertGuard | App.tsx:68-73 | `MagicConvertStarted`: Auto-Format does nothing unless the mode is editor mode and markdownContent is not blank once trimmed; otherwise it requests the current markdownContent |
| App.MagicConvertOutcome | App.tsx:75-83 | `MagicConvertFinished` after `MagicConvertStarted`: while running it is processing; success replaces markdownContent by the result, failure keeps it, and processing ends in both cases |
| App.ClearCases | App.tsx:86-93 | `Cleared`: without confirmation nothing changes; with it the active buffer becomes "", and in converter mode generatedMarkdown too |
| App.ClearThenCommit | App.tsx:86-93 | after a confirmed clear in converter mode, the effect fills generatedMarkdown with turndown("") or the loading text unless the rich text was already "" |
| App.ExportFollowsMode | App.tsx:95-108 | `ExportText`: copy and download export exactly what the output pane shows (App.tsx:171-182); after an import in editor mode that is the imported text, and in converter mode an import changes it only once the derive effect has run; a confirmed clear empties it, for good in editor mode, while in converter mode the derive effect then refills it, with the loading text while the converter is not loaded |
| App.FormatOverwritesInterleaved | App.tsx:76-83 | the Auto-Format result overwrites markdownContent whatever happened during the wait: a clear confirmed meanwhile is lost, and after a switch to converter mode the result goes to the hidden buffer |
| App.Controller.constructor | App.tsx:31-57 | the mounted app is the initial state after its first effect run |
| App.Controller.RunDeriveEffect | App.tsx:44-57 | updates the fields in place exactly as Derived |
| App.Controller.SetMode | App.tsx:32 | changes only the mode |
| App.Controller.SetLayout | App.tsx:33 | changes only the layout |
| App.Controller.EditMarkdown | App.tsx:37 | changes only markdownContent |
| App.Controller.EditRichText | App.tsx:40 | changes only richTextContent |
| App.Controller.EditGenerated | App.tsx:41 | changes only generatedMarkdown |
| App.Controller.SetActiveContent | App.tsx:59-66 | the state is WithActiveContent of the old one |
| App.Controller.StartMagicConvert | App.tsx:68-75 | the guards and the processing flag as MagicConvertStarted, returning the text to send or nothing |
| App.Controller.FinishMagicConvert | App.tsx:76-83 | the outcome and the end of processing as MagicConvertFinished |
| App.Controller.HandleClear | App.tsx:86-93 | the state is Cleared of the old one |
| App.Controller.HandleCopy | App.tsx:95-98 | returns ExportText of the current state and changes nothing |
| App.Controller.HandleDownload | App.tsx:105-114 | returns the file name "document.md" and ExportText of the current state, changing nothing |
| Editor.LineStart | components/Editor.tsx:72-74 | the start of the line holding the caret, never after the caret |
| Editor.InactiveHelpers | components/Editor.tsx:36-67 | read-only or without a textarea, no toolbar action produces an edit |
| Editor.FormatSplice | components/Editor.tsx:41-47 | `InsertFormat` gives before + prefix + selected + suffix + after; the length grows by the two affix lengths, and the text before and after the selection is kept |
| Editor.FormatSelection | components/Editor.tsx:53-59 | with an empty selection the caret sits between prefix and suffix; otherwise the new selection covers exactly the originally selected text |
| Editor.LineStartIsLineStart | components/Editor.tsx:72-74 | LineStart is 0 or just after a `'\n'`, with no `'\n'` between it and the caret |
| Editor.BlockSplice | components/Editor.tsx:69-86 | `InsertBlock` puts the prefix at the line start and changes nothing else; the caret moves by the prefix length and stays before the same character |
| Editor.BlockTwice | components/Editor.tsx:79 | insertBlock does not check for an existing prefix: twice gives the prefix twice |
| Editor.BoldButton | components/Editor.tsx:91 | pressed through `Press`, the Bold button wraps the selection in `**` |
| Editor.ItalicButton | components/Editor.tsx:92 | the Italic button wraps the selection in `_` |
| Editor.HeadingButton | components/Editor.tsx:95 | the Heading 1 button puts `# ` at the line start |
| Editor.ToolbarBlocks | components/Editor.tsx:95-101 | every block prefix of the toolbar is a non-empty single-line text ending in a space |

## Left out

- The 500 ms delay and the `async` wrapper of formatMarkdown (services/formatService.ts:7-8) have no effect on the result and are not modelled.
- Idempotence of formatMarkdown is not proved, because it does not hold: `FormatExamples.HeaderNotIdempotent`.
- Turndown is an opaque function `turndown: string -> string` with a `loaded` flag, standing for `window.TurndownService`. Its options and internals are not modelled.
- The remote formatting service (services/geminiService.ts) is not part of this model. Its result is the `Outcome` parameter: the formatted text or a failure. The `alert` on failure is left out.
- `await` is modelled as two steps, StartMagicConvert and FinishMagicConvert. Other events may run between them, since only the Auto-Format button and the Markdown editor's formatting buttons and textarea are disabled while processing. `App.MagicConverted` is the run with nothing in between, and `App.FormatOverwritesInterleaved` shows a clear or a mode switch in between.
- `document.execCommand`, the browser's own edits and their effect on `innerHTML` are modelled as "the surface now holds some new markup", a parameter of Input, Command and Link. As the Input Events specification and browsers do, execCommand dispatches an `input` event on the surface exactly when it changes the markup, and that event is modelled as one more handleInput before the explicit one. Which commands change which markup, and the browser's normalisation of markup assigned to `innerHTML`, are left out.
- `focus()` and the `setTimeout` that restores the textarea selection (components/Editor.tsx:51-60) are left out. The selection they set is returned as part of the edit.
- `setTimeout(…, 0)` in handleInput is a counter of pending resets, and the Tick event runs one of them.
- `window.confirm` and `prompt` are inputs: `confirmed` and `url`.
- The clipboard write, the Blob, the object URL and the link click of copy and download (App.tsx:100-118) are left out. The handlers return the text and the file name.
- The view components (Toolbar.tsx, Preview.tsx, Button.tsx), file import through FileReader and mammoth, and readmeTemplate.ts are not part of this model. Of the render of App.tsx, the model keeps only which buffer each pane shows (`App.InputPane`, `App.OutputPane`).
- SqueezeRule: states where the group of a squeeze match ends (at the first closing) but not where it starts when the opening spaces are given back. SqueezeFires covers the case where the group starts right after all the opening spaces; `FormatExamples.BoldPaddingOnly` works out a give-back case.
- JavaScript strings are UTF-16 code-unit sequences. The model uses Dafny `char` sequences, so characters outside the Basic Multilingual Plane count as one element instead of two.
