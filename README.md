# Madame Popper Jeopardy maker, modelled in Dafny

This project models the logic of a browser app for building and playing trivia games in
the style of Jeopardy. A teacher builds a game from categories of five questions, each
worth 100 to 500 points. Questions and answers may contain LaTeX math between `$…$` or
`$$…$$`, and a typing shorthand (`a/b`, `\_(n)`, `^(2)`) is turned into LaTeX for the
editor's preview. The games are kept in a list. One of them can be played on a board:
answering a question adds its value to the score and disables its button. The app also
has an English/French interface table, a team set-up dialog, an image picker and a
tutorial of math snippets.

Each module follows one source file:

| module | source file | form |
|---|---|---|
| `JeopardyTypes` | `src/types/jeopardy.ts` | datatypes |
| `MathSegments` | from `MathEditor.tsx` and `QuestionModal.tsx` | functions and lemmas |
| `MathEditor` | `src/components/MathEditor.tsx` | functions and lemmas |
| `QuestionModal` | `src/components/QuestionModal.tsx` | functions and a `Dialog` class |
| `JeopardyBoard` | `src/components/JeopardyBoard.tsx` | functions, lemmas, an in-place array sort |
| `JeopardyMaker` | `src/pages/JeopardyMaker.tsx` | a `Page` class over list functions |
| `GameEditor` | `src/components/GameEditor.tsx` | an `Editor` class over list functions |
| `TeamSetup` | `src/components/TeamSetup.tsx` | a `Setup` class, a loop method |
| `LanguageContext` | `src/contexts/LanguageContext.tsx` | lookup functions and a `Provider` class |
| `ImageUpload` | `src/components/ImageUpload.tsx` | functions and lemmas |
| `MathTutorial` | `src/components/MathTutorial.tsx` | functions and lemmas |

`MathSegments` holds the `$$…$$` / `$…$` split once, because both renderers contain
the same code. Three helper modules are written out here because the source gets them
from JavaScript itself:

- `Wrappers` has `Option` and `Result`.
- `Collections` has `filter` and `map`.
- `JsStrings` has `trim`, `split('\n')`, `substring`, `indexOf`, `startsWith` and the
  decimal printing of a number.

State-changing handlers are class methods over the component's state fields. Each
callback prop the component calls (`onSave`, `onClose`, `onAnswered`, `onStart`) becomes
a log field, and each call appends to that log. Fresh ids (`crypto.randomUUID`) and the
clock (`new Date()`) are method parameters. The model follows what the code does:

- The fraction shorthand leaves the numerator empty.
- The "already a LaTeX command" guard cannot fire.
- Only `\_(…)` is rewritten, not a bare `_(…)`.
- The team dialog's labels print their raw keys, because those keys are missing from
  both translation tables.

## Model

| member | source | states |
|---|---|---|
| Collections.Filter | src/pages/JeopardyMaker.tsx:43 | `filter` returns only kept elements of the input, and every kept input element appears in the result |
| Collections.FilterConcat | src/components/MathTutorial.tsx:86-88 | filtering a concatenation filters each part, so `filter` preserves order |
| Collections.FilterKeepsAll | src/pages/JeopardyMaker.tsx:43 | when every element passes, `filter` returns the list unchanged |
| Collections.FilterKeepsNone | src/components/MathTutorial.tsx:86-88 | when no element passes, `filter` returns the empty list |
| Collections.Map | src/components/GameEditor.tsx:59-63 | `map` keeps the length and applies the function to each element in place |
| JsStrings.IsJsWhitespace | src/components/GameEditor.tsx:80 | the WhiteSpace and LineTerminator code points that `trim` removes; stated through `TrimStart`, `TrimEnd` and `TrimEmptyIffBlank` |
| JsStrings.Trim | src/components/GameEditor.tsx:80 | `s.trim()`, also used at GameEditor.tsx:89 and MathEditor.tsx:64; stated by `TrimStart`, `TrimEnd` and `TrimEmptyIffBlank` |
| JsStrings.TrimStart | src/components/GameEditor.tsx:80 | the result is a suffix with no leading whitespace, and only whitespace was removed |
| JsStrings.TrimEnd | src/components/GameEditor.tsx:80 | the result is a prefix with no trailing whitespace, and only whitespace was removed |
| JsStrings.TrimEmptyIffBlank | src/components/GameEditor.tsx:80 | `!s.trim()` holds exactly when `s` is all whitespace (or empty) |
| JsStrings.StartsWith | src/components/ImageUpload.tsx:33 | `file.type.startsWith('image/')`; stated by `ImageSubtypesAccepted`, `OtherTypesRefused` and `DefaultLimitDecides` |
| JsStrings.IndexOfFrom | src/components/MathEditor.tsx:57-58 | a position found lies at or after `from` and holds the character |
| JsStrings.IndexOfFromFirst | src/components/MathEditor.tsx:57-58 | the position found is the first at or after `from` that holds the character; `None` means no such position holds it |
| JsStrings.Substring | src/components/MathEditor.tsx:116 | with in-range, ordered bounds, `substring` is the slice `s[from..to]` |
| JsStrings.SplitLines | src/components/MathEditor.tsx:68 | `split('\n')` gives at least one piece, and no piece contains a line feed |
| JsStrings.SplitLinesRoundTrip | src/components/MathEditor.tsx:68 | joining the pieces with `\n` gives back the text, and there is one piece more than there are line feeds |
| JsStrings.SplitSingleLine | src/components/MathEditor.tsx:68 | a text without a line feed splits into itself alone |
| JsStrings.NatToString | src/components/TeamSetup.tsx:38 | the decimal form is non-empty and made only of digits |
| JsStrings.ParseNatToString | src/components/TeamSetup.tsx:38 | reading the decimal form back gives the number |
| JsStrings.DigitRoundTrip | src/components/TeamSetup.tsx:38 | each digit's character reads back as that digit |
| JsStrings.NatToStringInjective | src/components/TeamSetup.tsx:38 | different numbers print differently |
| MathSegments.IsLineTerminator | src/components/QuestionModal.tsx:17 | the characters the `.` in `(.*?)` does not match; stated through `BlockClose` |
| MathSegments.ClosesBlock | src/components/QuestionModal.tsx:17 | where the lazy `(.*?)\$\$` stops; stated by `BlockClose` |
| MathSegments.BlockClose | src/components/MathEditor.tsx:77 | finds where the lazy `(.*?)\$\$` stops: the first `$$` with no line terminator before it, or none |
| MathSegments.InlineAt | src/components/QuestionModal.tsx:19 | a `/\$([^$]+)\$/` match at a position; stated by `MatchAtSpec`, `InlineHit` and `MatchInPrefix` |
| MathSegments.BlockAt | src/components/QuestionModal.tsx:17 | a `/\$\$(.*?)\$\$/` match at a position; stated by `MatchAtSpec` and `MatchInPrefix` |
| MathSegments.MatchAt | src/components/MathEditor.tsx:77-87 | a match at `q` spans exactly the delimited form of its captured group |
| MathSegments.MatchAtSpec | src/components/QuestionModal.tsx:17-19 | a match exists at `q` exactly when the regex matches there: `$$`, the lazy group on one line, `$$`; or `$`, one or more non-`$`, `$` |
| MathSegments.Contains | src/components/QuestionModal.tsx:21 | `regex.test(text)`, also at QuestionModal.tsx:30 and MathEditor.tsx:77 and 88; stated by `FirstMatchFirst`, `NoBlockWithoutDollarPair` and `SegmentKinds` |
| MathSegments.FirstMatch | src/components/QuestionModal.tsx:21-37 | a reported match lies at or after `from`, and the pattern matches there with that group and end |
| MathSegments.FirstMatchFirst | src/components/QuestionModal.tsx:21-37 | the match reported is the leftmost: no position between `from` and it matches, and none after `from` does when no match is reported |
| MathSegments.NoBlockWithoutDollarPair | src/components/QuestionModal.tsx:21 | a text with no two adjacent `$` fails the block test |
| MathSegments.Split | src/components/QuestionModal.tsx:21-37 | `split` with a capture group yields an odd number of pieces |
| MathSegments.Tag | src/components/QuestionModal.tsx:22-36 | tags one segment per split piece |
| MathSegments.FlattenConcat | src/components/QuestionModal.tsx:22-36 | the source text of concatenated segments is the concatenation of their sources |
| MathSegments.TagPair | src/components/QuestionModal.tsx:23 | tagging by index parity is unchanged across a text/math pair |
| MathSegments.FlattenPair | src/components/QuestionModal.tsx:22-27 | a text segment followed by a math segment reproduces the text and the delimited math |
| MathSegments.FlattenTagPair | src/components/QuestionModal.tsx:22-27 | the source of a tagged pair plus rest is the pair's source followed by the rest's source |
| MathSegments.FirstMatchCuts | src/components/QuestionModal.tsx:22 | the first match splits the text into before, delimited match, and after |
| MathSegments.SplitRoundTrip | src/components/MathEditor.tsx:78-89 | wrapping each odd-indexed piece in its delimiters and concatenating all pieces reproduces the text |
| MathSegments.Segment | src/components/QuestionModal.tsx:21-39 | the block split when the text holds a `$$…$$` pair, else the inline split; stated by `SegmentKinds`, `SegmentRoundTrip` and `SingleInlineSegment` |
| MathSegments.SegmentRoundTrip | src/components/MathEditor.tsx:76-97 | the segments' sources concatenate to the segmented text |
| MathSegments.SegmentKinds | src/components/QuestionModal.tsx:21-39 | a `$$…$$` pair takes precedence and then no inline segment appears; otherwise `$…$` is used; text with neither is returned whole; even-indexed segments exactly are text |
| MathSegments.TextBeforeFirstMatchIsPlain | src/components/QuestionModal.tsx:21-37 | the text before the first match contains no match of that pattern |
| MathSegments.MatchInPrefix | src/components/QuestionModal.tsx:17-19 | a match in a prefix of the text is also a match in the whole text |
| MathSegments.InlineSearchSkips | src/components/QuestionModal.tsx:19-30 | the inline search passes over a stretch without `$` and finds the same match as from its end |
| MathSegments.NoInlineAtPlain | src/components/QuestionModal.tsx:19 | no inline match starts at a character other than `$` |
| MathSegments.SearchPassesNoMatch | src/components/QuestionModal.tsx:21-37 | at a position where the pattern does not match, the search result is that of the next position |
| MathSegments.InlineHit | src/components/QuestionModal.tsx:19 | a `$…$` pair at `q` closing at `e` is the match found at `q`, with the characters between as its group |
| MathSegments.SplitWithoutDollar | src/components/QuestionModal.tsx:31 | a text without `$` splits on the inline pattern into itself alone |
| MathSegments.DollarsOfPair | src/components/QuestionModal.tsx:19 | in `pre $ c $ post` with no other `$`, the `$` signs are exactly the two delimiters |
| MathSegments.SingleInlineSegment | src/components/QuestionModal.tsx:21-37 | a text with exactly one `$c$` pair, `c` non-empty, becomes the text before, the inline math `c`, and the text after |
| MathEditor.EndsWithCommand | src/components/MathEditor.tsx:52 | `before.match(/\\[a-zA-Z]+$/)`; stated by `CommandGuardUnreachable` |
| MathEditor.FractionFor | src/components/MathEditor.tsx:51-54 | the replace callback, keeping the match when the guard fires and otherwise writing `before\frac{}{after}`; stated by `CommandGuardUnreachable`, `FractionStep` and `FractionRewrite` |
| MathEditor.FractionAfterChar | src/components/MathEditor.tsx:50 | the first alternative `[^\\]` followed by `\/([^\/])`; stated by `FractionStep`, `FractionsCopyStep` and `FractionsKeepsHead` |
| MathEditor.FractionAtLineStart | src/components/MathEditor.tsx:50 | the `^` alternative followed by `\/([^\/])`; stated by `LeadingFractionStep` and `FractionsCopyStep` |
| MathEditor.FractionsFrom | src/components/MathEditor.tsx:50-54 | the global fraction `replace` as a left-to-right scan without overlap, told whether it stands at the line start; each step is stated by `FractionStep`, `LeadingFractionStep` and `FractionsCopyStep` below |
| MathEditor.Fractions | src/components/MathEditor.tsx:50-54 | the fraction `replace` over a whole line; its effect is stated by `FractionRewrite`, `LeadingFractionRewrite`, `SingleFraction`, `FractionsIdentity` and the kept-slash lemmas below |
| MathEditor.CommandGuardUnreachable | src/components/MathEditor.tsx:50-52 | a captured prefix of at most one non-backslash character never ends in `\` + letters, so the guard never fires |
| MathEditor.FractionsCopyStep | src/components/MathEditor.tsx:50 | where neither alternative of the fraction pattern matches, the first character is copied and the scan moves on |
| MathEditor.FractionStep | src/components/MathEditor.tsx:50-54 | where `x/y` matches, `x\frac{}{y}` is written and the scan resumes after `y` |
| MathEditor.LeadingFractionStep | src/components/MathEditor.tsx:50-54 | where `/y` matches at the line start, `\frac{}{y}` is written and the scan resumes after `y` |
| MathEditor.FractionRewrite | src/components/MathEditor.tsx:50-54 | `x/y` with `x` not a backslash and `y` not `/` becomes `x\frac{}{y}`, and the scan resumes after `y` |
| MathEditor.LeadingFractionRewrite | src/components/MathEditor.tsx:50-54 | a `/y` at the start of the line becomes `\frac{}{y}` |
| MathEditor.FractionsKeepsHead | src/components/MathEditor.tsx:50 | away from the line start, the first character is always kept |
| MathEditor.SlashAfterBackslashKept | src/components/MathEditor.tsx:50 | `\/` is left in place |
| MathEditor.TrailingSlashKept | src/components/MathEditor.tsx:50 | the fraction rewrite of a line that ends in `/` still ends in `/` |
| MathEditor.DoubleSlashNotRewrittenHere | src/components/MathEditor.tsx:50 | `x//` is not rewritten at `x`; `x` is copied and the scan moves on |
| MathEditor.SingleFraction | src/components/MathEditor.tsx:50-54 | a line whose only `/` sits between `x` and `y` gets exactly that one fraction |
| MathEditor.FractionsIdentity | src/components/MathEditor.tsx:50 | a line without `/` passes the fraction rewrite unchanged |
| MathEditor.GroupClose | src/components/MathEditor.tsx:57-58 | a group found closes at a `)` after its first content character |
| MathEditor.GroupCloseSpec | src/components/MathEditor.tsx:57-58 | a group found holds no `)` (the content `[^)]+`); none is found only when the content is empty or never closed |
| MathEditor.GroupCloseAt | src/components/MathEditor.tsx:57-58 | a non-empty group free of `)` closes at the `)` right after it |
| MathEditor.GroupEmptyAt | src/components/MathEditor.tsx:57-58 | an empty group `()` is not matched |
| MathEditor.SubscriptsCopyStep | src/components/MathEditor.tsx:57 | where no `\_(…)` group starts, the first character is copied |
| MathEditor.SuperscriptsCopyStep | src/components/MathEditor.tsx:58 | where no `^(…)` or `\^(…)` group starts, the first character is copied |
| MathEditor.SubscriptsCopyPlain | src/components/MathEditor.tsx:57 | a stretch without `\` is copied by the subscript rewrite |
| MathEditor.SuperscriptsCopyPlain | src/components/MathEditor.tsx:58 | a stretch without `\` and `^` is copied by the superscript rewrite |
| MathEditor.SubscriptAt | src/components/MathEditor.tsx:57 | a `\\_\(([^)]+)\)` match at the head; stated by `SubscriptRewrite`, `SubscriptsCopyStep` and `EmptySubscriptKept` |
| MathEditor.EscapedSuperscriptAt | src/components/MathEditor.tsx:58 | the `\\?\^\(([^)]+)\)` match with its optional backslash present; stated by `EscapedSuperscriptRewrite` and `SuperscriptsCopyStep` |
| MathEditor.SuperscriptAt | src/components/MathEditor.tsx:58 | the same pattern without the backslash; stated by `SuperscriptRewrite`, `SuperscriptsCopyStep` and `EmptySuperscriptKept` |
| MathEditor.Subscripts | src/components/MathEditor.tsx:57 | the global `\_(…)` `replace` as a scan; stated by `SubscriptRewrite`, `SubscriptsCopyStep`, `BareUnderscoreKept`, `EmptySubscriptKept` and `SubscriptsIdentity` |
| MathEditor.Superscripts | src/components/MathEditor.tsx:58 | the global `\?^(…)` `replace` as a scan; stated by `EscapedSuperscriptRewrite`, `SuperscriptRewrite`, `SuperscriptsCopyStep`, `EmptySuperscriptKept` and `SuperscriptsIdentity` |
| MathEditor.Preprocess | src/components/MathEditor.tsx:48-61 | `preprocessMath`: the three rewrites in order; stated by `PreprocessIdentity`, `PreprocessSingleFraction` and `PreprocessFractionThenInline` |
| MathEditor.SubscriptRewrite | src/components/MathEditor.tsx:57 | `\_(c)` becomes `_{c}` for non-empty `c` with no `)` |
| MathEditor.EscapedSuperscriptRewrite | src/components/MathEditor.tsx:58 | `\^(c)` becomes `^{c}` for non-empty `c` with no `)` |
| MathEditor.SuperscriptRewrite | src/components/MathEditor.tsx:58 | `^(c)` becomes `^{c}` for non-empty `c` with no `)` |
| MathEditor.BareUnderscoreKept | src/components/MathEditor.tsx:57 | a bare `_(` is copied unchanged and the scan goes on after it |
| MathEditor.EmptySubscriptKept | src/components/MathEditor.tsx:57 | an empty group `\_()` is copied unchanged and the scan goes on after it |
| MathEditor.EmptySuperscriptKept | src/components/MathEditor.tsx:58 | an empty group `^()` is copied unchanged and the scan goes on after it |
| MathEditor.SubscriptsIdentity | src/components/MathEditor.tsx:57 | text without `(` passes the subscript rewrite unchanged |
| MathEditor.SuperscriptsIdentity | src/components/MathEditor.tsx:58 | text without `(` passes the superscript rewrite unchanged |
| MathEditor.PreprocessIdentity | src/components/MathEditor.tsx:48-61 | text without `/` and `(` passes `preprocessMath` unchanged |
| MathEditor.RenderMathContent | src/components/MathEditor.tsx:63-104 | the editor preview; stated by `RenderStructure`, `RenderLines`, `RenderSingleLine` and `RenderFractionThenInline` |
| MathEditor.RenderStructure | src/components/MathEditor.tsx:63-104 | blank text is returned unchanged, and only blank text is; otherwise there is one unit per line, each the segmentation of the preprocessed line, and its sources reproduce that line |
| MathEditor.RenderLines | src/components/MathEditor.tsx:64-101 | non-blank text gives one unit per line, each the segmentation of its preprocessed line, reproducing that line |
| MathEditor.UnitsReproduceLines | src/components/MathEditor.tsx:74-97 | the segments of each preprocessed line concatenate back to that line |
| MathEditor.PreprocessSingleFraction | src/components/MathEditor.tsx:48-61 | a line with one fraction and no `(` gains exactly that fraction command |
| MathEditor.RenderSingleLine | src/components/MathEditor.tsx:64-73 | non-blank text without a line feed renders as a single unit |
| MathEditor.PreprocessFractionThenInline | src/components/MathEditor.tsx:48-61 | in a line `x/y…$c$…` of plain text, only the leading fraction is rewritten |
| MathEditor.RenderOneInlinePair | src/components/MathEditor.tsx:63-101 | a non-blank single line whose preprocessed form holds one `$c$` pair renders as one unit: text, inline math `c`, text |
| MathEditor.FractionLineIsSingle | src/components/MathEditor.tsx:64-68 | a plain line opening with a non-space character is one line and is not blank |
| MathEditor.RenderFractionThenInline | src/components/MathEditor.tsx:48-101 | `x/y…$c$…` renders as one unit: text with `x\frac{}{y}` in place of `x/y`, the inline math `c`, then the rest |
| MathEditor.InsertSymbol | src/components/MathEditor.tsx:110-126 | without a textarea, nothing happens; otherwise the new value is `value[..start] + symbol + value[end..]`, the prefix and suffix are kept, and the cursor lands at `start + |symbol|` |
| QuestionModal.RenderMathContent | src/components/QuestionModal.tsx:15-40 | the whole text is segmented once, with no preprocessing; the segments reproduce it; even indices are text; text with neither pattern comes back whole |
| QuestionModal.EditorPreviewAgrees | src/components/QuestionModal.tsx:15-40 | on a single line untouched by the preprocessor, the editor preview and the dialog agree |
| QuestionModal.Dialog.constructor | src/components/QuestionModal.tsx:42-43 | the answer starts hidden, and no callback has been called |
| QuestionModal.Dialog.SetProps | src/components/QuestionModal.tsx:42-43 | new props leave the revealed flag and the log alone |
| QuestionModal.Dialog.RevealAnswer | src/components/QuestionModal.tsx:87-89 | Show Answer sets the flag and changes nothing else |
| QuestionModal.Dialog.HandleClose | src/components/QuestionModal.tsx:45-48 | hides the answer and calls only `onClose` |
| QuestionModal.Dialog.HandleAnswered | src/components/QuestionModal.tsx:50-54 | calls `onAnswered` exactly once, then `onClose`, and hides the answer |
| QuestionModal.Dialog.View | src/components/QuestionModal.tsx:56-113 | nothing is shown without a question; the title is its value; the answer, Mark as Answered and Close appear exactly when the answer is shown; Show Answer appears exactly when it is not |
| JeopardyBoard.OfValueConcat | src/components/JeopardyBoard.tsx:34 | the questions of one value in a concatenation are those of each part, in order |
| JeopardyBoard.OfValueCons | src/components/JeopardyBoard.tsx:34 | the questions of one value in a list with a new head: the head if it has that value, then the rest's |
| JeopardyBoard.OfValueBelowFirst | src/components/JeopardyBoard.tsx:34 | a sorted list has no question below its first value |
| JeopardyBoard.HasOwnValue | src/components/JeopardyBoard.tsx:34 | a non-empty list has a question of its first value |
| JeopardyBoard.Insert | src/components/JeopardyBoard.tsx:34 | inserting adds one element |
| JeopardyBoard.InsertCounts | src/components/JeopardyBoard.tsx:34 | inserting adds exactly `q` and keeps every other element |
| JeopardyBoard.InsertAbove | src/components/JeopardyBoard.tsx:34 | inserting a question no lower than a bound into a list no lower than it keeps the list no lower than it |
| JeopardyBoard.InsertSorted | src/components/JeopardyBoard.tsx:34 | inserting into a sorted list keeps it sorted |
| JeopardyBoard.InsertValues | src/components/JeopardyBoard.tsx:34 | the inserted question comes before the others of its value, whose order is kept |
| JeopardyBoard.SortByValue | src/components/JeopardyBoard.tsx:33-34 | the sort keeps the length |
| JeopardyBoard.SortByValueSpec | src/components/JeopardyBoard.tsx:33-34 | the result is in nondecreasing value order, is a permutation of the input, and keeps the relative order of equal values (stable) |
| JeopardyBoard.LowestFirst | src/components/JeopardyBoard.tsx:34 | two sorted lists with the same questions of every value start at the same value |
| JeopardyBoard.SameHead | src/components/JeopardyBoard.tsx:34 | two sorted lists with the same questions of every value start with the same question |
| JeopardyBoard.OfValueTail | src/components/JeopardyBoard.tsx:34 | removing the head removes it from its own value's questions only |
| JeopardyBoard.SameTails | src/components/JeopardyBoard.tsx:34 | lists with the same head that agree on every value still agree without it |
| JeopardyBoard.SortedTail | src/components/JeopardyBoard.tsx:34 | the tail of a sorted list is sorted |
| JeopardyBoard.SortedUnique | src/components/JeopardyBoard.tsx:34 | two sorted lists with the same questions of every value are equal, so the stable sort is unique |
| JeopardyBoard.SortSortedIsIdentity | src/components/JeopardyBoard.tsx:34 | sorting an already ordered list changes nothing |
| JeopardyBoard.PairValues | src/components/JeopardyBoard.tsx:34 | two questions of different values in either order have the same questions of each value |
| JeopardyBoard.SwapPairValues | src/components/JeopardyBoard.tsx:34 | exchanging two neighbours of different values inside a list keeps each value's questions |
| JeopardyBoard.SwapKeepsValues | src/components/JeopardyBoard.tsx:34 | swapping two neighbours of different values keeps every value's questions in order |
| JeopardyBoard.SortInPlace | src/components/JeopardyBoard.tsx:33-34 | the in-place sort of the category's array leaves it equal to the stable sort of its old contents |
| JeopardyBoard.SinkStarts | src/components/JeopardyBoard.tsx:34 | a sorted prefix plus the next question is the start of one insertion step |
| JeopardyBoard.SinkSwap | src/components/JeopardyBoard.tsx:34 | moving the inserted question past a higher neighbour keeps the prefix ordered apart from it, and it below all that follow |
| JeopardyBoard.SinkDone | src/components/JeopardyBoard.tsx:34 | once the inserted question meets no higher neighbour, the prefix including it is sorted |
| JeopardyBoard.CellFor | src/components/JeopardyBoard.tsx:39-51 | `disabled={answeredQuestions.includes(question.id)}` and the struck-through `$value` for an answered question; stated by `ColumnLayout` and `Click` |
| JeopardyBoard.ColumnFor | src/components/JeopardyBoard.tsx:21-53 | the category header, then `category.questions.sort((a, b) => a.value - b.value).map(...)`; stated by `ColumnLayout` |
| JeopardyBoard.BoardView | src/components/JeopardyBoard.tsx:16-21 | the title, then `game.categories.map(...)`; stated by `BoardLayout` |
| JeopardyBoard.ColumnLayout | src/components/JeopardyBoard.tsx:33-51 | a column shows its category's name and the questions sorted stably by value; a button is disabled exactly when its id was answered, and then its `$value` is struck through |
| JeopardyBoard.BoardLayout | src/components/JeopardyBoard.tsx:16-21 | the board shows the game's title and one column per category, in game order |
| JeopardyBoard.Questions | src/components/JeopardyBoard.tsx:35-38 | the button list's questions, one per button, in order |
| JeopardyBoard.Click | src/components/JeopardyBoard.tsx:38-39 | pressing a button gives its question exactly when the button is enabled |
| JeopardyBoard.ClickedIsUnanswered | src/components/JeopardyBoard.tsx:38-39 | a question picked on the board is unanswered and belongs to that column's category |
| JeopardyMaker.FindIndex | src/pages/JeopardyMaker.tsx:51 | returns the first position holding the id, or -1 exactly when no game has it |
| JeopardyMaker.FindIndexAt | src/pages/JeopardyMaker.tsx:51 | the first position holding the id is the one `findIndex` returns |
| JeopardyMaker.Saved | src/pages/JeopardyMaker.tsx:51-57 | `saveGame`'s list update; stated by `SaveReplacesOrAppends`, `SaveKeepsIdsDistinct`, `SaveIdempotent` and `SaveThenFind` |
| JeopardyMaker.Deleted | src/pages/JeopardyMaker.tsx:43 | `deleteGame`'s filter; stated by `DeleteRemovesId`, `DeleteUndoesSave` and `DeleteIgnoresUpdate` |
| JeopardyMaker.SaveReplacesOrAppends | src/pages/JeopardyMaker.tsx:51-57 | an existing id has its first slot overwritten, with the length and all other entries unchanged; a new id is appended at the end |
| JeopardyMaker.SaveKeepsIdsDistinct | src/pages/JeopardyMaker.tsx:51-57 | saving keeps the list's ids distinct |
| JeopardyMaker.SaveIdempotent | src/pages/JeopardyMaker.tsx:51-57 | saving the same game twice is the same as saving it once, so it never appears twice |
| JeopardyMaker.SaveThenFind | src/pages/JeopardyMaker.tsx:51-57 | after a save, looking up the id finds the saved game |
| JeopardyMaker.DeleteRemovesId | src/pages/JeopardyMaker.tsx:43 | deleting removes every game with the id and keeps the others in order; an absent id leaves the list unchanged |
| JeopardyMaker.DeleteUndoesSave | src/pages/JeopardyMaker.tsx:43-57 | deleting an id after saving a game with that id gives the same list as deleting it without the save |
| JeopardyMaker.DeleteIgnoresUpdate | src/pages/JeopardyMaker.tsx:43-55 | deleting an id ignores an overwrite of a slot that holds that id |
| JeopardyMaker.EditedGameReplacesStored | src/pages/JeopardyMaker.tsx:51-55 | saving from the editor opened on a stored game keeps its id and replaces it, and the list keeps its length |
| JeopardyMaker.NewGameAppended | src/pages/JeopardyMaker.tsx:56-57 | a new game saved under an unused fresh id is appended |
| JeopardyMaker.Answer | src/pages/JeopardyMaker.tsx:62-70 | `handleQuestionAnswered`'s update of the play state; stated by `AnswerAllScores`, `AnswerKeepsDistinct` and `AnswerTwiceRepeats` |
| JeopardyMaker.AnswerAllScores | src/pages/JeopardyMaker.tsx:62-70 | answering questions one after the other adds the sum of their values and appends their ids in order |
| JeopardyMaker.AnswerKeepsDistinct | src/pages/JeopardyMaker.tsx:65-66 | answering an unanswered question keeps the answered list free of repeats |
| JeopardyMaker.AnswerTwiceRepeats | src/pages/JeopardyMaker.tsx:62-70 | the handler has no duplicate guard: answering one question twice lists its id twice and counts its value twice |
| JeopardyMaker.BoardPickKeepsDistinct | src/components/JeopardyBoard.tsx:38-39 | because the board disables answered questions, answering a board pick keeps the list free of repeats |
| JeopardyMaker.Page.constructor | src/pages/JeopardyMaker.tsx:17-24 | the page opens on home with the stored games and state, no current game and no selection |
| JeopardyMaker.Page.CreateNewGame | src/pages/JeopardyMaker.tsx:26-29 | clears the current game and opens the editor |
| JeopardyMaker.Page.EditGame | src/pages/JeopardyMaker.tsx:31-34 | sets the current game and opens the editor |
| JeopardyMaker.Page.PlayGame | src/pages/JeopardyMaker.tsx:36-40 | sets the current game, resets the score to 0 with nothing answered, and enters play |
| JeopardyMaker.Page.DeleteGame | src/pages/JeopardyMaker.tsx:42-48 | the list becomes the filtered list; nothing else changes |
| JeopardyMaker.Page.SaveGame | src/pages/JeopardyMaker.tsx:50-60 | the slot write or the append leaves the list equal to `Saved`, and the view returns home |
| JeopardyMaker.Page.BackToHome | src/pages/JeopardyMaker.tsx:75-89 | returns home without resetting the game or the play state |
| JeopardyMaker.Page.SelectQuestion | src/pages/JeopardyMaker.tsx:113 | records the picked question |
| JeopardyMaker.Page.CloseQuestion | src/pages/JeopardyMaker.tsx:121 | clears the selection |
| JeopardyMaker.Page.HandleQuestionAnswered | src/pages/JeopardyMaker.tsx:62-70 | with a question and a game, adds exactly the value to the score and appends the id once; otherwise the state is unchanged; the selection is always cleared |
| JeopardyMaker.Page.Render | src/pages/JeopardyMaker.tsx:72-220 | the editor view wins; play needs a loaded game and otherwise falls through to home; the play screen shows the score, the board of the answered list, and a dialog open exactly when a question is selected |
| GameEditor.NewCategory | src/components/GameEditor.tsx:39-52 | a new category has no name and five questions with the given ids, empty texts and images, and values 100, 200, 300, 400, 500 in order |
| GameEditor.NewCategoryInBoardOrder | src/components/GameEditor.tsx:44-50 | a new category is already in board order, so the board's sort leaves it unchanged |
| GameEditor.InitialTitle | src/components/GameEditor.tsx:21 | uses the game's title, or 'New Jeopardy Game' when there is no game or its title is empty |
| GameEditor.InitialCategories | src/components/GameEditor.tsx:22-37 | uses the game's categories (even an empty list); without a game, starts with one new category |
| GameEditor.WithoutCategory | src/components/GameEditor.tsx:55-57 | `removeCategory`'s filter; stated by `RemoveOne` and `RemoveLeavesOne` |
| GameEditor.RemoveLeavesOne | src/components/GameEditor.tsx:159-167 | the remove button appears only with more than one category, and with distinct ids it removes exactly one, so one is left |
| GameEditor.RemoveOne | src/components/GameEditor.tsx:55-57 | with distinct ids, removing an existing id drops exactly one category |
| GameEditor.WithCategoryName | src/components/GameEditor.tsx:59-63 | `updateCategory`'s map; stated by `RenameOnlyTouchesName` |
| GameEditor.RenameOnlyTouchesName | src/components/GameEditor.tsx:59-63 | renaming changes only the name of the matching category; ids, order and questions stay |
| GameEditor.ImageValue | src/components/GameEditor.tsx:209 | a removed image (no value) is stored as the empty string |
| GameEditor.WithQuestionField | src/components/GameEditor.tsx:65-76 | `updateQuestion`'s nested map; stated by `EditOnlyTouchesField` and `WithFieldReadBack` |
| GameEditor.EditOnlyTouchesField | src/components/GameEditor.tsx:65-76 | only the named field of the matching question in the matching category changes; everything else stays the same |
| GameEditor.WithField | src/components/GameEditor.tsx:71 | the spread `{ ...q, [field]: value }`; stated by `WithFieldReadBack` and `EditOnlyTouchesField` |
| GameEditor.WithFieldReadBack | src/components/GameEditor.tsx:71 | the written field reads back as the new value, and the other fields keep their values |
| GameEditor.UnnamedCategories | src/components/GameEditor.tsx:89 | `categories.filter(c => !c.name.trim())`; stated by `SaveValidation` |
| GameEditor.SaveResult | src/components/GameEditor.tsx:78-107 | `handleSave`'s checks and the saved game; stated by `SaveValidation` and `SavedTimesOrdered` |
| GameEditor.SaveValidation | src/components/GameEditor.tsx:78-107 | a blank title is refused first, exactly then; a blank category name is refused, exactly then; otherwise the game carries the edited title and categories, the existing non-empty id or a fresh one, the existing `createdAt` or now, and `lastModified` now |
| GameEditor.SavedTimesOrdered | src/components/GameEditor.tsx:99-105 | with a clock that does not run backwards, a saved game was modified no earlier than it was created |
| GameEditor.Editor.constructor | src/components/GameEditor.tsx:19-37 | the editor opens on the initial title and categories with nothing saved |
| GameEditor.Editor.SetTitle | src/components/GameEditor.tsx:144 | the title input replaces the title only |
| GameEditor.Editor.AddCategory | src/components/GameEditor.tsx:39-53 | appends one new category and leaves the existing ones unchanged |
| GameEditor.Editor.RemoveCategory | src/components/GameEditor.tsx:55-57 | drops the categories with that id and keeps the rest in order |
| GameEditor.Editor.UpdateCategory | src/components/GameEditor.tsx:59-63 | renames the matching category |
| GameEditor.Editor.UpdateQuestion | src/components/GameEditor.tsx:65-76 | writes one field of one question |
| GameEditor.Editor.HandleSave | src/components/GameEditor.tsx:78-112 | a refused save only adds an error notice, and `onSave` is not called; an accepted one calls `onSave` once with the built game, then notifies; title and categories are unchanged |
| TeamSetup.TeamAt | src/components/TeamSetup.tsx:37-42 | the team the loop pushes at index `i`; stated by `TeamIdsDistinct`, `TeamColorsCycle` and `NewTeams` |
| TeamSetup.NewTeams | src/components/TeamSetup.tsx:34-43 | the loop builds exactly `count` teams, team i being `TeamAt(i)`: id `team-(i+1)`, the translated label and number, colour `teamColors[i mod 8]`, score 0 |
| TeamSetup.TeamIdsDistinct | src/components/TeamSetup.tsx:38 | generated teams have distinct ids |
| TeamSetup.TeamColorsCycle | src/components/TeamSetup.tsx:17-40 | eight consecutive teams have eight different colours, and team i+8 has team i's colour |
| TeamSetup.OfferedCountsFitPalette | src/components/TeamSetup.tsx:30-82 | the counts offered are 2 to 5, with 2 the default, and each fits the palette |
| TeamSetup.DefaultNamesShowKey | src/components/TeamSetup.tsx:39 | in both languages the default names read `teams.teamName 1`, `teams.teamName 2`, …, because the key is untranslated |
| TeamSetup.Setup.constructor | src/components/TeamSetup.tsx:30-32 | starts at count 2, no teams, the select step |
| TeamSetup.Setup.ChooseCount | src/components/TeamSetup.tsx:86 | a count button sets the count only |
| TeamSetup.Setup.InitializeTeams | src/components/TeamSetup.tsx:34-46 | generates `numTeams` teams as `TeamAt` says, and moves to the customize step |
| TeamSetup.WithTeamField | src/components/TeamSetup.tsx:50 | the spread that overwrites one field of a team; stated by `Setup.UpdateTeam` |
| TeamSetup.Setup.UpdateTeam | src/components/TeamSetup.tsx:48-52 | changes only the given field of the team at that index |
| TeamSetup.Setup.HandleStart | src/components/TeamSetup.tsx:54-57 | passes the current team list unchanged to `onStart`, then calls `onClose` |
| TeamSetup.Setup.HandleClose | src/components/TeamSetup.tsx:59-63 | resets the step to select and the team list to empty, then calls `onClose` |
| TeamSetup.Setup.BackToSelect | src/components/TeamSetup.tsx:145 | the back button returns to select and keeps the teams |
| LanguageContext.EnglishText | src/contexts/LanguageContext.tsx:15-120 | the English table; stated by `TablesHaveSameKeys` and the five key-missing lemmas |
| LanguageContext.FrenchText | src/contexts/LanguageContext.tsx:121-226 | the French table; stated by `TablesHaveSameKeys` and the five key-missing lemmas |
| LanguageContext.Translation | src/contexts/LanguageContext.tsx:237 | `translations[language][key]`, with a missing entry as none; stated by `TablesHaveSameKeys`, `EnglishKeysTranslated`, `FrenchKeysTranslated` and the `…KeyMissing` lemmas |
| LanguageContext.T | src/contexts/LanguageContext.tsx:236-238 | returns the current language's text when there is a non-empty one, and otherwise the key itself |
| LanguageContext.TablesHaveSameKeys | src/contexts/LanguageContext.tsx:15-226 | a key is in the English table exactly when it is in the French one |
| LanguageContext.EnglishKeysTranslated | src/contexts/LanguageContext.tsx:15-226 | every key of the English table has a French text |
| LanguageContext.FrenchKeysTranslated | src/contexts/LanguageContext.tsx:15-226 | every key of the French table has an English text |
| LanguageContext.TeamKeysUntranslated | src/contexts/LanguageContext.tsx:237 | `teams.teamName`, `teams.selectTeams`, `teams.customizeTeams`, `teams.startGame` and `button.next` come back as themselves in both languages |
| LanguageContext.TeamNameKeyMissing | src/contexts/LanguageContext.tsx:15-226 | neither table has `teams.teamName` |
| LanguageContext.SelectTeamsKeyMissing | src/contexts/LanguageContext.tsx:15-226 | neither table has `teams.selectTeams` |
| LanguageContext.CustomizeTeamsKeyMissing | src/contexts/LanguageContext.tsx:15-226 | neither table has `teams.customizeTeams` |
| LanguageContext.StartGameKeyMissing | src/contexts/LanguageContext.tsx:15-226 | neither table has `teams.startGame` |
| LanguageContext.NextKeyMissing | src/contexts/LanguageContext.tsx:15-226 | neither table has `button.next` |
| LanguageContext.Provider.constructor | src/contexts/LanguageContext.tsx:234 | the language is the stored one, or English when none is stored |
| LanguageContext.Provider.SetLanguage | src/contexts/LanguageContext.tsx:234-241 | switching the language sets it |
| LanguageContext.Provider.Translate | src/contexts/LanguageContext.tsx:236-238 | the provider's `t` in the current language: the text when there is a non-empty one, and the key when the text is missing or empty |
| LanguageContext.UseLanguage | src/contexts/LanguageContext.tsx:247-253 | fails outside a provider and returns the context inside one |
| ImageUpload.LimitBytes | src/components/ImageUpload.tsx:23 | `maxSize * 1024 * 1024`; stated by `LimitIsInclusive` and `DefaultLimitDecides` |
| ImageUpload.CheckSelection | src/components/ImageUpload.tsx:18-40 | no file does nothing; a size above `maxSize·1024·1024` is refused first; then a type not starting with `image/`; otherwise the file is accepted; each case holds exactly when its condition does |
| ImageUpload.NoticeTitle | src/components/ImageUpload.tsx:24-38 | only the two refusals raise an error notice |
| ImageUpload.LimitIsInclusive | src/components/ImageUpload.tsx:23 | an image of exactly the limit passes, one byte more is refused |
| ImageUpload.DefaultLimitDecides | src/components/ImageUpload.tsx:13-33 | with the default 5 MB limit, a file is refused as too large exactly when it has more than 5242880 bytes, and is otherwise accepted exactly when its type starts with `image/` |
| ImageUpload.SizeCheckedBeforeType | src/components/ImageUpload.tsx:23-33 | an oversized file is reported as too large whatever its type |
| ImageUpload.ImageSubtypesAccepted | src/components/ImageUpload.tsx:33 | a file that fits is accepted for every type `image/…`, whatever follows the slash |
| ImageUpload.OtherTypesRefused | src/components/ImageUpload.tsx:33 | a file that fits is refused as not an image when its type is shorter than `image/` or differs from it in one of its first six characters |
| ImageUpload.RemoveImage | src/components/ImageUpload.tsx:75-76 | removing the image hands `undefined` to `onChange` |
| ImageUpload.RemovedImageStoredEmpty | src/components/GameEditor.tsx:209 | the editor stores a removed image as the empty string |
| ImageUpload.ShowsImage | src/components/ImageUpload.tsx:92 | the `value ?` test choosing between the preview and the upload button; stated by `RemoveHidesImage` |
| ImageUpload.RemoveHidesImage | src/components/ImageUpload.tsx:92 | after removal the picker shows the upload button again, not an image |
| MathTutorial.CategoryKey | src/components/MathTutorial.tsx:22 | the category strings `basic` to `advanced`; stated by `CategoryKeysDistinct` and `TabContents` |
| MathTutorial.CategoryKeysDistinct | src/components/MathTutorial.tsx:22 | the five category keys are different strings |
| MathTutorial.FiledUnder | src/components/MathTutorial.tsx:87 | the filter test `symbol.category === category`; stated by `SymbolsByCategory` and `GroupFilter` |
| MathTutorial.SymbolsByCategory | src/components/MathTutorial.tsx:86-88 | returns only table entries filed under the key, and every entry filed under it |
| MathTutorial.GroupFilter | src/components/MathTutorial.tsx:86-88 | filtering a block of one category gives the whole block for its key and nothing for any other key |
| MathTutorial.BlocksAreUniform | src/components/MathTutorial.tsx:25-65 | each block of the table holds only its own category |
| MathTutorial.FilterFiveBlocks | src/components/MathTutorial.tsx:86-88 | filtering five uniform blocks by one category's key gives that category's block |
| MathTutorial.FilterFive | src/components/MathTutorial.tsx:86-88 | filtering five concatenated blocks filters each block |
| MathTutorial.PickBlock | src/components/MathTutorial.tsx:86-88 | keeping each block exactly when its category is `d` leaves the block of `d` |
| MathTutorial.TabContents | src/components/MathTutorial.tsx:86-189 | each tab lists exactly its own block of the table, in table order |
| MathTutorial.TabsPartitionTable | src/components/MathTutorial.tsx:25-65 | the 30 entries split into 5 basic, 9 greek, 6 functions, 7 operators and 3 advanced, and the tabs together list the table in order |
| MathTutorial.UnknownCategoryIsEmpty | src/components/MathTutorial.tsx:86-88 | a key that names no category gives an empty list |
| MathTutorial.HasEmptyGroup | src/components/MathTutorial.tsx:122 | `symbol.symbol.includes('{}')`; stated by `FillRemovesPlaceholders`, `FillWithoutPlaceholders` and `Preview` |
| MathTutorial.FillPlaceholders | src/components/MathTutorial.tsx:123 | `replace(/\{\}/g, 'x')`; stated by `FillHead`, `FillRemovesPlaceholders`, `FillWithoutPlaceholders` and `FillAfterPlain` |
| MathTutorial.FillHead | src/components/MathTutorial.tsx:123 | filling keeps the text's emptiness, and the first output character is `x` or the first input character |
| MathTutorial.FillRemovesPlaceholders | src/components/MathTutorial.tsx:123 | after `replace(/\{\}/g, 'x')` no `{}` is left |
| MathTutorial.FillWithoutPlaceholders | src/components/MathTutorial.tsx:122-126 | text without `{}` is left unchanged |
| MathTutorial.Preview | src/components/MathTutorial.tsx:122-126 | the previewed math contains no `{}`, and a snippet without `{}` is shown as it is; the `includes` test skips only a replacement that would change nothing |
| MathTutorial.FillAfterPlain | src/components/MathTutorial.tsx:123 | a prefix without `{` is copied unchanged by the filling |
| MathTutorial.FractionPreview | src/components/MathTutorial.tsx:27-123 | the fraction card previews `\fracxx`, because the braces themselves are the placeholder |
| MathTutorial.AfterCopy | src/components/MathTutorial.tsx:72-84 | a successful write records the snippet, and a failed one changes nothing |
| MathTutorial.IsCopied | src/components/MathTutorial.tsx:91 | `isCopied = copiedSymbol === symbol.symbol`; stated by `CopyMarksClickedCard` |
| MathTutorial.CopyMarksClickedCard | src/components/MathTutorial.tsx:74-91 | after a successful copy, a card is marked exactly when its snippet is the copied one; a failed copy changes no mark |

## Left out

- JSX markup and styling are left out, as are dialogs' open/close animation, tabs, icons and toasts. Toasts appear only as a notice log where the notice decides something (editor save, image refusals).
- KaTeX rendering (`InlineMath`/`BlockMath`) is left out: math segments are tagged strings. The `try/catch` fallback in the editor preview reduces to returning the text. No segmentation step can throw, so it is not modelled.
- `useLocalStorage` is not part of this model. The persisted games and play state are in-memory fields, and the page's constructor takes their stored values.
- `crypto.randomUUID` and `new Date()` are parameters. `GameEditor.Editor.HandleSave` takes one `now` for the two clock reads. This is a simplification: in the source the two `new Date()` calls may differ by a few milliseconds.
- The FileReader/base64 conversion in `ImageUpload.tsx:42-72`, its `isUploading` flag and its error paths are left out. They are asynchronous I/O, so an accepted file's `onChange` is not modelled.
- The clipboard write, the 2-second reset of `copiedSymbol` and the console logging in `MathTutorial.tsx` are left out. The write's success is a parameter of `MathTutorial.AfterCopy`.
- The math editor's `showSymbols` toggle and the timed cursor placement are left out. `MathEditor.InsertSymbol` returns the cursor position it would set.
- The display glyphs of the symbol tables are presentation, so they are left out. The tables keep the snippet, caption and category.
- `TeamSelector.tsx` and `LanguageToggle.tsx` are not part of this model. Team scoring and team play are not wired to any page, so they are not modelled.
- `GameEditor.Editor.UpdateQuestion` covers only the four fields the editor's inputs write: question, answer and the two images. The source's `keyof` parameter could also name `id`, `value` or `isAnswered`, but no input does.
- `JeopardyBoard.SortInPlace` sorts a fresh array. In the source the sort reorders the stored game's own `questions` list, a side effect on shared data. The model does not capture that aliasing.
- `TeamSetup.Setup.UpdateTeam` requires an index inside the list. The UI only passes indices of listed teams; an out-of-range write in JavaScript would grow the array, which is not modelled.
- Strings are sequences of Unicode characters, not of UTF-16 code units as in JavaScript, so a character outside the Basic Multilingual Plane is one character here and two code units in the source. The two places where this shows are the next two lines.
- `MathEditor.FractionsFrom` takes `[^\/]` to match a whole character. In the source the regex at `MathEditor.tsx:50` has no `u` flag and captures only a high surrogate, so `a/😀` becomes `a\frac{}{\uD83D}\uDE00` there, while the model gives `a\frac{}{😀}`.
- `MathEditor.InsertSymbol` counts the selection offsets and `symbol.length` in characters, where the textarea and JavaScript count code units.
- Numbers (question values, scores, the team count) are unbounded `int`s, not IEEE doubles, and a `Date` is an `int` `JeopardyTypes.Timestamp` of milliseconds. No value in the app comes near the range where the two differ.
- `MathEditor.Palette` is data only: it lists the 30 snippets and captions of `MathEditor.tsx:15-46`, and no property is stated about it. Any of its snippets can be passed to `MathEditor.InsertSymbol`, whose contract holds for every symbol.
- `LanguageContext.T` does not model keys inherited from `Object.prototype` (such as `constructor`). Those would return a function instead of a string.
- `LanguageContext.T`: the claim that every table text is non-empty (so the `|| key` fallback fires only for absent keys) is not proved. `T`'s contract covers both the missing text and the empty text.
- `JeopardyTypes.GameState` is declared. The page keeps only its score and answered list (`JeopardyMaker.Session`), because its initial and reset states omit `teams`.
