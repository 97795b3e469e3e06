# text2mindmap, modelled in Dafny

text2mindmap is a single-page web tool. Text pasted on the left is turned into
markdown: a tree drawing with `│ ├ └ ─`, an indented list, or markdown as is.
The middle column shows that markdown as a preview you can click and edit. The
right column shows the same markdown as an interactive mind map, which can be
exported as SVG, PNG, JPEG or XMind-flavoured markdown. The model covers the
three parts that decide what the tool produces.

- **The normaliser** `smartTextToMarkdown` (modules `JsText`, `SmartText`,
  `SmartTextFacts`, `SmartTextExamples`).
  - `Normalize` is its specification. It is a function of the text that
    follows the source's cascade: the list-marker test, the tree pass, the
    indentation pass, then the text returned as is.
  - `SmartTextToMarkdown` is the source's imperative code. It uses the two
    `for` loops with `continue`, the mutated `level` and the pushed result. It
    is proved equal to `Normalize`.
  - The regular expressions become greedy runs over character classes that
    follow the ECMAScript definitions of `\s`, `\d`, `.` and multiline `^`.
    `TreeMatchComplete` proves that the greedy reading of the tree pattern
    fails only when every backtracking reading fails too.
  - `split(/\r?\n/)`, `join("\n")` and `trim()` are modelled from the
    JavaScript runtime's definitions.
- **The page** `App` (module `App`). It is a class whose fields are the raw
  text, the three copies of the markdown, the editing toggle, the handle of
  the mind-map component, and the files the page saves itself. Its methods
  are the change handlers, the two editing toggles, the download dispatch and
  the markdown download. `Valid` states that the three copies agree and that
  the mind map holds the current markdown.
- **The mind-map component** `MindMapEditor` (module `MindMapEditor`).
  - It is a class whose fields are the `markdown` prop, whether the `<svg>`
    surface is mounted, whether the visualisation handle exists, and a log of
    the calls made into libraries.
  - The log records `Markmap.create`, `setData`, `fit` and `saveAs`, with the
    file name, the `Blob` type and the raster background of each save. The tree
    that the markdown transformer builds is stood for by the markdown it was
    built from.
  - `RunEffect` is the body of the `useEffect`: it creates the visualisation
    once, and after that updates it.
  - `ReceiveMarkdown` is a render with a new prop. The effect's dependency
    list `[markdown]` makes it run only when the prop changed.
  - The four exports append what `ExportEffects` says. `XmindContent` is the
    interchange text.

Several behaviours of the code are easy to misread, and the model keeps them
as the code has them:

- A top-level connector line such as `├─ a` is at level 1. The connector
  adds one level even when the prefix is empty
  (src/utils/smartTextToMarkdown.js:25-27).
- The comment at src/utils/smartTextToMarkdown.js:30 says the indentation
  pass is for text without tree symbols, but the condition at line 31 runs it
  only when the tree pass emitted nothing. A line without line terminators
  is dropped by the tree pass exactly when it has the shape
  `[\s│]*[├└─]*\s*`: prefix characters, then connectors, then whitespace,
  and nothing else (`GlyphLineDropped`, `DroppedTreeLineIsGlyphs`). So the
  indentation pass runs only when every such line has that shape
  (`FallbackOnlyForGlyphLines`).
  - So `"root\n  child\n    grandchild"` is handled by the tree pass.
  - `"├─\n│"` goes to the indentation pass and gives `"- ├─\n- │"`.
- A line of glyphs only is not always dropped. In `─│` the connector run
  stops at the bar, which `\s*` cannot take either, so the bar is content:
  the line becomes a bullet at level 1 and `"─│"` normalises to `"  - │"`
  (`ConnectorBarExample`). Lines such as `├ ├` and `│├│` are kept the same
  way.
- A line that starts with a character outside `[\s│├└─]` and later holds a
  `\r` not followed by `\n`, a U+2028 or a U+2029 fails both patterns,
  because `.` does not match a line terminator and `$` has no `m` flag. Such
  a line is dropped by both passes although it has content
  (`TerminatorLineDropped`). Next to the
  line `├─`, `"a\rb"` therefore vanishes and the indentation pass keeps
  only the glyphs (`TerminatorLineExample`). When every line is dropped by
  both passes, the text comes back verbatim.
- The prefix class of the tree pass is `[\s│]`. A tab is therefore absorbed
  into the prefix rather than left in the content, and it counts toward
  neither the spaces nor the bars.
- The visualisation handle is created by the effect that runs when the
  component mounts, on the empty markdown
  (src/components/MindMapEditor.tsx:66-76), not on the first non-empty
  markdown.

## Model

| member | source | states |
|---|---|---|
| SmartText.Normalize | src/utils/smartTextToMarkdown.js:2-47 | defines the cascade: a text with a list marker is returned as is; otherwise the tree outline of the split lines, or failing that the indentation outline, is rendered and joined with "\n"; with no bullets at all the text is returned as is |
| SmartText.SmartTextToMarkdown | src/utils/smartTextToMarkdown.js:2-47 | the imperative function returns exactly `Normalize(text)` |
| SmartText.TreePassLoop | src/utils/smartTextToMarkdown.js:8-29 | the first loop's result is the rendering of the tree pass's outline of all lines, in order |
| SmartText.IndentPassLoop | src/utils/smartTextToMarkdown.js:31-42 | the second loop's result is the rendering of the indentation pass's outline of all lines, in order |
| SmartText.IsListMarker | src/utils/smartTextToMarkdown.js:4 | defines the class `[-*+]` |
| SmartText.MarkerAt | src/utils/smartTextToMarkdown.js:4 | defines a match of `\s*[-*+]\s+` or `\s*\d+\.\s+` at one position; `\s*` and `\s+` may cross line ends |
| SmartText.MarkerFrom | src/utils/smartTextToMarkdown.js:4 | defines the search that tries the pattern at every position from p on where multiline `^` matches |
| SmartText.HasListMarker | src/utils/smartTextToMarkdown.js:4 | defines the test of the whole text: the search from position 0 |
| SmartText.MarkerFromIff | src/utils/smartTextToMarkdown.js:4 | the multiline marker search succeeds exactly when some line start carries `\s*[-*+]\s` or `\s*\d+\.\s` |
| SmartText.MarkerInside | src/utils/smartTextToMarkdown.js:4 | a marker that a line shows on its own is found at that line's place in any text holding it |
| SmartText.IsPrefixChar | src/utils/smartTextToMarkdown.js:12 | defines the class `[\s│]` of the prefix group |
| SmartText.IsConnector | src/utils/smartTextToMarkdown.js:12 | defines the class `[├└─]` of the connector group |
| SmartText.MatchTreeLine | src/utils/smartTextToMarkdown.js:12-14 | a line without line terminators always matches the tree pattern; the content group never holds one |
| SmartText.MatchTreeLineGroups | src/utils/smartTextToMarkdown.js:12-15 | a match splits the line into greedy prefix `[\s│]*`, connector `[├└─]*`, spaces and single-line content |
| SmartText.TreeLine | src/utils/smartTextToMarkdown.js:12-17 | a kept line's text is non-empty, trimmed at both ends and on one line |
| SmartText.TreeLevel | src/utils/smartTextToMarkdown.js:19-27 | defines the level: with a non-empty prefix, half its U+0020 count rounded down plus its `│` count; plus 1 for a non-empty connector |
| SmartText.MatchIndentLine | src/utils/smartTextToMarkdown.js:33-34 | a line without line terminators always matches `^(\s*)(.*)$`; the content never holds one |
| SmartText.MatchIndentLineGroups | src/utils/smartTextToMarkdown.js:33-36 | the match is the whole leading `\s` run followed by content that starts with a non-space |
| SmartText.IndentLine | src/utils/smartTextToMarkdown.js:33-40 | a kept line's text is non-empty, trimmed and on one line |
| SmartText.TrimValid | src/utils/smartTextToMarkdown.js:16-17 | trimmed single-line content is empty or a valid bullet text |
| SmartText.ParseLine | src/utils/smartTextToMarkdown.js:12-40 | whichever pass reads the line, a bullet's text is valid |
| SmartText.Outline | src/utils/smartTextToMarkdown.js:10-29 | a pass never emits more bullets than there are lines |
| SmartText.OutlineValid | src/utils/smartTextToMarkdown.js:16-17 | every bullet either pass emits has a valid text |
| SmartText.ParseOutline | src/utils/smartTextToMarkdown.js:8-42 | defines steps 2 and 3: the tree outline, or the indentation outline when the tree outline is empty |
| SmartText.Indent | src/utils/smartTextToMarkdown.js:28 | `"  ".repeat(n)` is 2n spaces |
| SmartText.Render | src/utils/smartTextToMarkdown.js:28 | defines one output line: 2×level spaces, `- `, then the text |
| SmartText.RenderAll | src/utils/smartTextToMarkdown.js:28 | one rendered line per bullet |
| SmartText.RenderAllAt | src/utils/smartTextToMarkdown.js:28 | rendered line i is the rendering of bullet i |
| SmartTextFacts.IndentSpan | src/utils/smartTextToMarkdown.js:28 | the indentation of a rendered bullet is exactly its 2n spaces |
| SmartTextFacts.ParseRendered | src/utils/smartTextToMarkdown.js:28 | reading a line back as a bullet yields a valid text |
| SmartTextFacts.ParseRender | src/utils/smartTextToMarkdown.js:28 | a rendered bullet reads back as the same bullet |
| SmartTextFacts.RenderParse | src/utils/smartTextToMarkdown.js:28 | a line that reads as a bullet is that bullet's rendering (the other direction) |
| SmartTextFacts.RenderSplitSafe | src/utils/smartTextToMarkdown.js:28 | a rendered bullet has no "\n" and does not end in "\r", so splitting keeps it whole |
| SmartTextFacts.RenderMarker | src/utils/smartTextToMarkdown.js:4 | every rendered bullet passes the list-marker test |
| SmartTextFacts.NormalizedLines | src/utils/smartTextToMarkdown.js:44-46 | when bullets are produced, the output splits back into exactly the rendered bullets, each of which reads back as its bullet |
| SmartTextFacts.NormalizeIdempotent | src/utils/smartTextToMarkdown.js:2-47 | normalising the output again changes nothing |
| SmartTextFacts.MarkedLineReturnsInput | src/utils/smartTextToMarkdown.js:4-6 | if any split line starts with a list marker, the text is returned unchanged |
| SmartTextFacts.BlankHasNoMarker | src/utils/smartTextToMarkdown.js:4 | whitespace-only text has no list marker |
| SmartTextFacts.BlankLineDropped | src/utils/smartTextToMarkdown.js:16-17 | a whitespace-only line gives no bullet in either pass |
| SmartTextFacts.BlankTextReturned | src/utils/smartTextToMarkdown.js:44-45 | whitespace-only text is returned verbatim |
| SmartTextFacts.OutlineAppend | src/utils/smartTextToMarkdown.js:10-29 | lines are read independently and in order: the outline of `a + b` is the outline of a followed by that of b |
| SmartTextFacts.OutlineAllKept | src/utils/smartTextToMarkdown.js:10-29 | when every line gives a bullet, the outline is those bullets in line order |
| SmartTextFacts.OutlineEmptyDropsAll | src/utils/smartTextToMarkdown.js:31 | a pass that emitted nothing dropped every line |
| SmartTextFacts.DropsAllOutlineEmpty | src/utils/smartTextToMarkdown.js:31 | a pass that drops every line emits nothing |
| SmartTextFacts.OutlineEmptyIff | src/utils/smartTextToMarkdown.js:31 | a pass emits nothing exactly when it drops every line (both directions) |
| SmartTextFacts.GreedyFurthest | src/utils/smartTextToMarkdown.js:12 | no way of matching `([\s│]*)([├└─]*)\s*` reaches further than the greedy one |
| SmartTextFacts.GreedyFurthestConnector | src/utils/smartTextToMarkdown.js:12 | the same, when the prefix group ends where the greedy one does |
| SmartTextFacts.TreeMatchComplete | src/utils/smartTextToMarkdown.js:12-14 | if any reading of the pattern can match, the greedy reading matches, so a skipped line has no match |
| SmartTextFacts.GlyphLineDropped | src/utils/smartTextToMarkdown.js:12-17 | a line of the shape `[\s│]*[├└─]*\s*` (prefix characters, then connectors, then whitespace, and nothing else) gives no tree bullet |
| SmartTextFacts.DroppedTreeLineIsGlyphs | src/utils/smartTextToMarkdown.js:12-17 | a line without line terminators that the tree pass drops has the shape `[\s│]*[├└─]*\s*` (the converse) |
| SmartTextFacts.ContentLineKept | src/utils/smartTextToMarkdown.js:12-17 | a single-line line that holds any character outside `[\s│├└─]` is kept by the tree pass |
| SmartTextFacts.TerminatorLineDropped | src/utils/smartTextToMarkdown.js:12-35 | a line that starts with content and holds a line terminator is dropped by both passes |
| SmartTextFacts.FallbackOnlyForGlyphLines | src/utils/smartTextToMarkdown.js:31 | the indentation pass is reached only when every line without line terminators has the shape `[\s│]*[├└─]*\s*` |
| SmartTextFacts.TreeLineParts | src/utils/smartTextToMarkdown.js:12-28 | a tree bullet's level comes from the greedy prefix and connector groups alone, and its text is the trimmed content |
| SmartTextFacts.IndentLineParts | src/utils/smartTextToMarkdown.js:33-40 | an indentation bullet's level is half the whole leading `\s` run, and its text is the trimmed rest |
| SmartTextFacts.DropSpans | src/utils/smartTextToMarkdown.js:12 | leading prefix characters extend the prefix run and shift the other two runs |
| SmartTextFacts.MatchTreeDrop | src/utils/smartTextToMarkdown.js:12-15 | leading `[\s│]` characters join the prefix group; connector and content are those of the rest of the line |
| SmartTextFacts.TreeLineDrop | src/utils/smartTextToMarkdown.js:12-27 | the bullet of a line with extra leading `[\s│]` is the rest's bullet, with its level counted over the longer prefix |
| SmartTextFacts.LevelTwoSpaces | src/utils/smartTextToMarkdown.js:20-23 | two more spaces in the prefix add one level |
| SmartTextFacts.LevelBar | src/utils/smartTextToMarkdown.js:20-23 | one more bar in the prefix adds one level |
| SmartTextFacts.LevelOtherSpace | src/utils/smartTextToMarkdown.js:20-23 | any other prefix character adds nothing |
| SmartTextFacts.TwoSpacesOneLevel | src/utils/smartTextToMarkdown.js:19-23 | a tree line behind two more spaces is one level deeper, with the same text |
| SmartTextFacts.BarOneLevel | src/utils/smartTextToMarkdown.js:19-23 | a tree line behind one more `│` is one level deeper, with the same text |
| SmartTextFacts.OtherSpaceNoLevel | src/utils/smartTextToMarkdown.js:19-23 | a tab or other whitespace in front of a tree line changes nothing |
| SmartTextFacts.UnindentedLevel | src/utils/smartTextToMarkdown.js:19-27 | a tree line without a prefix is at level 1 under a connector and at level 0 otherwise |
| SmartTextFacts.IndentSpanDrop | src/utils/smartTextToMarkdown.js:33 | leading `\s` characters extend the indentation run |
| SmartTextFacts.MatchIndentDrop | src/utils/smartTextToMarkdown.js:33-36 | leading `\s` characters join the indentation group; the content stays as it was |
| SmartTextFacts.IndentDeeper | src/utils/smartTextToMarkdown.js:39 | in the indentation pass, every two leading `\s` characters, tabs included, add one level |
| SmartTextFacts.MarkerAtDrop | src/utils/smartTextToMarkdown.js:4 | the marker test at a position reads only the text from there on |
| SmartTextFacts.MarkerFromDrop | src/utils/smartTextToMarkdown.js:4 | the search after a "\n" is the search in the text behind it |
| SmartTextFacts.SkipNonStarts | src/utils/smartTextToMarkdown.js:4 | positions that do not follow a line terminator are passed over by `^` |
| SmartTextFacts.PlainStartNoMarker | src/utils/smartTextToMarkdown.js:4 | a text whose first line starts plainly has no marker at position 0 |
| SmartTextFacts.NoMarkerInPlainLines | src/utils/smartTextToMarkdown.js:4 | joined single-line lines that all start plainly contain no marker |
| SmartTextExamples.IndentedListExample | src/utils/smartTextToMarkdown.js:2-47 | `"root\n  child\n    grandchild"` gives `"- root\n  - child\n    - grandchild"` |
| SmartTextExamples.TreeDrawingExample | src/utils/smartTextToMarkdown.js:19-28 | `"├─ a\n│  ├─ b"` gives `"  - a\n      - b"` (levels 1 and 3) |
| SmartTextExamples.GlyphDrawingExample | src/utils/smartTextToMarkdown.js:31-42 | `"├─\n│"` falls through to the indentation pass and gives `"- ├─\n- │"` |
| SmartTextExamples.NormalizeTreeLines | src/utils/smartTextToMarkdown.js:8-46 | plain single-line lines that the tree pass keeps in full are joined as their rendered bullets |
| SmartTextExamples.NormalizeIndentLines | src/utils/smartTextToMarkdown.js:31-46 | plain single-line lines that the tree pass drops entirely are joined as their indentation bullets |
| SmartTextExamples.ThreeTreeLines | src/utils/smartTextToMarkdown.js:8-46 | three kept tree lines are normalised to their three rendered bullets joined by "\n" |
| SmartTextExamples.TwoTreeLines | src/utils/smartTextToMarkdown.js:8-46 | two kept tree lines are normalised to their two rendered bullets joined by "\n" |
| SmartTextExamples.TwoIndentLines | src/utils/smartTextToMarkdown.js:31-46 | two lines dropped by the tree pass and kept by the indentation pass give their indentation bullets |
| SmartTextExamples.WordLine | src/utils/smartTextToMarkdown.js:12-28 | a single word is a level-0 tree bullet and starts plainly |
| SmartTextExamples.IndentedWord | src/utils/smartTextToMarkdown.js:19-28 | a word behind 2n spaces is a tree bullet at level n |
| SmartTextExamples.ConnectorWordLine | src/utils/smartTextToMarkdown.js:25-27 | two connectors, a space and a character make a level-1 bullet |
| SmartTextExamples.StemWordLine | src/utils/smartTextToMarkdown.js:19-27 | `│`, two spaces, two connectors, a space and a character make a level-3 bullet |
| SmartTextExamples.GlyphOnlyLine | src/utils/smartTextToMarkdown.js:31-40 | a line of the shape `[\s│]*[├└─]*\s*` with non-space ends is dropped by the tree pass and kept whole at level 0 by the indentation pass |
| SmartTextExamples.ConnectorBarLine | src/utils/smartTextToMarkdown.js:12-28 | a connector followed by `│` is a tree bullet at level 1 whose text is the bar: the bar cannot join the connector run, so it is content |
| SmartTextExamples.OneTreeLine | src/utils/smartTextToMarkdown.js:2-46 | a single plain line kept by the tree pass normalises to its rendered bullet |
| SmartTextExamples.ConnectorBarExample | src/utils/smartTextToMarkdown.js:2-46 | `"─│"`, glyphs only, is kept by the tree pass and normalises to `"  - │"` |
| SmartTextExamples.TerminatorLineLost | src/utils/smartTextToMarkdown.js:10-42 | next to the line `├─`, `a\rb` is dropped by both passes, so the tree outline is empty and the indentation outline holds only `├─` |
| SmartTextExamples.TerminatorLineExample | src/utils/smartTextToMarkdown.js:10-42 | the same on the literal lines `"a\rb"` and `"├─"` |
| JsText.Span | src/utils/smartTextToMarkdown.js:12 | a greedy run ends inside the text, at or after its start |
| JsText.SpanFacts | src/utils/smartTextToMarkdown.js:12 | the greedy run is of its class throughout and is followed by a character outside it |
| JsText.SpanUnique | src/utils/smartTextToMarkdown.js:12 | a class run followed by a character outside the class is the greedy run (the converse) |
| JsText.IsSpace | src/utils/smartTextToMarkdown.js:12 | defines `\s`: the ECMAScript WhiteSpace and LineTerminator characters, which `trim()` also strips |
| JsText.IsLineTerminator | src/utils/smartTextToMarkdown.js:12 | defines the characters `.` does not match: `\n`, `\r`, U+2028, U+2029 |
| JsText.AtLineStart | src/utils/smartTextToMarkdown.js:4 | defines where `^` matches under the `m` flag: at 0 and after a line terminator |
| JsText.Count | src/utils/smartTextToMarkdown.js:21-22 | the count of a character is at most the length, and 0 exactly when it does not occur |
| JsText.SplitLines | src/utils/smartTextToMarkdown.js:8 | splitting always yields at least one line |
| JsText.JoinLines | src/utils/smartTextToMarkdown.js:46 | defines `join("\n")`: the lines with one "\n" between neighbours and none at the end |
| JsText.LineLocated | src/utils/smartTextToMarkdown.js:8 | every split line sits in the text at a line start |
| JsText.JoinSplit | src/utils/smartTextToMarkdown.js:8 | joining the split lines restores a text that has no "\r\n" |
| JsText.SplitJoin | src/utils/smartTextToMarkdown.js:46 | splitting the join of split-safe lines gives back the lines |
| JsText.TrimStart | src/utils/smartTextToMarkdown.js:16 | what is removed is whitespace, and what is left starts with a non-space |
| JsText.TrimEnd | src/utils/smartTextToMarkdown.js:16 | what is removed is whitespace, and what is left ends with a non-space |
| JsText.Trim | src/utils/smartTextToMarkdown.js:16 | the trimmed text is empty exactly when the text is all whitespace, and otherwise starts and ends with a non-space |
| JsText.TrimSlice | src/utils/smartTextToMarkdown.js:16 | the trimmed text is a contiguous slice of the text |
| App.App.constructor | src/App.tsx:27-32 | every text starts empty and editing is off; a mounted editor has run its effect on `""`; the invariant holds |
| App.App.Valid | src/App.tsx:27-31 | defines the page invariant: `markdown == mdEdit == markdownRef`, and a mounted mind map is valid and holds `markdown` as its prop |
| App.App.PassMarkdownProp | src/App.tsx:153 | the mind map receives `markdown` as its prop; nothing flows back into the page's state |
| App.App.HandleInputChange | src/App.tsx:51-57 | `input == v` and all three copies equal `Normalize(v)`; the mind map updates when the markdown changed |
| App.App.HandleMdEditChange | src/App.tsx:60-64 | all three copies equal v as typed; `input` is unchanged |
| App.App.StopEditing | src/App.tsx:137 | blur turns editing off and changes no text |
| App.App.StartEditing | src/App.tsx:143 | a click turns editing on and changes no text |
| App.App.HandleDownload | src/App.tsx:41-48 | nothing happens without the handle; otherwise exactly the export that the menu item names is performed |
| App.App.HandleDownloadMarkdown | src/App.tsx:67-75 | `markdownRef` is saved verbatim, with no header, as `mindmap.md` of type `text/markdown` |
| MindMapEditor.XmindContent | src/components/MindMapEditor.tsx:54 | defines the interchange text: `#mindmap`, a newline, then the trimmed markdown |
| MindMapEditor.XmindStrip | src/components/MindMapEditor.tsx:54 | the interchange text starts with `#mindmap\n`, and dropping those 9 characters gives back the trimmed markdown |
| MindMapEditor.XmindLines | src/components/MindMapEditor.tsx:54 | split into lines, it is the line `#mindmap` followed by the lines of the trimmed markdown |
| MindMapEditor.XmindSameIff | src/components/MindMapEditor.tsx:54 | two markdown texts give the same interchange text exactly when they agree once trimmed |
| MindMapEditor.TrimTrim | src/components/MindMapEditor.tsx:54 | trimming is idempotent |
| MindMapEditor.XmindOfTrimmed | src/components/MindMapEditor.tsx:54 | surrounding whitespace of the markdown does not reach the interchange text |
| MindMapEditor.ExportName | src/components/MindMapEditor.tsx:28-57 | every export is saved under a name that starts with `mindmap.` |
| MindMapEditor.ExportNamesDistinct | src/components/MindMapEditor.tsx:28-57 | two exports share a name exactly when they are the same export |
| MindMapEditor.ExportEffects | src/components/MindMapEditor.tsx:28-57 | an export saves at most one file; it saves nothing exactly when it is an image export without a surface; the save uses the export's name |
| MindMapEditor.ExportBodies | src/components/MindMapEditor.tsx:28-57 | the SVG is saved as `image/svg+xml`; the raster exports ask for background `#fff`; the XMind export saves the interchange text as `text/markdown` whatever the surface |
| MindMapEditor.CreateCount | src/components/MindMapEditor.tsx:66-76 | creations are counted among the logged effects |
| MindMapEditor.CreateCountAppend | src/components/MindMapEditor.tsx:66-76 | creations add up over a log written in two parts |
| MindMapEditor.Shown | src/components/MindMapEditor.tsx:66-76 | nothing is shown exactly when no `create` or `setData` was logged, and then nothing was created; what is shown is a tree handed to one of them |
| MindMapEditor.QuietAppend | src/components/MindMapEditor.tsx:66-76 | `fit` and saves change neither what is shown nor the number of creations |
| MindMapEditor.MindMapEditor.Created | src/components/MindMapEditor.tsx:17-76 | defines the handle invariant: `create` was logged once if the handle exists and never otherwise, only on a surface, and nothing is shown without the handle |
| MindMapEditor.MindMapEditor.Valid | src/components/MindMapEditor.tsx:66-76 | defines the invariant between renders: `Created`, and on a surface the handle exists and shows the current markdown |
| MindMapEditor.MindMapEditor.constructor | src/components/MindMapEditor.tsx:66-76 | mounting runs the effect once: with a surface `create` is called on the initial markdown, and without one nothing happens |
| MindMapEditor.MindMapEditor.RunEffect | src/components/MindMapEditor.tsx:66-76 | without a surface nothing happens; otherwise `create` is called when there is no handle, and `setData` then `fit` when there is one; the handle then exists |
| MindMapEditor.MindMapEditor.ReceiveMarkdown | src/components/MindMapEditor.tsx:66-76 | the effect runs only on a changed prop; a change on a surface is `setData` then `fit`, never a second `create` |
| MindMapEditor.MindMapEditor.DownloadSvg | src/components/MindMapEditor.tsx:28-34 | saves the serialised surface as `mindmap.svg` of type `image/svg+xml` only when there is a surface; nothing else changes |
| MindMapEditor.MindMapEditor.DownloadPng | src/components/MindMapEditor.tsx:35-42 | saves a PNG on `#fff` as `mindmap.png` only when there is a surface |
| MindMapEditor.MindMapEditor.DownloadJpg | src/components/MindMapEditor.tsx:43-50 | saves a JPEG on `#fff` as `mindmap.jpg` only when there is a surface |
| MindMapEditor.MindMapEditor.DownloadXmind | src/components/MindMapEditor.tsx:51-57 | always saves `"#mindmap\n" + trim(markdown)` as `mindmap.xmind.md` of type `text/markdown`, without looking at the surface |

## Left out

- `src/utils/deepseek.js` and `src/utils/deepseek.ts` are not modelled. They are an HTTP request to a remote model, which is network I/O.
- The JSX and MUI layout is not modelled. This covers the logo, the export menu's anchor state (`handleMenuClick`, `handleMenuClose`), and the component's own optional download menu behind `showDownloadBtn`. All of it is user interface only.
- The markdown-it preview render is not modelled. It is foreign rendering, and no state depends on it.
- Library internals are not modelled:
  - the markdown transformer's tree, which the model stands for by the markdown itself;
  - markmap's layout;
  - `XMLSerializer` output;
  - the pixels from html-to-image;
  - `Blob`, object URLs and file-saver.
  Each call is an entry in an effect log, or an entry in the page's list of downloads.
- The awaits in `downloadPng` and `downloadJpg` are not modelled. The save is recorded at once, so the race between a pending raster export and later edits is not captured.
- React's scheduling is not modelled. Every handler's state updates are applied together, followed by one render. `useImperativeHandle` becomes direct method calls on the component object.
- The `<svg>` surface is fixed when the component mounts. An unmount is not modelled.
- Strings are sequences of characters, not of UTF-16 code units. Every character the regular expressions and `trim()` inspect lies in the Basic Multilingual Plane, so the two agree there.
