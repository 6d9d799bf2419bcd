# BookDesigner editor core in Dafny

This project models the logic at the core of the BookDesigner markdown editor, and proves properties about it. It covers:

- **FileEditor**, which ties one file's editor to its preview. The model covers:
  - which preview a file gets, whether the file is markdown, and its extension;
  - the coalescing of preview-type updates through the JavaFX "run later" queue;
  - the preview node's membership of the split pane;
  - what loading shows for large and binary files, and the reload guard;
  - the hex dump shown for small binary files (`toHex`).
- **WebViewPreview**:
  - the queue of actions deferred while the web engine is loading;
  - the scroll offsets and the editor selection remembered between renderings;
  - the collector of fenced-code-block languages and their Prism dependency chains;
  - the assembly of the HTML document;
  - the loader of the Prism language-dependency table (`initPrismLangDependencies`, `trimDelim`).
- **UserDictionary**:
  - comment filtering and the `isSorted` flag computed on load;
  - adding a word;
  - the case-insensitive sort with its case-sensitive tie-break;
  - what is written on save.
- **LinkDialog**:
  - the three forms of the markdown link;
  - the OK-button rule and the result converter;
  - the initial selection of an https url.
- **ProjectManager**:
  - the preferences registry of projects, with lookup-or-create of a project's child node and removal;
  - the recent-projects list, the active-project listener and the start-up choice of the active project.

The modules are:

- `Wrappers`: `Option` and `Result`.
- `JavaText`: the java.lang string and integer operations the core uses, with Java's semantics. These are `trim`, `split` on one character, `lastIndexOf`, `toLowerCase`, `String.valueOf(int)`, `Integer.parseInt` and 32-bit `int` addition.
- `HexDump`: `toHex`.
- `FileEditor`.
- `PrismDependencies`: the dependency table.
- `WebViewPreview`.
- `UserDictionary`.
- `LinkDialog`.
- `ProjectManager`.

State that the source changes in place is held in classes:

- `FileEditor.FileEditor`
- `WebViewPreview.WebViewPreview`
- `PrismDependencies.LangDependencies`, for the static map
- `UserDictionary.UserDictionary`
- `ProjectManager.ProjectManager`, for the static registry

Each loop of the source is a method proved against a specification function, and the properties are proved about those functions.

Collaborators the model cannot see are parameters:

- **The web engine.** Its load state is a field. The scripts run in the page are a log of `Action`s. `window.scrollX`/`scrollY` are `Option<int>` arguments, where None means "not a number". `Update` and `LoadPage` leave the load state as it was. The SCHEDULED and then RUNNING states that `loadContent` starts reach the model only when the caller passes them to a later `OnStateChanged`.
- **Resource lookup.** `getResource` is a function `string -> Option<string>`.
- **The file system.** It is passed as values:
  - `FileState` holds the time stamp, existence and contents of the file, or None for an I/O error;
  - the dictionary file's lines are `Option<seq<string>>`;
  - the dependency table's lines are `seq<string>`.
- **The user's answers to the alerts.** They are booleans.
- **The JavaFX event queue.** It is the `tasks` field of `FileEditor.FileEditor`.
- **The markdown AST.** It is the datatype `WebViewPreview.Node`.

The model follows the code in these places:

- **Language collector.** It collects every fenced block's info string, empty ones included, and does not remove duplicates. Its guards `language.contains(language)` (WebViewPreview.java lines 183 and 188) are always true, so the model has no guard. A statement that dependencies are deduplicated would describe a different program.
- **Dependency chains.** The loop that follows a chain has no cycle check. The collector therefore requires that every chain ends (`AllTerminate`); a cyclic table makes the source loop forever.
- **Table loading failures.** Only `IOException` is caught while the table is loaded. A malformed line therefore ends the load with a `Failure` (`IllegalArgument` from `trimDelim`, or `IndexOutOfBounds` for an entry without ':'), and `update` loads no document. Entries put before the failure stay in the map.

## Model

| member | source | states |
|---|---|---|
| JavaText.Wrap32 | src/main/java/at/crowdware/bookdesigner/projects/ProjectManager.java:240 | Java `int` addition: the result is a 32-bit value congruent to the mathematical one modulo 2^32, and equal to it when that fits |
| JavaText.Trim | src/main/java/at/crowdware/bookdesigner/preview/WebViewPreview.java:248 | `String.trim()`: the result has no whitespace (char <= ' ') at either end and is unchanged when the text already has none there |
| JavaText.TrimStart | src/main/java/at/crowdware/bookdesigner/preview/WebViewPreview.java:248 | the leading part `trim` removes is all whitespace and the rest is a suffix of the input |
| JavaText.TrimEnd | src/main/java/at/crowdware/bookdesigner/preview/WebViewPreview.java:248 | the trailing part `trim` removes is all whitespace and the rest is a prefix of the input |
| JavaText.IndexOf | src/main/java/at/crowdware/bookdesigner/preview/WebViewPreview.java:230 | the index of the first occurrence of a char: it holds the char and no earlier position does |
| JavaText.IndexOfAt | src/main/java/at/crowdware/bookdesigner/preview/WebViewPreview.java:230 | a position holding the char with no earlier occurrence is the first occurrence |
| JavaText.LastIndexOf | src/main/java/at/crowdware/bookdesigner/FileEditor.java:254 | `lastIndexOf(char)`: -1 or a position holding the char, with no later position holding it |
| JavaText.SplitAll | src/main/java/at/crowdware/bookdesigner/preview/WebViewPreview.java:232-233 | every piece between separators is separator-free, and there is at least one piece |
| JavaText.JoinSplitAll | src/main/java/at/crowdware/bookdesigner/preview/WebViewPreview.java:232-233 | joining the pieces with the separator gives back the string (split loses nothing) |
| JavaText.DropTrailingEmpty | src/main/java/at/crowdware/bookdesigner/preview/WebViewPreview.java:232-233 | only trailing empty pieces are dropped, and the last piece kept is non-empty |
| JavaText.Split | src/main/java/at/crowdware/bookdesigner/preview/WebViewPreview.java:232-233 | `String.split` with a one-char pattern: a string without the separator is returned whole; no piece holds the separator |
| JavaText.ToLower | src/main/java/at/crowdware/bookdesigner/FileEditor.java:186 | `toLowerCase()` maps each char on its own and keeps the length |
| JavaText.NatToString | src/main/java/at/crowdware/bookdesigner/projects/ProjectManager.java:240 | decimal digits, without a leading zero for a positive number |
| JavaText.IntToString | src/main/java/at/crowdware/bookdesigner/projects/ProjectManager.java:240 | `String.valueOf(int)`: it starts with '-' exactly for a negative number |
| JavaText.ParseInteger | src/main/java/at/crowdware/bookdesigner/projects/ProjectManager.java:232 | only an optional sign followed by decimal digits is read as a number |
| JavaText.SignedValue | src/main/java/at/crowdware/bookdesigner/projects/ProjectManager.java:232 | a value is read only from a non-empty run of digits |
| JavaText.ParseInt | src/main/java/at/crowdware/bookdesigner/projects/ProjectManager.java:232 | `Integer.parseInt`: it succeeds exactly on the numbers that fit in 32 bits, with the unbounded reading's value |
| JavaText.ParseIntegerToString | src/main/java/at/crowdware/bookdesigner/projects/ProjectManager.java:240 | every integer's decimal text reads back as that integer |
| JavaText.ParseIntToString | src/main/java/at/crowdware/bookdesigner/projects/ProjectManager.java:232-240 | `Integer.parseInt(String.valueOf(n)) == n` for every Java `int` |
| JavaText.DigitsValueOfNatToString | src/main/java/at/crowdware/bookdesigner/projects/ProjectManager.java:240 | the digits of n have the value n |
| HexDump.Offset | src/main/java/at/crowdware/bookdesigner/FileEditor.java:482-485 | the line offset is four characters; `OffsetValue` gives their meaning |
| HexDump.OffsetValue | src/main/java/at/crowdware/bookdesigner/FileEditor.java:482-485 | the four offset digits read back as a hex number give the byte position modulo 0x10000 (the nibbles `(i >> 12) & 0xf` down to `i & 0xf`) |
| HexDump.OffsetAt | src/main/java/at/crowdware/bookdesigner/FileEditor.java:481-486 | every line opens with its first byte position modulo 0x10000 in four hex digits |
| HexDump.HexDigitValue | src/main/java/at/crowdware/bookdesigner/FileEditor.java:473-476 | the HEX_DIGITS table maps each nibble to the digit that reads back as that nibble |
| HexDump.Shown | src/main/java/at/crowdware/bookdesigner/FileEditor.java:508-509 | a byte below ' ' shows as a space; any other byte shows as the Java char cast of the signed byte, i.e. its sign-extended value modulo 0x10000 |
| HexDump.Digits | src/main/java/at/crowdware/bookdesigner/FileEditor.java:494-498 | a byte slot is two characters: the byte's digits or two spaces |
| HexDump.Glyph | src/main/java/at/crowdware/bookdesigner/FileEditor.java:508-511 | a byte present shows one character and a byte past the end shows none |
| HexDump.LineLength | src/main/java/at/crowdware/bookdesigner/FileEditor.java:481-515 | a line is 61 characters plus one per byte it shows |
| HexDump.HexColumnLength | src/main/java/at/crowdware/bookdesigner/FileEditor.java:488-500 | the hex slots take 3 characters each, plus one gap per group of four and one more before the ninth |
| HexDump.AsciiColumnLength | src/main/java/at/crowdware/bookdesigner/FileEditor.java:504-512 | the ASCII column has one character per byte present plus the gap before the ninth position |
| HexDump.HexDigitsAt | src/main/java/at/crowdware/bookdesigner/FileEditor.java:488-500 | slot j of the line at p shows byte p+j as two lower-case hex digits, high nibble first, at a fixed column, or two spaces past the end of the file |
| HexDump.AsciiAt | src/main/java/at/crowdware/bookdesigner/FileEditor.java:502-512 | when byte p+j exists, position 59 + j (one more from the ninth position on) of the line at p shows its character, bytes below ' ' as a space |
| HexDump.Line | src/main/java/at/crowdware/bookdesigner/FileEditor.java:481-514 | one outer iteration: offset, space, hex column, space, ASCII column, newline; its content is stated by `OffsetAt`, `HexDigitsAt`, `AsciiAt`, `LineLength` and `LineNewline` |
| HexDump.LineNewline | src/main/java/at/crowdware/bookdesigner/FileEditor.java:514 | each line ends with its only newline |
| HexDump.DumpLines | src/main/java/at/crowdware/bookdesigner/FileEditor.java:481-515 | the dump has ceil(n/16) lines, each ending with its only newline |
| HexDump.LinesCount | src/main/java/at/crowdware/bookdesigner/FileEditor.java:481 | one line per started run of 16 bytes |
| HexDump.LinesBound | src/main/java/at/crowdware/bookdesigner/FileEditor.java:481 | the lines cover all remaining bytes, the last line possibly in part |
| HexDump.LinesAre | src/main/java/at/crowdware/bookdesigner/FileEditor.java:481 | line k of the dump is the line for the bytes from offset 16k |
| HexDump.DumpEmpty | src/main/java/at/crowdware/bookdesigner/FileEditor.java:478-518 | the dump is empty exactly for no bytes |
| HexDump.Dump | src/main/java/at/crowdware/bookdesigner/FileEditor.java:478-518 | `toHex`: the lines for offsets 0, 16, 32, … in order; stated by `DumpLines`, `LinesAre` and `DumpEmpty` |
| HexDump.HexSlots | src/main/java/at/crowdware/bookdesigner/FileEditor.java:488-500 | the first inner loop builds the hex column of the line |
| HexDump.AsciiSlots | src/main/java/at/crowdware/bookdesigner/FileEditor.java:504-512 | the second inner loop builds the ASCII column, chars below ' ' as spaces |
| HexDump.FormatLine | src/main/java/at/crowdware/bookdesigner/FileEditor.java:482-514 | one outer iteration builds the offset, both columns and the newline |
| HexDump.ToHex | src/main/java/at/crowdware/bookdesigner/FileEditor.java:478-518 | `toHex` returns the concatenation of the lines for the bytes from offsets 0, 16, 32, … |
| FileEditor.GetPreviewTypeCases | src/main/java/at/crowdware/bookdesigner/FileEditor.java:230-247 | no preview for a non-markdown file; for a markdown file each type is chosen exactly when it is the first selected of Web, Source, Ast, External (External only with an external preview) |
| FileEditor.GetPreviewType | src/main/java/at/crowdware/bookdesigner/FileEditor.java:230-247 | getPreviewType: None for a non-markdown file, else the first selected of the web, HTML-source, AST and external previews; stated by `GetPreviewTypeCases` and `GetPreviewTypeIsFirstMatch` |
| FileEditor.GetPreviewTypeIsFirstMatch | src/main/java/at/crowdware/bookdesigner/FileEditor.java:237-246 | getPreviewType is the first match over that fixed priority list |
| FileEditor.FirstMatch | src/main/java/at/crowdware/bookdesigner/FileEditor.java:237-246 | a non-None result is the type of a candidate whose condition holds |
| FileEditor.IsMarkdownPathChars | src/main/java/at/crowdware/bookdesigner/FileEditor.java:184-188 | a path is markdown exactly when it ends with '.', 'm' or 'M', 'd' or 'D' |
| FileEditor.IsMarkdownPath | src/main/java/at/crowdware/bookdesigner/FileEditor.java:184-188 | a path is markdown when its lower-cased text ends with ".md", and no path is not; stated character by character by `IsMarkdownPathChars` |
| FileEditor.FileExtension | src/main/java/at/crowdware/bookdesigner/FileEditor.java:249-259 | the extension has no '.', is "" for a name without '.', and the name ends with '.' + extension |
| FileEditor.FileExtensionOf | src/main/java/at/crowdware/bookdesigner/FileEditor.java:249-259 | a name base.ext with a dot-free ext has the extension ext (the last dot wins) |
| FileEditor.LoadDecision | src/main/java/at/crowdware/bookdesigner/FileEditor.java:340-357 | over MAX_FILE_SIZE (500 000 bytes, declared at line 69): the too-large message; else text with a NUL: the binary message, with the hex dump exactly when at most MAX_HEX_FILE_SIZE (64 KiB, line 70); else the text; read-only exactly when it is not the text |
| FileEditor.LoadedDumpLines | src/main/java/at/crowdware/bookdesigner/FileEditor.java:354-355 | an appended dump has at most 4096 lines |
| FileEditor.ReloadDecision | src/main/java/at/crowdware/bookdesigner/FileEditor.java:432-471 | each outcome holds exactly under its condition: Unchanged for no path or an unchanged time stamp; otherwise, for a removed file, SaveAs exactly when it was modified and Save was chosen and Close otherwise; for a present file, Kept exactly when it was modified and Yes was not chosen, and Reload otherwise |
| FileEditor.Count | src/main/java/at/crowdware/bookdesigner/FileEditor.java:216-226 | an element occurs zero times exactly when it is absent |
| FileEditor.CountAppend | src/main/java/at/crowdware/bookdesigner/FileEditor.java:216-226 | occurrences add up over concatenation |
| FileEditor.RemoveFirst | src/main/java/at/crowdware/bookdesigner/FileEditor.java:221 | `ObservableList.remove(Object)` removes one occurrence of the node if present and changes no other count |
| FileEditor.SplitAfterMembership | src/main/java/at/crowdware/bookdesigner/FileEditor.java:215-226 | after a pass the preview node is in the split pane exactly when the type is not None, at most once, and the editor node count is unchanged |
| FileEditor.SplitAfter | src/main/java/at/crowdware/bookdesigner/FileEditor.java:215-226 | the split pane after a pass: the preview node removed for no preview type, added at the end when missing, else unchanged; stated by `SplitAfterMembership` |
| FileEditor.FileEditor.constructor | src/main/java/at/crowdware/bookdesigner/FileEditor.java:82-100 | a new editor has its path, the markdown flag of that path, no panes and no tasks |
| FileEditor.FileEditor.SetPath | src/main/java/at/crowdware/bookdesigner/FileEditor.java:90-97 | the path listener fires only on a change: the same path queues nothing, a different one queues one task that refreshes the markdown flag and the preview later; the markdown flag, panes, split items, pending flag, shown content, preview type, time stamp and closed flag are unchanged; the invariant is kept |
| FileEditor.FileEditor.UpdateIsMarkdown | src/main/java/at/crowdware/bookdesigner/FileEditor.java:184-188 | the flag becomes the markdown test of the current path; nothing else changes |
| FileEditor.FileEditor.UpdatePreviewType | src/main/java/at/crowdware/bookdesigner/FileEditor.java:197-206 | nothing without a preview pane; nothing while a pass is pending; else one pass is queued and the flag set; with panes exactly one pass is queued afterwards |
| FileEditor.FileEditor.PreviewPass | src/main/java/at/crowdware/bookdesigner/FileEditor.java:207-227 | the pass clears the flag, sets the computed type, and adds or removes the preview node |
| FileEditor.FileEditor.RunNextTask | src/main/java/at/crowdware/bookdesigner/FileEditor.java:93-96 | running the oldest task keeps the invariant (flag iff one pass queued, node at most once); a pass sets the type and the node's membership; a deferred update or a path change queues a pass exactly when panes exist and none is pending; a path change refreshes the markdown flag; close marks the editor closed; path, panes, shown content and time stamp never change |
| FileEditor.FileEditor.Load | src/main/java/at/crowdware/bookdesigner/FileEditor.java:329-371 | without a path or an editor nothing changes; the time stamp is taken; on an I/O error nothing else changes; else the load decision is shown and an update is queued; path, markdown flag, panes, split items, pending flag, preview type and closed flag are unchanged |
| FileEditor.FileEditor.Activate | src/main/java/at/crowdware/bookdesigner/FileEditor.java:261-315 | the first activation as written: it throws exactly when the editor is untitled, because the editor pane is built from the extension of a null path, and then nothing changes; with a path the panes are created as CreatePanes states; the path, markdown flag, closed flag and preview type are unchanged |
| FileEditor.FileEditor.CreatePanes | src/main/java/at/crowdware/bookdesigner/FileEditor.java:273-315 | the first activation as intended, for titled and untitled editors alike: the panes are created and the file loaded; with a path and readable contents it shows the load decision for them and queues a deferred preview update and then a pass, otherwise it shows what it showed and queues the pass alone; the preview node is in the split pane exactly when a preview is due; the path, markdown flag, closed flag and preview type are unchanged |
| FileEditor.UntitledSelectedTwice | src/main/java/at/crowdware/bookdesigner/FileEditor.java:109-115 | selecting an untitled editor's tab twice throws both times, and the editor is left without panes, tasks, split items or shown text |
| FileEditor.FileEditor.ReloadFile | src/main/java/at/crowdware/bookdesigner/FileEditor.java:432-471 | the outcome is the reload guard's; the time stamp is taken whenever it changed; Close queues the close task; on Reload the file is read again: with panes and readable contents the load decision is shown and a deferred preview update queued, otherwise shown and tasks stay; SaveAs and Kept change neither; path, markdown flag, panes, split items, pending flag, preview type and closed flag are unchanged |
| WebViewPreview.Chain | src/main/java/at/crowdware/bookdesigner/preview/WebViewPreview.java:187-190 | the dependency chain follows the table from the language until a language without an entry |
| WebViewPreview.AddFencedBlock | src/main/java/at/crowdware/bookdesigner/preview/WebViewPreview.java:181-190 | a fenced block appends its info string (even an empty one) and then inserts each language of its chain at index 0 |
| WebViewPreview.Visit | src/main/java/at/crowdware/bookdesigner/preview/WebViewPreview.java:178-196 | the visitor yields every block's chain (later blocks first) followed by every block's info string in document order; fenced blocks are not descended into |
| WebViewPreview.CollectLanguages | src/main/java/at/crowdware/bookdesigner/preview/WebViewPreview.java:176-196 | the collected list for a document is its blocks' dependencies followed by its blocks |
| WebViewPreview.CollectedAppend | src/main/java/at/crowdware/bookdesigner/preview/WebViewPreview.java:178-196 | visiting blocks a then b is visiting a + b |
| WebViewPreview.DepsPrefixAppend | src/main/java/at/crowdware/bookdesigner/preview/WebViewPreview.java:189 | each block's chain is pushed in front of the dependencies of the blocks before it |
| WebViewPreview.DepsPrefix | src/main/java/at/crowdware/bookdesigner/preview/WebViewPreview.java:187-190 | the languages pushed to the front of the list: each block's chain, the chains of later blocks in front; stated by `DepsPrefixAppend`, `DependencyCollected` and `CollectedLength` |
| WebViewPreview.CollectedLength | src/main/java/at/crowdware/bookdesigner/preview/WebViewPreview.java:183-190 | the list length is the sum over blocks of 1 + chain length (no deduplication) |
| WebViewPreview.DependencyCollected | src/main/java/at/crowdware/bookdesigner/preview/WebViewPreview.java:187-190 | every dependency of every block is collected, ahead of all blocks' info strings |
| WebViewPreview.CollectedEmpty | src/main/java/at/crowdware/bookdesigner/preview/WebViewPreview.java:198-199 | the collected list is empty exactly when there is no fenced block |
| WebViewPreview.ReverseHas | src/main/java/at/crowdware/bookdesigner/preview/WebViewPreview.java:189 | inserting a chain at the front keeps all its languages |
| WebViewPreview.PrismHtmlEmpty | src/main/java/at/crowdware/bookdesigner/preview/WebViewPreview.java:198-199 | `prismSyntaxHighlighting` is "" exactly when the document has no fenced code block |
| WebViewPreview.PrismHtml | src/main/java/at/crowdware/bookdesigner/preview/WebViewPreview.java:198-212 | prismSyntaxHighlighting: "" for no language, else the Prism head then one script per language; stated by `PrismHtmlEmpty`, `LanguageScriptsAppend`, `LanguageScriptsNone` and `BuildPrismHtml` |
| WebViewPreview.LanguageScriptsAppend | src/main/java/at/crowdware/bookdesigner/preview/WebViewPreview.java:207-211 | the language scripts of a + b are those of a and then those of b, in list order |
| WebViewPreview.LanguageScriptsNone | src/main/java/at/crowdware/bookdesigner/preview/WebViewPreview.java:208-210 | languages without a component emit no script |
| WebViewPreview.BuildPrismHtml | src/main/java/at/crowdware/bookdesigner/preview/WebViewPreview.java:198-212 | the builder gives "" for no language, else the prism.css link, the prism-core script and one script per language with a resource, in list order |
| WebViewPreview.BaseTag | src/main/java/at/crowdware/bookdesigner/preview/WebViewPreview.java:120-122 | the base tag is present exactly when the file has a path |
| WebViewPreview.HighlightNodesAt | src/main/java/at/crowdware/bookdesigner/preview/WebViewPreview.java:169-171 | the script that highlights the nodes at the end of a selection range; its place in the page is stated by `DocumentEndsWithHighlight` |
| WebViewPreview.ScrollScript | src/main/java/at/crowdware/bookdesigner/preview/WebViewPreview.java:123-125 | the onload scrollTo attribute is present exactly when a scroll offset is positive |
| WebViewPreview.PageOptionalParts | src/main/java/at/crowdware/bookdesigner/preview/WebViewPreview.java:119-148 | the page has a Prism part exactly when a language was collected, a base tag exactly with a path, an onload scroll exactly with a positive offset |
| WebViewPreview.HeadEndsWithPrismAndBase | src/main/java/at/crowdware/bookdesigner/preview/WebViewPreview.java:128-143 | the head ends with the Prism part, then the base tag, then `</head>` |
| WebViewPreview.Head | src/main/java/at/crowdware/bookdesigner/preview/WebViewPreview.java:128-143 | the head: stylesheet link, style with the additional CSS and the selection rule, preview.js, then the Prism part and the base tag; stated by `HeadEndsWithPrismAndBase` |
| WebViewPreview.Body | src/main/java/at/crowdware/bookdesigner/preview/WebViewPreview.java:143-147 | the body with the onload scroll, the rendered HTML and the highlight script; stated by `DocumentEndsWithHighlight` |
| WebViewPreview.Document | src/main/java/at/crowdware/bookdesigner/preview/WebViewPreview.java:126-148 | the doctype, then html around the head and the body; stated by `PageOptionalParts` and `DocumentEndsWithHighlight` |
| WebViewPreview.DocumentEndsWithHighlight | src/main/java/at/crowdware/bookdesigner/preview/WebViewPreview.java:144-148 | the document ends with `preview.highlightNodesAt(<selection end>)` in a script, then `</body></html>` |
| WebViewPreview.IntOrZero | src/main/java/at/crowdware/bookdesigner/preview/WebViewPreview.java:114-115 | a scroll reading that is not a number becomes 0 |
| WebViewPreview.WebViewPreview.constructor | src/main/java/at/crowdware/bookdesigner/preview/WebViewPreview.java:59-68 | a new preview has no pending and no run action, no scroll offset and no selection |
| WebViewPreview.WebViewPreview.RunWhenLoaded | src/main/java/at/crowdware/bookdesigner/preview/WebViewPreview.java:93-98 | while a load runs the action is queued and not run; otherwise it runs now and the queue is unchanged; either way it is run or queued exactly once |
| WebViewPreview.WebViewPreview.OnStateChanged | src/main/java/at/crowdware/bookdesigner/preview/WebViewPreview.java:82-90 | on SUCCEEDED the queue is emptied and each pending action runs once, in queue order; on any other state nothing runs |
| WebViewPreview.WebViewPreview.ScrollY | src/main/java/at/crowdware/bookdesigner/preview/WebViewPreview.java:151-156 | a scroll is run now or queued as runWhenLoaded decides |
| WebViewPreview.WebViewPreview.EditorSelectionChanged | src/main/java/at/crowdware/bookdesigner/preview/WebViewPreview.java:158-167 | a range equal to the last one changes nothing; otherwise it is remembered and one highlight is run or queued |
| WebViewPreview.WebViewPreview.RememberView | src/main/java/at/crowdware/bookdesigner/preview/WebViewPreview.java:109-117 | the scroll offsets are read only when no load is running (non-numbers as 0) and the selection is remembered |
| WebViewPreview.WebViewPreview.LoadPage | src/main/java/at/crowdware/bookdesigner/preview/WebViewPreview.java:119-148 | the loaded document is the page for the given languages, path and remembered scroll offsets |
| WebViewPreview.WebViewPreview.Render | src/main/java/at/crowdware/bookdesigner/preview/WebViewPreview.java:141 | the loaded document uses the languages collected from the document's AST |
| WebViewPreview.WebViewPreview.Update | src/main/java/at/crowdware/bookdesigner/preview/WebViewPreview.java:108-149 | update remembers the view, loads the dependency table as initPrismLangDependencies does, and loads the assembled page unless the table loader failed |
| PrismDependencies.TrimDelim | src/main/java/at/crowdware/bookdesigner/preview/WebViewPreview.java:247-252 | `trimDelim` returns a text no longer than its input |
| PrismDependencies.TrimDelimOk | src/main/java/at/crowdware/bookdesigner/preview/WebViewPreview.java:247-252 | `trimDelim` gives `inner` exactly when the trimmed text is leading + inner + trailing |
| PrismDependencies.Delimited | src/main/java/at/crowdware/bookdesigner/preview/WebViewPreview.java:249-251 | the delimiter check on a trimmed text succeeds with `inner` exactly for leading + inner + trailing |
| PrismDependencies.ReplaceBracketsPlain | src/main/java/at/crowdware/bookdesigner/preview/WebViewPreview.java:230 | the rewrite leaves text without '[' unchanged |
| PrismDependencies.ReplaceBracketsList | src/main/java/at/crowdware/bookdesigner/preview/WebViewPreview.java:230 | a bracketed list `[x]` is replaced whole by "[not supported]", whatever commas x holds |
| PrismDependencies.ReplaceBrackets | src/main/java/at/crowdware/bookdesigner/preview/WebViewPreview.java:230 | the `replaceAll` of each "[…]" run (at least one char, no ']') by "[not supported]"; stated by `ReplaceBracketsPlain` and `ReplaceBracketsList` |
| PrismDependencies.ParseEntry | src/main/java/at/crowdware/bookdesigner/preview/WebViewPreview.java:232-239 | one comma piece: `parts[1]` missing is an index exception, a list value is skipped, else the trimmed key and value or trimDelim's exception; stated by `SplitAtColon`, `ParseListEntry`, `LoadEntryLine` |
| PrismDependencies.BraceLines | src/main/java/at/crowdware/bookdesigner/preview/WebViewPreview.java:227-228 | the lines the loader reads all start with '{' |
| PrismDependencies.LoadLinesOnlyBraceLines | src/main/java/at/crowdware/bookdesigner/preview/WebViewPreview.java:226-228 | lines not starting with '{' have no effect |
| PrismDependencies.ApplyEntriesLastWins | src/main/java/at/crowdware/bookdesigner/preview/WebViewPreview.java:237-239 | of several entries for one key the last decides its value |
| PrismDependencies.LoadLines | src/main/java/at/crowdware/bookdesigner/preview/WebViewPreview.java:225-240 | the read loop: lines not starting with '{' are skipped, the others rewritten, unwrapped and split into entries, until the first exception; stated by `LoadLinesOnlyBraceLines`, `BraceLines`, `LoadEntryLine`, `LoadListLine` |
| PrismDependencies.InitResult | src/main/java/at/crowdware/bookdesigner/preview/WebViewPreview.java:218-245 | initPrismLangDependencies: nothing once the map holds anything, else the lines are loaded into the empty map; stated by `LangDependencies.Init` |
| PrismDependencies.SplitAtColon | src/main/java/at/crowdware/bookdesigner/preview/WebViewPreview.java:233 | an entry k:v with colon-free parts splits into [k, v] |
| PrismDependencies.TrimDelimQuoted | src/main/java/at/crowdware/bookdesigner/preview/WebViewPreview.java:237-238 | a quoted text is unquoted by trimDelim |
| PrismDependencies.LoadEntryLine | src/main/java/at/crowdware/bookdesigner/preview/WebViewPreview.java:226-240 | the line {"key":"value"} puts exactly key -> value |
| PrismDependencies.LoadListLine | src/main/java/at/crowdware/bookdesigner/preview/WebViewPreview.java:230-235 | the line {"key":[list]} is read without error and puts nothing |
| PrismDependencies.ParseListEntry | src/main/java/at/crowdware/bookdesigner/preview/WebViewPreview.java:234-235 | an entry whose value starts with '[' is skipped |
| PrismDependencies.LoadSingleEntryLine | src/main/java/at/crowdware/bookdesigner/preview/WebViewPreview.java:226-240 | a line with one braced entry is loaded as that entry alone |
| PrismDependencies.LangDependencies.constructor | src/main/java/at/crowdware/bookdesigner/preview/WebViewPreview.java:59 | the table starts empty |
| PrismDependencies.LangDependencies.Init | src/main/java/at/crowdware/bookdesigner/preview/WebViewPreview.java:218-245 | a no-op once the map holds anything; otherwise the lines are read into the empty map, stopping at the first exception, which is returned |
| PrismDependencies.LangDependencies.PutEntries | src/main/java/at/crowdware/bookdesigner/preview/WebViewPreview.java:232-240 | each entry of a line is put in turn, lists skipped, stopping at the first exception |
| UserDictionary.NonCommentsMembers | src/main/java/at/crowdware/bookdesigner/spellchecker/UserDictionary.java:83-86 | a word is among the words exactly when it is a line that does not start with '#' |
| UserDictionary.NonComments | src/main/java/at/crowdware/bookdesigner/spellchecker/UserDictionary.java:82-86 | the lines that do not start with '#', in file order; stated by `NonCommentsMembers`, `NonCommentsIdentity` and `CollectWords` |
| UserDictionary.NonCommentsIdentity | src/main/java/at/crowdware/bookdesigner/spellchecker/UserDictionary.java:88 | filtering keeps every line exactly when there is no comment line |
| UserDictionary.CollectWords | src/main/java/at/crowdware/bookdesigner/spellchecker/UserDictionary.java:82-86 | the loop collects the non-comment lines in file order |
| UserDictionary.LexLessIrreflexive | src/main/java/at/crowdware/bookdesigner/spellchecker/UserDictionary.java:118 | `compareTo` never puts a string before itself |
| UserDictionary.LexLessTransitive | src/main/java/at/crowdware/bookdesigner/spellchecker/UserDictionary.java:118 | `compareTo` order is transitive |
| UserDictionary.LexLessTotal | src/main/java/at/crowdware/bookdesigner/spellchecker/UserDictionary.java:118 | two different strings are ordered one way by `compareTo` |
| UserDictionary.BeforeIrreflexive | src/main/java/at/crowdware/bookdesigner/spellchecker/UserDictionary.java:116-119 | the comparator never puts a string before itself |
| UserDictionary.BeforeTransitive | src/main/java/at/crowdware/bookdesigner/spellchecker/UserDictionary.java:116-119 | the comparator order is transitive |
| UserDictionary.BeforeTotal | src/main/java/at/crowdware/bookdesigner/spellchecker/UserDictionary.java:116-119 | the comparator orders any two different strings |
| UserDictionary.LeqTransitive | src/main/java/at/crowdware/bookdesigner/spellchecker/UserDictionary.java:116-119 | non-positive comparison is transitive |
| UserDictionary.LeqTotal | src/main/java/at/crowdware/bookdesigner/spellchecker/UserDictionary.java:116-119 | any two strings compare non-positively one way |
| UserDictionary.LeqAntisymmetric | src/main/java/at/crowdware/bookdesigner/spellchecker/UserDictionary.java:116-119 | the comparator is zero only for equal strings |
| UserDictionary.InsertPermutes | src/main/java/at/crowdware/bookdesigner/spellchecker/UserDictionary.java:114-121 | inserting adds exactly the element |
| UserDictionary.InsertSorted | src/main/java/at/crowdware/bookdesigner/spellchecker/UserDictionary.java:114-121 | inserting into a sorted list keeps it sorted |
| UserDictionary.SortCorrect | src/main/java/at/crowdware/bookdesigner/spellchecker/UserDictionary.java:114-121 | `sort` returns a permutation of its input in comparator order |
| UserDictionary.Sort | src/main/java/at/crowdware/bookdesigner/spellchecker/UserDictionary.java:114-121 | the sorted copy; `SortCorrect` states it is a permutation in comparator order and `SortedUnique` that it is the only such list |
| UserDictionary.SortedUnique | src/main/java/at/crowdware/bookdesigner/spellchecker/UserDictionary.java:114-121 | two sorted lists with the same elements are equal, so any sorting algorithm gives the same list |
| UserDictionary.SortFixed | src/main/java/at/crowdware/bookdesigner/spellchecker/UserDictionary.java:88 | a list equals its sorted copy exactly when it is in comparator order |
| UserDictionary.SortedFlag | src/main/java/at/crowdware/bookdesigner/spellchecker/UserDictionary.java:88 | `isSorted` holds exactly when there are no comment lines and the lines are in sort order |
| UserDictionary.SavedContent | src/main/java/at/crowdware/bookdesigner/spellchecker/UserDictionary.java:93 | what is written has exactly the lines, and is sorted when the file was |
| UserDictionary.UserDictionary.constructor | src/main/java/at/crowdware/bookdesigner/spellchecker/UserDictionary.java:64-89 | a missing or unreadable file gives no lines; the words are the non-comment lines; the flag is set exactly for a sorted file without comments |
| UserDictionary.UserDictionary.Save | src/main/java/at/crowdware/bookdesigner/spellchecker/UserDictionary.java:91-98 | save writes the sorted lines exactly when the flag is set, else the lines as they are |
| UserDictionary.UserDictionary.AddWord | src/main/java/at/crowdware/bookdesigner/spellchecker/UserDictionary.java:104-112 | a known word changes and writes nothing; any other word is appended to lines and words and the file is written; the flag is not recomputed; words gain no duplicate |
| LinkDialog.ParseLinkOfLink | src/main/java/at/crowdware/bookdesigner/dialogs/LinkDialog.java:79-83 | for a text without ']' and a url without a space, every link the dialog builds reads back as its fields, so on that domain the three forms [text](url "title"), [text](url) and <url> never collide (outside it they can: see Left out) |
| LinkDialog.Link | src/main/java/at/crowdware/bookdesigner/dialogs/LinkDialog.java:79-83 | the three link forms chosen by which escaped fields are empty; `ParseLinkOfLink` states that each reads back as its fields |
| LinkDialog.LinkOfFields | src/main/java/at/crowdware/bookdesigner/dialogs/LinkDialog.java:79-83 | the link reads back as the url escaped with "()", the text escaped with "[]" and the title unescaped |
| LinkDialog.AngleLink | src/main/java/at/crowdware/bookdesigner/dialogs/LinkDialog.java:83 | <url> reads back as the url alone |
| LinkDialog.BracketedLink | src/main/java/at/crowdware/bookdesigner/dialogs/LinkDialog.java:80-82 | [text](target) reads back as the text and its target |
| LinkDialog.TitledTarget | src/main/java/at/crowdware/bookdesigner/dialogs/LinkDialog.java:80 | `url "title"` reads back as the url and the title |
| LinkDialog.DialogResultHasUrl | src/main/java/at/crowdware/bookdesigner/dialogs/LinkDialog.java:74-75 | the result is a link exactly when OK is pressed, and that link carries the non-empty url it was built from |
| LinkDialog.OkDisabled | src/main/java/at/crowdware/bookdesigner/dialogs/LinkDialog.java:74-75 | OK is disabled exactly when the escaped url is empty; `DialogResultHasUrl` uses it |
| LinkDialog.DialogResult | src/main/java/at/crowdware/bookdesigner/dialogs/LinkDialog.java:86-88 | the result converter: the link for OK, null otherwise; stated by `DialogResultHasUrl` |
| LinkDialog.InitialSelection | src/main/java/at/crowdware/bookdesigner/dialogs/LinkDialog.java:93-94 | a url is selected exactly when it starts with "https://", and the selection is the rest of the url |
| LinkDialog.DefaultUrlSelection | src/main/java/at/crowdware/bookdesigner/dialogs/LinkDialog.java:137 | the default url opens with the characters [8, 20) selected |
| ProjectManager.Names | src/main/java/at/crowdware/bookdesigner/projects/ProjectManager.java:218 | the names of the child nodes, in order |
| ProjectManager.FindChild | src/main/java/at/crowdware/bookdesigner/projects/ProjectManager.java:218-224 | the first child whose stored path is the project, or None when no child stores it |
| ProjectManager.FindChildAppend | src/main/java/at/crowdware/bookdesigner/projects/ProjectManager.java:240-241 | a child added at the end does not change an earlier find, and is found when it is the first child with the path |
| ProjectManager.DistinctNamesAppend | src/main/java/at/crowdware/bookdesigner/projects/ProjectManager.java:240-242 | a new child node whose name is not taken keeps the child names unique |
| ProjectManager.FindChildIndex | src/main/java/at/crowdware/bookdesigner/projects/ProjectManager.java:219-224 | the lookup loop finds the first child storing the project |
| ProjectManager.MaxIdAsWritten | src/main/java/at/crowdware/bookdesigner/projects/ProjectManager.java:229-238 | the lastID loop as written stays a non-negative Java `int` |
| ProjectManager.NewChildNameAsWritten | src/main/java/at/crowdware/bookdesigner/projects/ProjectManager.java:229-240 | the new node's name as written: `String.valueOf(lastID + 1)` in 32 bits; `NewChildNameCollision` and `WideNameSkipped` state where it goes wrong or differs |
| ProjectManager.NewChildNameCollision | src/main/java/at/crowdware/bookdesigner/projects/ProjectManager.java:229-242 | with children "2147483647" and "-2147483648" the code as written names the new node like an existing one |
| ProjectManager.MaxPlusOneWraps | src/main/java/at/crowdware/bookdesigner/projects/ProjectManager.java:240 | Integer.MAX_VALUE + 1 is Integer.MIN_VALUE |
| ProjectManager.WideNameSkipped | src/main/java/at/crowdware/bookdesigner/projects/ProjectManager.java:229-240 | a child name beyond 32 bits is skipped by `Integer.parseInt`, so the code as written names the new node "1" where the overflow-free name is one more than that name |
| ProjectManager.MaxId | src/main/java/at/crowdware/bookdesigner/projects/ProjectManager.java:229-238 | the lastID loop read with unbounded integers: lastID is at least every numeric name's value and at least 0, and is 0 or the value of some name (see Left out: names beyond 32 bits) |
| ProjectManager.MaxChildId | src/main/java/at/crowdware/bookdesigner/projects/ProjectManager.java:229-238 | the lastID loop computes `MaxId`, without 32-bit parsing or overflow (see Left out) |
| ProjectManager.NewChildNameFresh | src/main/java/at/crowdware/bookdesigner/projects/ProjectManager.java:240 | the new child's name differs from every existing child's name |
| ProjectManager.NewChildName | src/main/java/at/crowdware/bookdesigner/projects/ProjectManager.java:240 | one more than every numeric child name; `NewChildNameFresh` states it is not an existing name |
| ProjectManager.AsWrittenAgrees | src/main/java/at/crowdware/bookdesigner/projects/ProjectManager.java:229-240 | while every numeric name fits in 32 bits and the largest is below Integer.MAX_VALUE, the code as written picks the same name; both conditions are needed |
| ProjectManager.MaxIdAgrees | src/main/java/at/crowdware/bookdesigner/projects/ProjectManager.java:229-238 | with only 32-bit numeric names the lastID loop as written computes the unbounded maximum |
| ProjectManager.RecentPathsMembers | src/main/java/at/crowdware/bookdesigner/projects/ProjectManager.java:262-280 | a path is a recent project exactly when some child stores it |
| ProjectManager.RecentPathsLength | src/main/java/at/crowdware/bookdesigner/projects/ProjectManager.java:267-273 | at most one recent project per child, exactly one when every child stores a path |
| ProjectManager.RecentPaths | src/main/java/at/crowdware/bookdesigner/projects/ProjectManager.java:262-280 | getRecentProjects: the stored paths in child order; stated by `RecentPathsMembers`, `RecentPathsLength` and `GetRecentProjects` |
| ProjectManager.StartupActive | src/main/java/at/crowdware/bookdesigner/projects/ProjectManager.java:171-175 | the saved active project if any, else the first recent project, else none; stated by `ProjectManager.Startup` |
| ProjectManager.ProjectManager.GetProjectState | src/main/java/at/crowdware/bookdesigner/projects/ProjectManager.java:214-248 | the child storing the project is returned and nothing changes; without it and without create, None and nothing changes; else one child with a fresh name and the path is appended; earlier finds are kept |
| ProjectManager.ProjectManager.RemoveProjectState | src/main/java/at/crowdware/bookdesigner/projects/ProjectManager.java:250-260 | nothing happens when no child stores the project; otherwise exactly the first such child is removed |
| ProjectManager.ProjectManager.GetRecentProjects | src/main/java/at/crowdware/bookdesigner/projects/ProjectManager.java:262-280 | the stored paths in child order, skipping children without one |
| ProjectManager.ProjectManager.SetActiveProject | src/main/java/at/crowdware/bookdesigner/projects/ProjectManager.java:147-153 | the listener fires only on a change: the same project changes nothing; a different one becomes active and is saved (null removes it); a project not in the recent list is appended to it, and gets a new child named `NewChildName` unless a child already stores it; the active project stays in the recent list |
| ProjectManager.ProjectManager.Startup | src/main/java/at/crowdware/bookdesigner/projects/ProjectManager.java:140-176 | the recent projects are read from the children; the saved active project is used if present, else the first recent one; the saved entry equals the active project; a saved active project not among the recent ones is appended and gets a new child |

## Left out

- I/O is not modelled: reading and writing files, charset decoding and its fallback, `Files.size`, `lastModified` and `exists`. The contents and time stamps are arguments, and the written dictionary lists are a log.
- The messages and alerts of `load` and `reload` are left out. Their texts are not modelled; the message's size values and the user's choices are kept.
- `Path.getFileName()` and `getParent().toUri()` are not modelled. `FileExtension` takes the file name, and `BaseTag` takes the parent URI.
- FileEditor.FileEditor.Activate: the editor pane is outside the model, so the extension it receives is not recorded. The model keeps only whether computing that extension throws. After the exception, the selection handler's `updatePreviewType()` is skipped as well; without panes it would do nothing.
- The JavaFX bindings, the tab and focus wiring, `setRendererType`, `requestFocus` and the undo manager are left out. `Platform.runLater` is the `tasks` queue.
- The web engine and JavaScript execution are parameters: scroll readings are arguments, and the scripts run are the `executed` log of actions.
- `getResource` is the oracle `resource`. The additional CSS is an argument, and the rendered HTML is an argument.
- The flexmark AST and its visitor are left out; `Node` distinguishes only fenced code blocks and other nodes.
- Actions that queue further actions while the queue is drained are not modelled, because the only actions are single scripts.
- UserDictionary.LexLess: strings are sequences of Unicode code points, while Java's `compareTo` and `compareToIgnoreCase` compare UTF-16 code units. For characters above U+FFFF (surrogate pairs) the order can differ, and with it `Sort`, the `isSorted` flag and the order that `Save` writes.
- LinkDialog.InitialSelection: the selection ends at the url's length in code points, whereas `getLength()` counts UTF-16 code units; the two differ for a url holding characters above U+FFFF.
- Case folding is ASCII only, in `toLowerCase` and `compareToIgnoreCase`; full Unicode case mapping is not modelled.
- `Integer.parseInt` digits are ASCII only; it accepts a leading '+' or '-'.
- UserDictionary.Sort: `List.sort` (a stable merge sort) is modelled by an insertion sort. `SortedUnique` shows that both give the same list, because the comparator is zero only for equal strings.
- UserDictionary: `getWords` is the `words` field. The choice of the dictionary file (its path relative to the active project) is not modelled; the constructor takes the file's lines.
- LinkDialog: `EscapeTextField`'s escaping is not part of this model; it is the function parameter `escape` of `LinkOf`. `ParseLinkOfLink` requires a text without ']' and a url without a space, which escaping "[]" and "()" does not guarantee. Outside that domain two forms can give the same link: the url `u "x"` with the text `t` gives `[t](u "x")`, as does the url `u` with the text `t` and the title `x`.
- ProjectManager: `File` is its absolute path string; `File.equals` on paths is string equality.
- ProjectManager: the order of `childrenNames()` is taken as given.
- ProjectManager: `BackingStoreException` paths are not modelled.
- ProjectManager: `Utils.putPrefs` is modelled as storing the path, and as removing the entry for null.
- ProjectManager: changes to the projects list other than `add` are not modelled. The removal listener is modelled through `RemoveProjectState`, which nothing in the model calls.
- ProjectManager: `setProject`, `openProject`, `createProjectFiles`, `loadApp` and `loadBook` are file-system and GUI code.
- ProjectManager.ProjectManager.GetProjectState: it names a new child with `NewChildName`, which reads child names as unbounded integers and adds without overflow. The code as written (`NewChildNameAsWritten`) skips names beyond 32 bits, which `Integer.parseInt` rejects, and wraps at Integer.MAX_VALUE. `AsWrittenAgrees` shows the two agree only while every numeric name fits in 32 bits AND the largest is below Integer.MAX_VALUE. A lone child "5000000000" gives "1" as written and "5000000001" here (`WideNameSkipped`). Skipping wide names without the wrap would not give a fresh name either: with "2147483647" and "2147483648" it would pick "2147483648".
- ProjectManager.MaxId: reads every numeric name as an unbounded integer, where `Integer.parseInt` skips names beyond 32 bits; see `GetProjectState` above.
- ProjectManager.MaxChildId: computes `MaxId`, so the same difference applies.
- WebViewPreview.Visit: requires that every block's dependency chain ends; on a cyclic table the source loops forever.
- WebViewPreview.WebViewPreview.Update: keeps the document as its parts (`PageParts`, whose text is `PageText`), not as one string.
- WebViewPreview.WebViewPreview.Update: the renderer is not modelled; its HTML is an argument.

## Findings

| source | as written | input that shows it | evidently intended | confidence | as-written member | corrected member |
|---|---|---|---|---|---|---|
| src/main/java/at/crowdware/bookdesigner/projects/ProjectManager.java:229-242 | `lastID + 1` is 32-bit `int` addition and `Integer.parseInt` accepts negative names | child nodes named "2147483647" and "-2147483648": lastID is 2147483647, `lastID + 1` wraps to -2147483648, and `state.node("-2147483648")` returns the existing node, whose path is overwritten | the new node's name differs from every existing child's name | not executed | ProjectManager.NewChildNameCollision | ProjectManager.NewChildNameFresh |
| src/main/java/at/crowdware/bookdesigner/FileEditor.java:249-274 | the first activation calls `getFileExtension(path)`, which dereferences the path before anything is created | an untitled editor (null path) whose tab is selected: `filePath.get().toString()` throws a NullPointerException, so the editor never gets its panes, however often it is selected | an untitled editor gets its panes, with "" as the extension, as the null-path checks elsewhere in the class suggest | not executed | FileEditor.FileEditor.Activate | FileEditor.FileEditor.CreatePanes |
