# A verified model of the note editor's highlighter and note files

The system is a small personal notes application. Daily notes are named by
their date (`YYYY-MM-DD`) and named notes by a random `n-` id. Each note is a
Markdown file with a short `key: value` header. The browser editor highlights
Markdown as the user types.

This project models three parts of it in Dafny and proves properties of each.

- **The keystroke-time Markdown highlighter** (`client/components/text-editor/markdown.js`).
  It runs as a pipeline:
  - the line splitter `parseText`;
  - the line classifier `getLineType`/`getLineSubtype`, with its ordered
    marker tables;
  - four left-to-right inline scanners: `parseLinks`, `parseCode`,
    `parseRefs` and `parseBoldItalic`;
  - the tree builder `parseLine`, which produces leaves holding text and
    nodes holding children;
  - the renderer `renderNode`/`highlight`.

  The main invariant is that a line's leaves, concatenated, give back the
  line. The model proves where this holds. It also proves, with a
  counterexample, each place where the code breaks it.
- **The note-file format and store** (`server/files.ts` and its older copy
  `src/files.ts`):
  - the writer/reader pair `noteToString`/`stringToNote`;
  - the slugifier `cleanName`;
  - routing an id to a directory;
  - what `create`, `update`, `getById`, `delete` and `allInDir` compute and
    write.

  The filesystem is a map from paths to file texts.
- **The daily-note id** (`public/js/dates.js`): the `YYYY-MM-DD` validator and
  formatter.

## Layout

| file | module | what it holds |
|---|---|---|
| `wrappers.dfy` | `Wrappers` | `Option` and `Result` (a thrown error is `Failure`) |
| `js_strings.dfy` | `JsStrings` | The JavaScript string operations used throughout: `startsWith`, `\s`, `trim`, `split("\n")`, `join` |
| `dates.dfy` | `Dates` | `matchFormattedDate`, and `getFormattedDate` over year, month index and day |
| `md_nodes.dfy` | `MdNodes` | The node tree (`Leaf` and `Branch`) and the text a tree spells out (`Flat`) |
| `md_lines.dfy` | `LineSplitter` | `parseText` |
| `md_classify.dfy` | `LineClassifier` | `lineTypes`, `getLineType`, `lineSubtypes` and `getLineSubtype` |
| `md_spans.dfy` | `DelimitedSpans` | `parseCode` and `parseRefs`: one toggle scan with two delimiter pairs |
| `md_emphasis.dfy` | `EmphasisScanner` | `parseBoldItalic` |
| `md_links.dfy` | `LinkScanner` | `parseLinks` and its `meta.links` map |
| `md_inline.dfy` | `Inline` | `parseTextNode` and `parseInline` |
| `md_line.dfy` | `LineParser` | `spaceNode` and `parseLine` |
| `md_render.dfy` | `Render` | `renderNode` and `highlight`, producing a `Display` tree in place of DOM spans |
| `note_format.dfy` | `NoteFormat` | `noteToString`, `stringToNote` and `cleanName`, which are textually the same in both copies |
| `note_store.dfy` | `NoteStore` | `server/files.ts`: routing, `create`, `load`, `getById`, `update`, `delete`, `allInDir`, and the `Files` class over a disk map |
| `note_store_src.dfy` | `NoteStoreSrc` | How `src/files.ts` differs: `init`, the `create` that mutates its argument, the `load` that creates on a missing file, the unsorted `allInDir` |

Each scanner loop is a `method` proved equal to a recursive specification
function of the remaining input. The source's properties are lemmas about
that function. `noteToString`, `stringToNote` and `cleanName` are the same
code in `src/files.ts:168-218`, so the `NoteFormat` rows below cover both
copies. `meta.links` is a field of the class `LinkScanner.Meta`, and
the methods that record links declare `modifies meta`.

## Model

| member | source | states |
|---|---|---|
| LineSplitter.ParseText | client/components/text-editor/markdown.js:138-163 | The nested loops return the specification's lines. Those lines tile the input: empty input gives no lines; the first line starts at 0; each later line starts one past a `\n` that ended the previous one; the last runs to the end. Joining the contents with `"\n"` rebuilds the input. |
| LineSplitter.SplitLinesTiles | client/components/text-editor/markdown.js:138-163 | For every input, the lines cover it without gaps or overlaps. Each content is the input slice given by its range. A non-empty input always yields a line that ends at the end of the input. |
| LineSplitter.JoinTiles | client/components/text-editor/markdown.js:141-158 | Lines that tile an input, joined with `"\n"`, give that input back. |
| LineSplitter.TrailingNewlineKept | client/components/text-editor/markdown.js:141-158 | The end-of-input test runs before the newline test, so a trailing `\n` stays inside the last line's content. |
| LineClassifier.MatchTableIsFirst | client/components/text-editor/markdown.js:62-74 | The table lookup returns the first entry, in declared order, whose marker followed by a space starts the line. It returns nothing exactly when no entry matches. |
| LineClassifier.HeadingPatterns | client/components/text-editor/markdown.js:46-56 | The first six table entries are `#` through `######`. |
| LineClassifier.HeadingLevel | client/components/text-editor/markdown.js:46-74 | A line starting with n `#` and a space is heading level n with that marker. So `"## x"` is `h2` and never `h1`. |
| LineClassifier.ShorterHeadingFails | client/components/text-editor/markdown.js:62-74 | A line starting with n `#` and a space does not start with a shorter run of `#` followed by a space. |
| LineClassifier.NumberedItem | client/components/text-editor/markdown.js:62-74 | Digits, `.`, one whitespace character, then anything gives `list-item-num`, with the digits and dot as the marker. |
| LineClassifier.UntypedLine | client/components/text-editor/markdown.js:62-74 | `getLineType` gives null exactly when no table marker plus space starts the line and the line does not begin with digits, `.` and one whitespace character. |
| LineClassifier.LineTypeSound | client/components/text-editor/markdown.js:62-74 | A typed line begins with its marker and then a whitespace character. The marker is either a table entry followed by a space, or digits followed by `.`. |
| LineClassifier.SubtypeMarkers | client/components/text-editor/markdown.js:80-98 | `"[ ] "`, `"[x] "` and `"[.] "` give `todo`, `todo-done` and `todo-progress`. Every other line gives null. |
| LineClassifier.LineSubtypeSound | client/components/text-editor/markdown.js:91-98 | A subtype marker has three characters, is a table entry, and is followed by a space in the line. |
| LineClassifier.GetLineType | client/components/text-editor/markdown.js:62-74 | The lookup loop over the table, then the numbered-item test, returns the classification above. |
| LineClassifier.GetLineSubtype | client/components/text-editor/markdown.js:91-98 | The lookup loop over the todo table returns the classification above. |
| DelimitedSpans.ToggleRunFlat | client/components/text-editor/markdown.js:186-254 | From any point of the scan, the leaves emitted so far, the buffer and the unread input, concatenated, are kept: no character is lost or duplicated. |
| DelimitedSpans.ToggleRunSpans | client/components/text-editor/markdown.js:186-254 | A span node is emitted exactly when an opening delimiter has a closing one after it. |
| DelimitedSpans.CodeScanProperties | client/components/text-editor/markdown.js:186-218 | `parseCode` keeps the text. Its output is non-empty text leaves and `code` nodes, each holding one leaf that starts and ends with a backtick and has none inside. A `code` node appears exactly when the text has two backticks. |
| DelimitedSpans.UnclosedCode | client/components/text-editor/markdown.js:186-218 | An unclosed opener and its tail stay plain text: `` "`abc" `` yields one text leaf. |
| DelimitedSpans.NoBacktickIsText | client/components/text-editor/markdown.js:186-218 | Text without a backtick comes back as one text leaf (none when the text is empty). |
| DelimitedSpans.RefScanProperties | client/components/text-editor/markdown.js:225-254 | The same as `parseCode`, for `{`…`}` and `ref` nodes. |
| DelimitedSpans.NoBraceIsText | client/components/text-editor/markdown.js:225-254 | Text without `{` comes back as one text leaf (none when the text is empty). |
| DelimitedSpans.ParseCode | client/components/text-editor/markdown.js:186-218 | The loop returns the specification's nodes, whose leaves spell out the input. |
| DelimitedSpans.ParseRefs | client/components/text-editor/markdown.js:225-254 | The loop returns the specification's nodes, whose leaves spell out the input. |
| EmphasisScanner.Step | client/components/text-editor/markdown.js:268-307 | One turn of the loop consumes one character, or two for `**`, and never runs past the end. |
| EmphasisScanner.EmphasisRunLength | client/components/text-editor/markdown.js:261-314 | The output's length plus the markers the scan drops equals the input's length. |
| EmphasisScanner.EmphasisRoundTrip | client/components/text-editor/markdown.js:259-314 | The leaves spell out the input exactly when the scan drops no marker. The shortfall equals the number of markers dropped. |
| EmphasisScanner.NoOverlapRoundTrip | client/components/text-editor/markdown.js:259-314 | When bold and italic do not overlap, the leaves spell out the input. |
| EmphasisScanner.NoStarNoLoss | client/components/text-editor/markdown.js:261-314 | Text without `*` loses nothing. |
| EmphasisScanner.OverlapDropsStar | client/components/text-editor/markdown.js:289-296 | The italic close that meets an empty buffer drops its `*`: `"** *x***"` comes back as `"** *x**"`. |
| EmphasisScanner.ParseBoldItalic | client/components/text-editor/markdown.js:261-314 | The loop returns the specification's nodes. Their leaves spell out the input exactly when no marker is dropped. |
| LinkScanner.Meta.constructor | client/components/text-editor/markdown.js:519 | A `meta` object starts with the links it is given. |
| LinkScanner.LinkStepConsistent | client/components/text-editor/markdown.js:367-425 | Each turn keeps the scan state consistent. At most one of the link-text and link-url modes is on. An open link text is `[` with no `]`; an open url is `(` with no `)` after a complete link text. Outside a link, both buffers are empty. |
| LinkScanner.LinkRunFlat | client/components/text-editor/markdown.js:352-438 | From any consistent state, the emitted leaves, the held-back buffers and the unread input, concatenated, are kept. |
| LinkScanner.LinkScanProperties | client/components/text-editor/markdown.js:352-438 | `parseLinks` keeps the text. It emits only non-empty `text`, `space`, `link-text` and `link-url` leaves. Every `link-text` `[…]` is immediately followed by a `link-url` `(…)`, and every `link-url` immediately follows a `link-text`. |
| LinkScanner.WellFormedLink | client/components/text-editor/markdown.js:352-438 | For `a[b](c)d` with no stray brackets, the scan is: the lead `a`, then `link-text` `"[b]"` and `link-url` `"(c)"`, then `d` as text. |
| LinkScanner.WellFormedLinkRecorded | client/components/text-editor/markdown.js:404-405 | Scanning `a[b](c)d` records `meta.links["(c)"] = "[b]"`. |
| LinkScanner.LinksOfLastWins | client/components/text-editor/markdown.js:404-405 | The map holds, for each url, the link text of its last occurrence: a later identical url overwrites the entry. |
| LinkScanner.LinksOfUntouched | client/components/text-editor/markdown.js:404-405 | Entries for urls the scan does not meet are left unchanged. |
| LinkScanner.NoBracketNoLink | client/components/text-editor/markdown.js:352-438 | Text without `[` is one text leaf (none when the text is empty) and records no link. |
| LinkScanner.FallbackStep | client/components/text-editor/markdown.js:393-396 | A `]` not followed by `(` folds the bracketed text back into the plain text. |
| LinkScanner.UnlinkedBracketIsSpace | client/components/text-editor/markdown.js:393-396 | That fold-back leaves the `space` flag set. So `"[b]"` followed by spaces and another `[` is emitted as a `space` leaf, although it holds non-space text. |
| LinkScanner.ParseLinks | client/components/text-editor/markdown.js:352-438 | The loop returns the specification's leaves. `meta.links` becomes the old map with this text's links recorded in order. |
| Inline.ExpandKeeps | client/components/text-editor/markdown.js:321-343 | A stage rescans only `text` leaves: nodes of every other kind pass through unchanged. |
| Inline.ExpandExact | client/components/text-editor/markdown.js:321-343 | A stage shortens the text by exactly the sum of what each rescanned leaf loses. It keeps the text exactly when no leaf loses anything. |
| Inline.NoLossAnywhere | client/components/text-editor/markdown.js:321-343 | A sequence loses nothing exactly when none of its text leaves does. |
| Inline.EmphasisLeavesSpell | client/components/text-editor/markdown.js:321-343 | The code and ref stages keep every character. |
| Inline.TextNodeRoundTrip | client/components/text-editor/markdown.js:321-343 | The code, ref and emphasis stages shorten the text by exactly the characters the emphasis scan drops from the leaves it is handed. They keep the text exactly when it drops none. |
| Inline.TextNoStarNoLoss | client/components/text-editor/markdown.js:321-343 | Text without `*` loses nothing in those stages. |
| Inline.PlainTextNode | client/components/text-editor/markdown.js:321-343 | Text without backticks or braces goes straight to the emphasis scan. |
| Inline.TextNodeDropsStar | client/components/text-editor/markdown.js:321-343 | The dropped `*` of `"** *x***"` survives the whole text-node stage. |
| Inline.InlineRoundTrip | client/components/text-editor/markdown.js:170-179 | The links, code, refs and emphasis pipeline shortens the text by exactly the characters the emphasis scan drops. It keeps the text exactly when it drops none. |
| Inline.InlineNoStarNoLoss | client/components/text-editor/markdown.js:170-179 | Text without `*` loses nothing in the pipeline. |
| Inline.LinkLeavesUntouched | client/components/text-editor/markdown.js:170-179 | A link's `link-text` and `link-url` leaves are not rescanned. Only the text around them goes through the later stages. |
| Inline.ParseInline | client/components/text-editor/markdown.js:170-179 | Returns the pipeline's nodes and records the text's links in `meta.links`. |
| LineParser.SpaceNode | client/components/text-editor/markdown.js:445-450 | A `space` leaf of exactly `amt` spaces. |
| LineParser.LeadingSpacesSound | client/components/text-editor/markdown.js:467 | The leading count covers exactly the run of spaces that starts the line. |
| LineParser.CutHeadParts | client/components/text-editor/markdown.js:467-479 | The cuts split the line into: its leading spaces, a block marker with the one whitespace character after it (if any), a todo marker with the space after it (if any), then the body. |
| LineParser.LineKindNotEmpty | client/components/text-editor/markdown.js:459-494 | Only an empty line gives an `empty` node. |
| LineParser.LineRoundTrip | client/components/text-editor/markdown.js:459-494 | The tree spells as many characters as the line, less the characters the emphasis scan drops from its body. It spells the line back exactly when none is dropped and the block marker, if any, is followed by a space and not by another whitespace character. |
| LineParser.LineNoStarNoLoss | client/components/text-editor/markdown.js:459-494 | A line without `*` loses nothing. |
| LineParser.TabAfterNumber | client/components/text-editor/markdown.js:476-489 | A numbered item with a tab after its dot never round-trips, whatever follows: the tab becomes a `" "` leaf. |
| LineParser.LineNoLonger | client/components/text-editor/markdown.js:459-494 | A line's tree never spells more characters than the line. |
| LineParser.HeadingLine | client/components/text-editor/markdown.js:459-494 | `"## text"` gives an `h2` node: the marker, one space leaf, then the inline nodes of `text`. |
| LineParser.TodoParagraph | client/components/text-editor/markdown.js:477-486 | `"[x] text"` gives a `paragraph` wrapping a `todo-done` node, whose children are the marker, one space leaf, then the inline nodes of `text`. |
| LineParser.IndentedLine | client/components/text-editor/markdown.js:467-471 | A line indented by n spaces starts with a space leaf of n spaces. |
| LineParser.CutLine | client/components/text-editor/markdown.js:467-479 | The slicing code computes the cuts above. |
| LineParser.ParseLine | client/components/text-editor/markdown.js:459-494 | Returns the line's tree and records the links of its body in `meta.links`. |
| Render.RenderRoundTrip | client/components/text-editor/markdown.js:501-510 | Rendering loses nothing: the tree can be read back from the display. |
| Render.RenderShowsText | client/components/text-editor/markdown.js:501-510 | The text a rendered node shows is the text its leaves spell out. |
| Render.LineShows | client/components/text-editor/markdown.js:526-538 | A line container shows `" "` for an empty line, and otherwise the text of its node. |
| Render.LineShowsContent | client/components/text-editor/markdown.js:526-538 | An empty line's container shows `" "`. Any other line's container shows the line exactly when no character is dropped and the marker, if any, has a plain space after it. |
| Render.HighlightShowsLine | client/components/text-editor/markdown.js:519-541 | The k-th container shows `" "` for an empty k-th line. For any other line it shows the line exactly when no character is dropped from that line and its marker, if any, has a plain space after it. Nothing is asked of the other lines. |
| Render.EmptyLineShowsSpace | client/components/text-editor/markdown.js:529-533 | An empty line renders as a `line` container holding `" "`. |
| Render.ParseLines | client/components/text-editor/markdown.js:521-522 | One node per line, in order, with the links of every line recorded in order. |
| Render.DisplayNodes | client/components/text-editor/markdown.js:524-538 | One `line` container per node, in order. |
| Render.Highlight | client/components/text-editor/markdown.js:519-541 | Exactly one `line` container per `parseText` line. `meta.links` collects every line's links. |
| Dates.DateShape | public/js/dates.js:20-22 | The test is true exactly when the string has length 10, has `-` at indices 4 and 7, and has digits everywhere else. |
| Dates.AnchoredMatchIff | public/js/dates.js:21 | An anchored pattern of single-character tokens matches exactly the strings of its length that match token by token. |
| Dates.Anchored | public/js/dates.js:21 | Any extra prefix or suffix makes a matching string fail. |
| Dates.NoRangeCheck | public/js/dates.js:21 | There is no range check: `"2024-13-45"` is accepted. |
| Dates.NatStringValue | public/js/dates.js:11-12 | `toString(10)` writes the decimal digits of the number. |
| Dates.PaddedTwoDigits | public/js/dates.js:11-12 | A number below 100, padded to width 2 with `"0"`, is two digits with that value. |
| Dates.FormattedDateMatches | public/js/dates.js:8-22 | For a 4-digit year, month index 0 to 11 and day 1 to 31, the formatted date passes the test. Its fields read back as the year, the month index plus one, and the day. |
| Dates.ShortYearFails | public/js/dates.js:8-22 | A year below 1000 yields an id that fails the test. |
| JsStrings.TrimSound | server/files.ts:192 | `trim` removes exactly the leading and trailing whitespace. |
| JsStrings.JoinSplit | server/files.ts:182-200 | Splitting on `"\n"` and joining with `"\n"` gives the text back. |
| JsStrings.SplitJoin | server/files.ts:182-200 | Splitting newline-free lines that were joined with `"\n"` gives those lines back. |
| NoteFormat.NoteToString | server/files.ts:170-178 | Writes `id:`, `title:` (only for a truthy title), `created_at:`, `updated_at:`, `---`, then the content, joined by newlines. |
| NoteFormat.NoteTextLines | server/files.ts:170-178 | When no header value has a newline, the written file splits into the header lines, `---`, then the lines of the content. |
| NoteFormat.ReadHeaderStops | server/files.ts:186-193 | The header loop stops after the first line starting with `---`. Content starts at 0 when there is no such line. |
| NoteFormat.SplitFieldOnePiece | server/files.ts:191 | `split(": ")` gives one piece exactly when the line has no `": "`, and that piece is the whole line. |
| NoteFormat.StringToNote | server/files.ts:181-202 | The loop and the defaults compute the reader's result, or its `TypeError`. |
| NoteFormat.ReadNoteText | server/files.ts:181-202 | For every content, and header values without a newline, the read note has the written content. Each header value comes back cut at its first `": "` and trimmed. |
| NoteFormat.NoteRoundTrip | server/files.ts:181-202 | `id`, `created_at` and `updated_at` round-trip when they hold no newline and no `": "` and have no surrounding whitespace. A missing or empty title comes back as `""`. |
| NoteFormat.SecondSeparatorCuts | server/files.ts:191-192 | A value that holds `": "` is cut at it. |
| NoteFormat.BareLineThrows | server/files.ts:191-192 | A header line without `": "` before `---` makes the reader throw. |
| NoteFormat.NoSeparatorWholeText | server/files.ts:184-200 | Without a `---` line, the whole text is the content. |
| NoteFormat.DefaultsWithoutHeader | server/files.ts:195-201 | With no header the defaults are id `"unknown"`, title `""`, and the current time for both timestamps. |
| NoteFormat.ToLower | server/files.ts:210 | Lowercasing an ASCII capital gives a lowercase letter. |
| NoteFormat.CleanName | server/files.ts:205-220 | The loop computes the slug. |
| NoteFormat.CleanStepAdds | server/files.ts:207-218 | One turn adds: the lowercased capital; the lowercase letter; for a space not at the last index and not after a `-`, a `-`; or nothing. |
| NoteFormat.CleanedShape | server/files.ts:205-220 | The slug holds only `a`–`z` and `-`. It has no `--`, is no longer than the name, and has the name's letters, lowercased, in order. |
| NoteFormat.SpacelessCleaned | server/files.ts:205-220 | A name without spaces becomes its lowercased letters. |
| NoteFormat.CleanSpaces | server/files.ts:215-217 | Examples: `"My note "` becomes `"my-note"`; two spaces give one `-`; a space at the last index gives nothing. |
| NoteFormat.CleanNotIdempotent | server/files.ts:205-220 | A slug can change when cleaned again: `"a-b"` becomes `"ab"`. |
| NoteStore.RoutesAgree | server/files.ts:34-39 | `idToPath` routes by date shape; `getById`, `update` and `delete` route by the `n-` prefix. The two agree exactly for ids that are dates or start with `n-`. `src/files.ts:36-41` routes the same way. |
| NoteStore.TodayIsDaily | server/files.ts:67-69 | Today's id never starts with `n-`, so an untitled note is found in the daily directory. |
| NoteStore.TodaySafe | server/files.ts:67-69 | Today's id is digits and dashes, so it survives the header format. |
| NoteStore.CreateContent | server/files.ts:71-85 | A titled note gets its title and the fresh id; an untitled one gets today's id. The template replaces the content only when there is no title and the content is explicitly `""`. An absent content stays `""`. Both timestamps are the clock's. |
| NoteStore.CreateThenGet | server/files.ts:66-93 | The created note is written where `getById` looks for it, and reading it back returns the note with `""` for a missing title. |
| NoteStore.UpdateThenGet | server/files.ts:144-157 | An update writes only the note's own file. The fields of `updates` override the stored ones. `updated_at` is always the fresh time. Reading back returns the updated note. |
| NoteStore.UpdateMissing | server/files.ts:144-146 | Updating a missing note returns `undefined` and writes nothing. |
| NoteStore.DeleteThenGet | server/files.ts:159-166 | `delete` reports whether the note existed, removes only its file, and after it `getById` finds nothing. |
| NoteStore.IndexOf | server/files.ts:113 | `indexOf` gives the first position of the character, or -1 when it is absent. |
| NoteStore.FileIdOfNote | server/files.ts:113 | The id read from a note's file name is the note's id, when the id has no `.`. |
| NoteStore.FileIdWithoutDot | server/files.ts:113 | A name with no `.` loses its last character (`slice(0, -1)`): `"README"` gives `"READM"`. |
| NoteStore.ListedHiddenAndNote | server/files.ts:111-113 | Names starting with `.` are skipped; a note's file gives its id. |
| NoteStore.LoadOne | server/files.ts:95-108 | Loading a written note returns it as the reader reads it back. |
| NoteStore.AllInDirBound | server/files.ts:110-124 | The listing has at most one summary per listed name. |
| NoteStore.LoadAllAppend | server/files.ts:112-115 | Loading two runs of paths gives the first failure in list order, or the notes of each run in turn. |
| NoteStore.PresentAppend | server/files.ts:117-118 | The `undefined` filter keeps order. |
| NoteStore.ListingAppend | server/files.ts:110-124 | The listing of two runs of names is the first failure, or the summaries of each run in turn. |
| NoteStore.ListingOne | server/files.ts:111-123 | One name gives nothing when it is hidden or has no file, the failure when its file does not parse, and otherwise its note's title and id. |
| NoteStore.ListedNoteAppears | server/files.ts:110-124 | Every readable note among the listed names is listed. Its summary sits between those of the names before it and those of the names after it. |
| NoteStore.ListingFails | server/files.ts:110-124 | The listing fails exactly when the file of some listed name that is not hidden fails to parse. |
| NoteStore.AllInDirFindsNote | server/files.ts:110-124 | A directory holding a hidden file and a note lists exactly that note's title and id. |
| NoteStore.Files.constructor | server/files.ts:29-32 | The store starts with empty directory names over the given disk. |
| NoteStore.Files.Init | server/files.ts:51-59 | `init` sets both directories and leaves the files alone. |
| NoteStore.Files.Create | server/files.ts:66-93 | Returns the created note and writes it when `write` is true. |
| NoteStore.Files.GetById | server/files.ts:136-142 | Loads from the directory the `n-` prefix picks. |
| NoteStore.Files.Update | server/files.ts:144-157 | The new disk and result are those of the update. A thrown error leaves the disk unchanged. |
| NoteStore.Files.Delete | server/files.ts:159-166 | The new disk and result are those of the delete. A thrown error leaves the disk unchanged. |
| NoteStore.Files.AllInDir | server/files.ts:110-124 | Returns the listing of the named files. |
| NoteStoreSrc.InitDirs | src/files.ts:48-55 | The two directories are `daily` and `named` under the root, and they differ. |
| NoteStoreSrc.PartialNote.constructor | src/files.ts:64 | The argument object holds the given fields. |
| NoteStoreSrc.Create | src/files.ts:64-89 | Returns the note built from the argument's old fields. Writes the template into the argument's `content` when it has no title and a falsy content. Writes the file when `write` is true. |
| NoteStoreSrc.TemplateNeverReturned | src/files.ts:69-81 | The returned content is always `note.content ?? ""`. For `{content: ""}` it is `""`, where `server/files.ts` returns the template. |
| NoteStoreSrc.LoadMissingOverwritesToday | src/files.ts:97-102 | Loading a missing file creates and writes an empty daily note for today. That overwrites any other content of today's note. |
| NoteStoreSrc.UpdateMissingWrites | src/files.ts:142-155 | Updating a missing note does not return `undefined`. It merges the updates into a fresh daily note and writes it under the requested id. |
| NoteStoreSrc.DeleteMissingThrows | src/files.ts:157-164 | Deleting a missing note throws, because its file is still absent when it is unlinked. Today's daily note is written first. |
| NoteStoreSrc.DeleteStored | src/files.ts:157-164 | Deleting a stored, readable note removes only its file and returns true. |
| NoteStoreSrc.LoadAll | src/files.ts:112-117 | One loaded note per path. |
| NoteStoreSrc.LoadAllDisk | src/files.ts:97-117 | Every load runs. Today's empty daily note is written exactly when some path has no file, even when another load fails. Nothing else changes. |
| NoteStoreSrc.LoadAllAppend | src/files.ts:112-117 | Loading two runs of paths is loading the first, then the second on the files the first left. The result is the first failure in list order, or the notes of both runs. |
| NoteStoreSrc.LoadAllAt | src/files.ts:112-117 | The k-th note is what `load` gives for the k-th path, on the files the loads before it left. |
| NoteStoreSrc.ListingAt | src/files.ts:112-124 | The k-th summary is the title and id of the note loaded from the k-th listed path. |
| NoteStoreSrc.ListedStoredNote | src/files.ts:97-124 | A stored file other than today's note is listed, at its place, by the title and id its header gives. |
| NoteStoreSrc.ListedMissingNote | src/files.ts:97-124 | A listed name with no file (other than today's) is listed as today's empty daily note: no title, today's id. |
| NoteStoreSrc.ListingDisk | src/files.ts:97-124 | Listing writes today's empty daily note exactly when a listed name has no file, whether or not the listing fails. |
| NoteStoreSrc.ListingKeepsEveryName | src/files.ts:112-124 | Nothing is filtered out: every listed name that is not hidden yields a summary. |

## Left out

- DOM construction (`span`, `innerText`, `classList`, `append`) is modelled as the `Display` datatype: a class name with either text or children.
- `nextNonSpaceChar` and `fillString` come from `string-tools.js`, which is not part of this model. The model takes them to mean "the number of leading `' '` characters" and "n copies of the string".
- `client/js/dates.js`, which `server/files.ts` imports, is not part of this model. It is taken to be the same as `public/js/dates.js`.
- Clocks, randomness and I/O are parameters:
  - `new Date()` is a `Clock`: an ISO timestamp plus the local year, month index and day that `getFormattedDate` reads from it.
  - Both `new Date()` calls in `stringToNote` are one `now` value.
  - `randomId()` is a `freshId` parameter.
- The filesystem is a map from (directory, file name) paths to texts. The following are not modelled:
  - `path.join` normalisation;
  - `mkdir`;
  - `Bun.file`;
  - file modes;
  - the sequencing of async operations. `Promise.all` is modelled as running every load in list order, each seeing the files the earlier ones wrote. Its failure is the first in list order, where `Promise.all` rejects with the first in time.
- NoteStore.LoadOne: the `mtime` adjustment of `updated_at` in `load` is not modelled, because file times are not in the model. A loaded note keeps its written `updated_at`.
- NoteStore.Listing: the sort of `allInDir` by creation or update time is not modelled, because it compares parsed `Date`s. The lemmas state the listing in directory order.
- NoteStore.AllInDirFindsNote: requires a non-empty id. An empty id has the file name `".md"`, which the dot-file filter skips.
- An object spread with a key explicitly set to `undefined` is not modelled: a `Patch` field is either absent or a string.
- `prettyPrintDate` (locale and time-zone formatting) and `allDaily`/`allNamed` (one-line calls of `allInDir`) are left out.
- Also left out:
  - the HTTP servers;
  - the fetch and DOM glue;
  - `dom-utils`, `palette` and the swatch viewer;
  - the superseded `public/components/text-editor/markdown.js` stub.
- Strings are sequences of Dafny characters. No encoding or surrogate pairs are modelled; JavaScript indexes by UTF-16 code unit, so the two agree on text in the Basic Multilingual Plane.
- Four behaviours of the code that a reader might not expect are modelled as written:
  - `parseText` keeps a trailing `\n` in the last line's content (`LineSplitter.TrailingNewlineKept`).
  - `parseBoldItalic` can drop a `*` when bold and italic overlap, as the TODO at `client/components/text-editor/markdown.js:257` admits (`EmphasisScanner.OverlapDropsStar`). The round-trip lemmas count exactly the characters dropped.
  - `parseLine` always writes one space after a block marker, whatever whitespace followed it (`LineParser.TabAfterNumber`).
  - `parseLinks` does not reset its `space` flag when an unlinked `[…]` is folded back into text (`LinkScanner.UnlinkedBracketIsSpace`).

## Findings

| source | as written | input that shows it | evidently intended | confidence | as-written member | corrected member |
|---|---|---|---|---|---|---|
| src/files.ts:80 | An untitled note with a falsy content gets the template written into the argument's `content`, not into the returned note | `create({content: ""})` returns and writes a note whose content is `""` | the returned note gets the template, as `server/files.ts:82-84` does | high (not executed) | NoteStoreSrc.TemplateNeverReturned | NoteStore.CreateContent |
| src/files.ts:100-102 | A missing file makes `load` call `create({})`, which writes an empty daily note for today | `getById("n-gone")` overwrites today's non-empty daily note with an empty one | a missing file yields `undefined`, as `server/files.ts:98-100` does | medium (not executed) | NoteStoreSrc.LoadMissingOverwritesToday | NoteStore.UpdateMissing |
