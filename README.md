# kobo-highlight-to-obsidian, modelled in Dafny

kobo-highlight-to-obsidian turns a plain-text export of e-book highlights
into a set of Markdown notes for an Obsidian vault. The first line of the
export names the book. A line whose '#' characters mark it as a heading opens
a chapter, nested by its number of '#'s. Paragraphs of other lines, separated
by blank lines, are the highlights.

`Convert` parses the export into an outline. It then writes:
- one book note, listing the chapters;
- one note per top-level chapter, listing its highlights, nested under
  sub-chapter headings where there are any;
- one note per highlight;
- optionally, a mind-map note.

Every path and every front-matter value is a template with placeholders
(`{book_name}`, `{today_date}`, `{chapter_name}`, `{highlight_text}`,
`{highlight_text_sl}`, `{highlight_number}`). `Book` is a second parser of
the same format, which builds a typed tree of book, chapter and highlight
nodes.

The model has eight modules:

- `Text` (text.dfy): the JavaScript string built-ins the code relies on.
  These are `trim` with ECMAScript's white-space set, counting and removing a
  character, literal global `replace` and `test`, `join`, `repeat`, and
  number formatting with `padStart`.
- `Types` (types.dfy): the configuration, the template context, the
  errors thrown, the keyed outline, and `obj[key] = value` on an
  insertion-ordered object.
- `Template` (template.dfy): `getValueAfterFormat`, as a chain of guarded
  substitutions in the source's order.
- `FrontMatter` (frontmatter.dfy): `getTagContent`.
- `Outline` (outline.dfy): `getHighlights`, as mutually recursive functions
  over the classified lines, with its cursor made explicit.
- `Render` (render.dfy): what `generateFiles`, `generateChapter`,
  `getChapterList`, `generateMindMap`, `getChapterTree` and `startProcess`
  produce. Each note is a `Doc(path, content)`, and the first thrown error
  is an `Err`.
- `Convert` (convert.dfy): the `Convert` class. Its loops and recursive
  methods update the cursor and the book name in place, and each is proved
  equal to its `Outline` or `Render` function.
- `Book` (book.dfy): the `Book` class, its `initChapter` parser proved equal
  to functions over the classified lines, and `getChapters` and
  `getChaptersOnly` with the chapter-skeleton properties.

The model follows the code where the code's behaviour is not what a reader
of the project's description would expect:

- A paragraph is recorded only when a blank line ends it. Text pending at a
  heading, or at the end of the input, is dropped, both by `getHighlights`
  and by `initChapter` (`Outline.ScopeShape`, `Book.OpenParas`). A chapter's
  last paragraph therefore survives only if a blank line follows it.
- A scope of `getHighlights` returns its paragraphs when it has any. Then
  the sub-chapters it read are discarded (`Outline.ScopeShape`).
- The mind map names every link after its top-level chapter. It numbers the
  highlights from 1 in each highlight list, while the chapter notes number
  them across the whole chapter (`Render.NumberingDiffers`, and on the
  written text `Render.NumberingDiffersRendered`).
- When a blank line closes a paragraph between the book name and the first
  heading, the parse is that list of paragraphs rather than a map of
  chapters, and every chapter is dropped (`Outline.ParseShape`). Whether
  the input has headings at all does not matter: without a closed
  paragraph it is a map, empty when there is no heading. On a list root
  `generateFiles` lists the indices "0", "1", ... as chapters and recurses
  without end on the first one. This is modelled as the error
  `CallStackExceeded` (`Render.RootListRun`).
- In `initChapter`, `cache` is not cleared when the node is created. With a
  blank first line, text read before the first title joins that chapter's
  first highlight (`Book.LeadingTextJoinsFirstHighlight`).

## Model

| member | source | states |
|---|---|---|
| Text.TrimStart | src/convert.ts:89 | the result is a suffix of the input, every dropped character is white space, and the result does not start with white space |
| Text.TrimEnd | src/convert.ts:89 | the result is a prefix of the input, every dropped character is white space, and the result does not end with white space |
| Text.TrimShape | src/convert.ts:108 | `trim` keeps one contiguous piece of the input, starting after the leading white space, with no white space at either end |
| Text.BlankIff | src/convert.ts:89 | `line.trim() === ''` holds exactly when every character of the line is white space |
| Text.RemoveChar | src/convert.ts:108 | `replace(/#/g, '')` leaves no '#' and shortens the line by exactly its number of '#'s |
| Text.RemoveCharSplit | src/convert.ts:108 | removal works piece by piece: what is kept of `a + b` is what is kept of `a` followed by what is kept of `b`, and of one character either nothing (the removed one) or that character; so every other character is kept, in order |
| Text.CountCharZero | src/convert.ts:96 | `line.match(/#/g)?.length \|\| 0` is 0 exactly when the line holds no '#' |
| Text.ContainsIff | src/convert.ts:25-26 | the `test` of a literal pattern holds exactly when the pattern occurs at some position |
| Text.ReplaceAllAbsent | src/convert.ts:23 | a global replace of a pattern that does not occur leaves the text unchanged |
| Text.ReplaceAllSelf | src/convert.ts:23 | replacing a pattern by itself leaves the text unchanged |
| Text.ReplaceAllLength | src/convert.ts:23 | each non-overlapping occurrence found trades the pattern's length for the replacement's |
| Text.OccurrencesPositive | src/convert.ts:26 | the replace finds an occurrence exactly when `test` holds |
| Text.SingleLine | src/convert.ts:52 | `replace(/\n/g, ' ')` keeps the length and turns exactly the newlines into spaces |
| Text.JoinSnoc | src/convert.ts:99-100 | appending a line to a '\n'-joined group appends the separator and the line |
| Text.Repeat | src/convert.ts:208 | `s.repeat(n)` is `n` times as long as `s` |
| Text.RepeatCopies | src/convert.ts:208 | `s.repeat(n)` is `n` copies of `s`: its character `i` is character `i % \|s\|` of `s`, so `'#'.repeat(layer)` is `layer` '#'s |
| Text.NatToString | src/convert.ts:59 | `toString` of a whole number gives decimal digits with no leading zero |
| Text.NatToStringRoundTrip | src/convert.ts:59 | reading the digits back gives the number |
| Text.Pad2TwoDigits | src/convert.ts:31 | `padStart(2, '0')` of a month or day gives exactly two digits that read back as it |
| Types.Keys | src/convert.ts:146 | `Object.keys` has one key per entry, in insertion order |
| Types.Put | src/convert.ts:110 | `highLightResult[title] = highlights` adds at most one entry |
| Types.PutKeys | src/convert.ts:110 | assignment keeps the key order and appends a key only when it is new |
| Types.PutEntries | src/convert.ts:110 | entries under other keys stay where they were, and the new pair is present |
| Types.PutDistinct | src/convert.ts:110 | keys stay distinct |
| Types.PutNew | src/convert.ts:110 | a new key goes after all existing entries |
| Types.PutFrom | src/convert.ts:110 | after assignment every entry was there before or is the new pair |
| Types.PutKeeps | src/convert.ts:110 | an entry under another key survives assignment |
| Template.TagAlone | src/convert.ts:23-59 | one placeholder never matches inside another, so replacing one leaves the other intact |
| Template.ResolveNoPlaceholder | src/convert.ts:16-63 | a template without placeholders comes back unchanged, whatever the context |
| Template.ResolveTotal | src/convert.ts:37-58 | with every context field truthy, resolution never throws |
| Template.ChapterNameError | src/convert.ts:35-39 | "chapter_name is required" is thrown exactly when `{chapter_name}` is still present after the book name and date and the chapter name is falsy |
| Template.HighlightTextError | src/convert.ts:41-54 | "highlight_text is required" is thrown exactly when the chapter step passed, the text is falsy, and either text placeholder is present |
| Template.HighlightNumberError | src/convert.ts:56-60 | "highlight_number is required" is thrown exactly when the text steps passed, the number is missing or 0, and `{highlight_number}` is present |
| Template.ResolveErrors | src/convert.ts:16-63 | resolution throws only for want of a context field |
| Template.ResolveWithoutContext | src/convert.ts:16-63 | with an empty format only the book name and date are filled in; it fails exactly when a context placeholder remains |
| Template.ResolveExample | src/convert.ts:16-63 | `{chapter_name}-{highlight_number}` with chapter "Intro" and number 3 gives "Intro-3" |
| Template.ResolveMissingText | src/convert.ts:41-45 | `{highlight_text}` without a text throws "highlight_text is required" |
| Template.BookNameSubstitutedFirst | src/convert.ts:23-39 | a book name that holds `{chapter_name}` is itself substituted by the later chapter step |
| Template.ChapterNameNotRescanned | src/convert.ts:23-39 | a chapter name that holds `{book_name}` is left as it is |
| Template.SingleLineText | src/convert.ts:47-54 | `{highlight_text_sl}` receives the text with no newline, the same length, and every other character unchanged |
| Template.DateShape | src/convert.ts:25-33 | `{today_date}` becomes year, '-', two-digit month, '-', two-digit day, which read back as the date |
| FrontMatter.TagContentDelimited | src/convert.ts:116-133 | the block opens and closes with `---`; with no property map, or an empty one, it is exactly the two delimiter lines |
| FrontMatter.ItemLinesStep | src/convert.ts:123-125 | each list item appends its `  - item` line, or its failure ends the list |
| FrontMatter.EntriesStep | src/convert.ts:119-129 | each key appends its text, or its failure ends the block |
| FrontMatter.EntriesAppend | src/convert.ts:119-129 | keys render in map order: the block of `p + q` is the block of `p` followed by that of `q`, and the first failure wins |
| FrontMatter.EntriesFailFirst | src/convert.ts:119-129 | the block fails exactly when some key's value fails, and then with the first such key's error |
| FrontMatter.JoinAllFailFirst | src/convert.ts:119-129 | a left-to-right join fails exactly when some element fails, and then with the first failing element's error |
| FrontMatter.LiteralItems | src/convert.ts:121-125 | a list without placeholders is copied item by item as `  - item` lines |
| FrontMatter.LiteralEntry | src/convert.ts:121-128 | a key without placeholders renders as `key: value`, or as `key:` over its item lines |
| FrontMatter.TagContentErrors | src/convert.ts:116-133 | the front matter fails only for want of template context |
| FrontMatter.EntriesErrors | src/convert.ts:119-129 | the entries fail only for want of template context |
| FrontMatter.ItemLinesErrors | src/convert.ts:123-125 | list items fail only for want of template context |
| Outline.Loop | src/convert.ts:78-111 | the loop never moves the cursor back or past the end |
| Outline.Scope | src/convert.ts:65-114 | a call of `getHighlights` leaves the cursor between its start and the end |
| Outline.LoopStop | src/convert.ts:106 | the loop stops only at the end or on a heading of at most `layer` '#'s |
| Outline.ScopeStop | src/convert.ts:106 | a call stops only at the end or on a heading of at most `layer` '#'s, left for its caller |
| Outline.ParseReadsAll | src/convert.ts:300 | the outermost call reads the whole input |
| Outline.JoinTextEmpty | src/convert.ts:90 | pending text is falsy only when no line is pending, and it holds no '#' |
| Outline.ParasAtBlank | src/convert.ts:89-94 | a blank line closes the pending group as one paragraph |
| Outline.TextRun | src/convert.ts:78-111 | across lines without a heading the loop records exactly the paragraphs a blank line closes, and carries the rest as pending text |
| Outline.AfterHeading | src/convert.ts:105-113 | once a call stands on a heading no paragraph is added: it returns its paragraphs, or a map keeping its earlier chapters first |
| Outline.AfterDeeperHeading | src/convert.ts:105-111 | a deeper heading still leaves the call returning its paragraphs, or else a map that keeps its earlier chapters first and has the heading's title among its keys |
| Outline.ScopeShape | src/convert.ts:65-114 | a call returns exactly the paragraphs closed before its first heading when there are any, and drops the sub-chapters; otherwise it returns a map keyed first by that heading's title |
| Outline.FirstChapterKey | src/convert.ts:107-110 | a call with no paragraph that meets a deeper heading keys its first entry by that title |
| Outline.DeeperHeadingEntry | src/convert.ts:106-110 | a deeper heading met by a call without paragraphs is consumed: its title is a key of the returned map, and the value stored under it is what the nested call for it returned, unless a later heading of the call carries the same title and overwrites it |
| Outline.LoopEntries | src/convert.ts:77-111 | every entry of the map the loop returns was there when it started, or is the title of a deeper heading it met over what the nested call for that heading returned |
| Outline.ScopeEntries | src/convert.ts:65-114 | every chapter of a map a call returns is a deeper heading's title over the nested call's result for that heading |
| Outline.LoopKeeps | src/convert.ts:110 | an entry stays in the loop's map while no heading the loop reaches carries its key again |
| Outline.ParseShape | src/convert.ts:65-114 | the parse is the paragraphs after the book name and before the first heading when there are any, else a map |
| Outline.ClassifyGood | src/convert.ts:96-108 | highlight text is non-empty and '#'-free; a heading has a positive layer and a '#'-free title |
| Outline.PutGood | src/convert.ts:110 | storing a well-formed sub-outline under a '#'-free title keeps the map well formed |
| Outline.FinishWellFormed | src/convert.ts:113 | the returned value is well formed when its parts are |
| Outline.LoopWellFormed | src/convert.ts:78-113 | every outline the loop returns is well formed |
| Outline.ScopeWellFormed | src/convert.ts:65-114 | every outline a call returns is well formed |
| Outline.ParseWellFormed | src/convert.ts:65-114 | highlight lists are non-empty with non-empty '#'-free texts, and map keys are distinct and '#'-free |
| Render.ChapterLinks | src/convert.ts:146-148 | one `- [[key]]` line per top-level chapter, in key order |
| Render.NumberEachOk | src/convert.ts:175-184 | numbering a list succeeds exactly when each numbered call does |
| Render.NumberEachValues | src/convert.ts:175-184 | one result per item, the j-th numbered `idx + j + 1` |
| Render.LinkListOk | src/convert.ts:175-184 | a highlight list renders exactly when each of its links does |
| Render.LinkListNumbered | src/convert.ts:175-184 | one link per highlight, the j-th numbered `idx + j + 1` |
| Render.ChapterListCount | src/convert.ts:192-211 | the shared counter advances by one per highlight, and the highlights pushed are the outline's in traversal order |
| Render.SectionsCount | src/convert.ts:205-209 | the same for the `for (const key in chapter)` loop |
| Render.ChapterListLinks | src/convert.ts:192-211 | the chapter listing fails exactly when the link of one of the chapter's highlights, in traversal order, fails to resolve; what the links say and their numbers are stated by `Render.SectionsShape` and `Render.LinkListNumbered` |
| Render.SectionsLinks | src/convert.ts:205-209 | the loop over sub-chapters fails exactly when the link of one of their highlights fails to resolve |
| Render.SectionsLength | src/convert.ts:205-210 | the listing has one section per sub-chapter |
| Render.SectionLine | src/convert.ts:205-209 | section j is sub-chapter j's heading over its own listing |
| Render.SectionsShape | src/convert.ts:205-210 | each section is its sub-chapter's heading over its listing, numbered after every highlight of the sub-chapters before it |
| Render.Numbered | src/convert.ts:198-201 | highlights are numbered consecutively from `idx + 1` |
| Render.TreeLinks | src/convert.ts:264-291 | the mind map fails exactly when one of its links fails |
| Render.BranchesLinks | src/convert.ts:285-290 | the same for the loop over sub-chapters |
| Render.Indent | src/convert.ts:274 | `'  '.repeat(layer - 1)` is exactly `2 * (layer - 1)` spaces |
| Render.TreeDrawn | src/convert.ts:264-291 | `getChapterTree` writes its bullets one per line in pre-order: a key line `- key`, then its value one level deeper under `chapterName \|\| key`; a highlight list is its links numbered from 1; each line indented two spaces per level; it fails exactly with the first bullet whose link fails |
| Render.BranchesDrawn | src/convert.ts:285-290 | the key loop writes, key by key, the key's line followed by its sub-tree |
| Render.LeavesDrawn | src/convert.ts:270-283 | a highlight list writes one indented link line per highlight, numbered consecutively, or fails with the first failing link |
| Render.DrawingTargets | src/convert.ts:264-291 | the links the mind map draws are, in order, exactly `Targets`: so `TargetsTexts`, `TargetsName` and `NumberingDiffers` hold of the written links |
| Render.DrawingFromTargets | src/convert.ts:285-290 | the same for the loop over keys |
| Render.MindMapDrawn | src/convert.ts:293-296 | a written mind map is its front matter, a newline, the drawn bullets of the whole outline from the first level, and a newline |
| Render.TargetsTexts | src/convert.ts:264-291 | the mind map links the same highlights as the chapter pass, in the same order; these are the links it draws (`Render.DrawingTargets`) |
| Render.TargetsName | src/convert.ts:288 | once a truthy chapter name is chosen it names every link drawn below it, so each link is named after its top-level chapter |
| Render.NumberingDiffers | src/convert.ts:273-279 | under chapter "A" with sub-chapters holding x and y, the chapter pass numbers y 2 and the mind map numbers it 1 |
| Render.NumberingDiffersRendered | src/convert.ts:192-291 | in the written text: the chapter note's second section links y numbered 2, while the mind map draws the chapter, each sub-chapter key one level in, and below each its link numbered 1, all named after the chapter |
| Render.HighlightDocsNumbered | src/convert.ts:218-240 | one note per highlight, the j-th numbered j + 1 and holding the highlight text under its front matter; the pass fails exactly when one cannot be named or tagged |
| Render.ChapterBodyHighlights | src/convert.ts:168-215 | the highlights a chapter note links to are the chapter's in traversal order, and the body fails exactly when one link fails |
| Render.LinkNamesFile | src/convert.ts:178-182 | the link numbered n targets the path of highlight note n without ".md" |
| Render.ChapterDocsShape | src/convert.ts:153-243 | a chapter gives its highlight notes in traversal order, numbered 1, 2, ..., then the chapter note; every link names its highlight's note |
| Render.ChapterFilesCount | src/convert.ts:244-246 | every chapter contributes one note per highlight plus its own note |
| Render.FilesShape | src/convert.ts:135-247 | the book note comes first and lists every top-level chapter, followed by one note per chapter and one per highlight |
| Render.LinkListErrors | src/convert.ts:175-184 | a link list fails only for want of template context |
| Render.TreeErrors | src/convert.ts:264-291 | the mind-map tree fails only for want of template context |
| Render.MindMapRequired | src/convert.ts:249-252 | "mindMapFolder is required" is thrown exactly when no truthy mind-map path is set; otherwise it can fail only for want of template context |
| Render.IndexKeys | src/convert.ts:146 | `Object.keys` of an array is "0", "1", ... |
| Render.RootListRun | src/convert.ts:192-211 | a root that is a non-empty list never completes |
| Convert.Convert.constructor | src/convert.ts:12-14 | a fresh converter has the configuration, an empty book name and the cursor at 0 |
| Convert.Convert.LineKindAt | src/convert.ts:89-108 | the loop body's tests read the line under the cursor as its classification |
| Convert.Convert.GetHighlights | src/convert.ts:65-114 | the returned outline and the new cursor are those of `Outline.Scope`; line 0 becomes the book name |
| Convert.Convert.GetTagContent | src/convert.ts:116-133 | the loop builds exactly `FrontMatter.TagContent` |
| Convert.Convert.GetItemLines | src/convert.ts:123-125 | the item loop builds exactly `FrontMatter.ItemLines` |
| Convert.Convert.GenerateIndex | src/convert.ts:137-150 | the book note is `Render.BookIndex` |
| Convert.Convert.GetChapterList | src/convert.ts:192-211 | the recursion with its shared counter gives `Render.ChapterList` |
| Convert.Convert.GetChapterBody | src/convert.ts:168-215 | the chapter note body is `Render.ChapterBody` |
| Convert.Convert.GenerateHighlight | src/convert.ts:219-239 | one highlight note is `Render.HighlightDoc` |
| Convert.Convert.GenerateHighlights | src/convert.ts:218-240 | the highlight loop gives `Render.HighlightDocs` numbered from 1 |
| Convert.Convert.GenerateChapter | src/convert.ts:153-243 | `generateChapter` gives `Render.ChapterDocs` |
| Convert.Convert.GenerateRootList | src/convert.ts:135-211 | a list root gives `Render.RootListRun` |
| Convert.Convert.GenerateChapters | src/convert.ts:244-246 | the `forEach` over chapters gives `Render.ChapterFiles` |
| Convert.Convert.GenerateFiles | src/convert.ts:135-247 | `generateFiles` gives `Render.GeneratedFiles` |
| Convert.Convert.GetChapterTree | src/convert.ts:264-291 | `getChapterTree` gives `Render.Tree`, the drawn bullets of `Render.TreeDrawn` |
| Convert.Convert.GenerateMindMap | src/convert.ts:249-297 | `generateMindMap` gives `Render.MindMap`: the missing-path error of `Render.MindMapRequired`, or the note of `Render.MindMapDrawn` |
| Convert.Convert.StartProcess | src/convert.ts:299-305 | parse, then the files, then the mind map when configured, as `Render.Run`; the first error aborts |
| Convert.Process | src/convert.ts:299-305 | a fresh converter produces exactly `Render.Run` on the parse of the whole input, with line 0 as the book name |
| Book.AddChild | src/book.ts:60 | `children.push` keeps the node's type and text and appends one child last |
| Book.HashRun | src/book.ts:40 | the leading run of '#' |
| Book.TitleIff | src/book.ts:40-41 | the title test is the regular expression `/^[#]+\s/`: one or more leading '#' followed by white space |
| Book.TitleDepth | src/book.ts:39-41 | a title's layer counts every '#' of the line, at least its leading run and at least 1 |
| Book.NotTitleUnlessLeading | src/book.ts:40-41 | a line not starting with '#' is never a title |
| Book.ClassifyGood | src/book.ts:27-48 | a non-blank line is not empty, and a title has layer at least 1 |
| Book.Seek | src/book.ts:24-53 | before its node exists a call advances the cursor |
| Book.Grow | src/book.ts:24-67 | the loop never moves the cursor back or past the end |
| Book.Open | src/book.ts:43-61 | a nested call reads at least its own title line |
| Book.Scope | src/book.ts:21-69 | a call of `initChapter` on a line advances the cursor |
| Book.GrowKeeps | src/book.ts:21-69 | a node keeps its type and text, and its children are only appended to |
| Book.OpenNode | src/book.ts:45-50 | the line a call starts on names its node: the book for line 0, a chapter otherwise |
| Book.SeekLater | src/book.ts:47 | a call starting past line 0 makes a chapter, if anything |
| Book.RootKind | src/book.ts:13-18 | the root is the book, named by the first line without '#'s and trimmed, exactly when the first line is not blank; otherwise it is a chapter or absent |
| Book.GrowStop | src/book.ts:56 | the loop stops only at the end or on a title of at most `layer` '#'s |
| Book.SeekStop | src/book.ts:56 | the same before the node exists |
| Book.ScopeStop | src/book.ts:56 | a call stops only at the end or on a title of at most `layer` '#'s, left for its caller |
| Book.ParseReadsAll | src/book.ts:18 | the constructor's call reads the whole input |
| Book.AddShaped | src/book.ts:28-60 | pushing a chapter or a non-empty highlight leaf keeps a node shaped |
| Book.GrowShaped | src/book.ts:24-67 | the loop keeps its node shaped |
| Book.OpenShaped | src/book.ts:43-61 | a nested call returns a shaped chapter |
| Book.SeekShaped | src/book.ts:21-69 | a call returns a shaped node |
| Book.ParseShaped | src/book.ts:21-69 | only the root is a book, and every highlight is a leaf with non-empty text |
| Book.LeadingTextJoinsFirstHighlight | src/book.ts:43-66 | with a blank first line, the text before the first title opens that chapter's first highlight |
| Book.JoinNonBlank | src/book.ts:28 | pending text is falsy only when no line is pending |
| Book.BlankGroup | src/book.ts:27-34 | a blank line turns the pending group into the node's next highlight |
| Book.TextRun | src/book.ts:24-67 | across lines without a title the node gets exactly the paragraphs a blank line closes, and the rest stays pending |
| Book.OpenParas | src/book.ts:21-69 | a call's node starts with one highlight per paragraph closed before the next title; text pending there is dropped; the next child is the nested call at that title when it is deeper |
| Book.OpenParasAtTitle | src/book.ts:55-61 | a title ends the call with its node, or its nested call's chapter becomes the next child |
| Book.Book.constructor | src/book.ts:13-19 | the book name is line 0 (absent for no lines), and `chapter` and the cursor are the parse of the whole input |
| Book.Book.KindAt | src/book.ts:25-41 | the loop body's tests read the line under the cursor as its classification |
| Book.Book.InitChapter | src/book.ts:21-69 | the node returned and the new cursor are those of `Scope` |
| Book.Book.GetChapters | src/book.ts:75-77 | the root's children, or none without a root |
| Book.Book.SelfGetChaptersOnly | src/book.ts:83-100 | only chapters are kept, in order, with their type and text; with -1 it is the whole chapter skeleton |
| Book.Book.GetChaptersOnly | src/book.ts:79-100 | the chapter skeleton of the root's children: whole for -1, cut `maxLayer` levels down and so at most `maxLayer + 1` deep for `maxLayer >= 0`, and only the top-level chapters with no children below -1 |
| Book.ChaptersOf | src/book.ts:89 | the filter keeps chapter nodes only |
| Book.ProjectKeeps | src/book.ts:88-99 | the projection keeps exactly the chapters, in order, with their type and text |
| Book.ProjectFull | src/book.ts:95-96 | with -1 the projection is the whole skeleton, from any layer |
| Book.ProjectBounded | src/book.ts:95-97 | with m >= 0 the projection is the skeleton cut `m - currLayer` levels down |
| Book.ProjectBelow | src/book.ts:95-97 | below -1 `currLayer < maxLayer` never holds, so only the top-level chapters are kept, each with no children |
| Book.PruneHeight | src/book.ts:95-97 | a forest cut below `depth` levels is at most `depth + 1` deep |
| Book.SkeletonChapters | src/book.ts:89 | the skeleton holds chapters only, at every level |

## Left out

- File system: reading the export (src/convert.ts:69-74) and creating directories and writing notes are left out. The input lines are a constructor parameter. Notes are returned as `Doc(path, content)` values in the order the code writes them, with the path not joined to `vault/` (`path.join` normalisation is not modelled).
- Render.Files: notes written before a later error are not returned. The code has already written them when it throws; the model returns only the error.
- The clock: `new Date()` is a constructor parameter `today`, a calendar date with month 1-12 and day 1-31.
- src/index.ts (loading and checking `config.json`) and `Book.printJson` (console output) are not part of this model.
- Regular expressions are modelled by what they do on these fixed patterns: the literal global `replace` and `test`, the '#' count, and `/^[#]+\s/`. No regular-expression engine is modelled.
- Template.Resolve: replacement strings are inserted literally. JavaScript's `$&`, `$1` and `$$` patterns in a book name or chapter name are not interpreted.
- `highlightNumber` is an integer, printed by `IntToString`. Other JavaScript number formats (fractions, exponents) are not modelled.
- Object key order is insertion order for every key. JavaScript puts integer-like keys ("1", "2") first; a chapter titled with digits only is therefore ordered differently from the code.
- Render.RootListRun: a root that is a list (a paragraph closed before the first heading) is modelled as the error `CallStackExceeded` after the book note's path and front matter and the first chapter's path and front matter resolve. The notes the code writes before the stack overflows are not modelled.
- Book.Book.InitChapter: the tree is built as values. The code pushes children in place onto a node that no one else references until the call returns, so no aliasing is lost. `undefined` (no node at all) is `None`, and `bookName` of an empty input is `None`.
- Book.OpenParasAtTitle: the nesting of `initChapter` is stated one title at a time: a title with more '#'s than the open call's layer becomes that call's next child, and one with at most as many ends the call (`Book.ScopeStop`). No lemma states it for the whole tree, namely that every chapter with d '#'s is a child of the nearest earlier title with fewer '#'s and that siblings appear in line order. A reader must chain the single steps to get there.
- Types.Put: a chapter titled `__proto__` is stored as an ordinary key. In the code, the assignment to `highLightResult` (src/convert.ts:110, on the plain object of src/convert.ts:65) replaces that object's prototype instead, so the chapter is missing from `Object.keys` and from the notes.
