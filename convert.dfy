/**
 * The `Convert` class of src/convert.ts: the state one conversion run
 * threads through its helpers (the book name read from line 0 and the
 * shared line cursor) and the loops that walk the outline. Every method is
 * proved equal to the functions of `Outline`, `FrontMatter` and `Render`;
 * the documents a method would write are returned instead, in write order.
 */
module Convert {
  import opened Text
  import opened Types
  import opened Template
  import opened FrontMatter
  import opened Render
  import Outline

  /** The listing `r` behind the sub-chapters already listed. */
  function Extend(done: Listing, r: Result<Listing, Error>): Result<Listing, Error> {
    if r.Err? then r else Ok(Listing(done.lines + r.value.lines, r.value.next, done.collected + r.value.collected))
  }

  /** The text `r` behind the text already produced. */
  function ThenText(done: string, r: Result<string, Error>): Result<string, Error> {
    if r.Err? then r else Ok(done + r.value)
  }

  class Convert {
    const config: Config
    /** The input file's lines (`split('\n')` of its contents). */
    const lines: seq<string>
    /** The date `{today_date}` stands for. */
    const today: Date
    var bookName: string
    var currLineIndex: nat
    /** How the loop of `getHighlights` reads each line. */
    ghost const kinds: seq<Outline.LineKind>

    /** The cursor never passes the end of the input, and `kinds` classifies
        every line. */
    ghost predicate Valid()
      reads this
    {
      currLineIndex <= |lines| && |kinds| == |lines|
      && forall i {:trigger Outline.Classify(lines[i])} :: 0 <= i < |lines| ==> kinds[i] == Outline.Classify(lines[i])
    }

    /** What every template sees: the configuration, the book name, the date. */
    function Context(): Env
      reads this
    {
      Env(config, bookName, today)
    }

    constructor(config: Config, lines: seq<string>, today: Date)
      ensures this.config == config && this.lines == lines && this.today == today
      ensures bookName == "" && currLineIndex == 0
      ensures Valid() && kinds == Outline.Kinds(lines)
    {
      this.config := config;
      this.lines := lines;
      this.today := today;
      kinds := Outline.Kinds(lines);
      bookName := "";
      currLineIndex := 0;
    }

    /** The tests the loop body of `getHighlights` makes on the line under
        the cursor: `line.trim() === ''`, then the number of '#'s, then the
        title `line.replace(/#/g, '').trim()` of a heading. */
    method LineKindAt() returns (kind: Outline.LineKind)
      requires Valid() && 0 < currLineIndex < |lines|
      ensures kind == kinds[currLineIndex]
    {
      var line := lines[currLineIndex];
      assert kinds[currLineIndex] == Outline.Classify(line);
      BlankIff(line);
      if Trim(line) == "" {
        return Outline.Blank;
      }
      var lineLayer := CountChar(line, '#');
      if lineLayer == 0 {
        return Outline.Highlight(line);
      }
      kind := Outline.Heading(lineLayer, Trim(RemoveChar(line, '#')));
    }

    /** `getHighlights(layer)`: reads lines from the cursor on until a heading
        of at most `layer` '#'s or the end, recursing into deeper headings.
        Line 0 is taken as the book name. */
    method GetHighlights(layer: nat) returns (r: HNode)
      requires Valid()
      modifies this
      ensures Valid()
      ensures (r, currLineIndex) == Outline.Scope(kinds, old(currLineIndex), layer)
      ensures bookName == if old(currLineIndex) == 0 && |lines| > 0 then lines[0] else old(bookName)
      decreases |lines| - currLineIndex
    {
      var highLightResult: seq<(string, HNode)> := [];
      var result: seq<string> := [];
      var cache := "";
      ghost var start := currLineIndex;
      while currLineIndex < |lines|
        invariant Valid() && start <= currLineIndex
        invariant Outline.Loop(kinds, currLineIndex, layer, cache, result, highLightResult)
               == Outline.Scope(kinds, start, layer)
        invariant bookName == if start == 0 && currLineIndex > 0 then lines[0] else old(bookName)
        decreases |lines| - currLineIndex
      {
        if currLineIndex == 0 {
          bookName := lines[currLineIndex];
          currLineIndex := currLineIndex + 1;
          continue;
        }
        var kind := LineKindAt();
        match kind {
          case Blank =>
            if cache != "" {
              result := result + [cache];
            }
            cache := "";
            currLineIndex := currLineIndex + 1;
          case Highlight(line) =>
            if cache != "" {
              cache := cache + "\n" + line;
            } else {
              cache := line;
            }
            currLineIndex := currLineIndex + 1;
          case Heading(lineLayer, title) =>
            if lineLayer <= layer {
              break;
            }
            currLineIndex := currLineIndex + 1;
            var highlights := GetHighlights(lineLayer);
            highLightResult := Put(highLightResult, title, highlights);
        }
      }
      r := if |result| > 0 then Leaves(result) else Map(highLightResult);
    }

    /** `getTagContent(property, format)`: the property map between two
        `---` lines, each value resolved as a template. */
    method GetTagContent(property: Option<Property>, fmt: Format) returns (r: Result<string, Error>)
      ensures r == TagContent(property, bookName, today, fmt)
    {
      var tagContent := Delimiter;
      if property.Some? {
        var props := property.value;
        var i := 0;
        ghost var body := "";
        while i < |props|
          invariant 0 <= i <= |props|
          invariant Entries(props[..i], bookName, today, fmt) == Ok(body)
          invariant tagContent == Delimiter + body
        {
          var (key, value) := props[i];
          var entry: Result<string, Error>;
          match value {
            case Items(list) =>
              var items := GetItemLines(list, fmt);
              entry := if items.Err? then Err(items.error) else Ok(key + ":\n" + items.value);
            case Scalar(text) =>
              var v := Resolve(text, bookName, today, fmt);
              entry := if v.Err? then Err(v.error) else Ok(key + ": " + v.value + "\n");
          }
          assert entry == EntryText(key, value, bookName, today, fmt);
          EntriesStep(props, i, bookName, today, fmt);
          if entry.Err? {
            assert TagContent(property, bookName, today, fmt) == Err(entry.error);
            return Err(entry.error);
          }
          tagContent := tagContent + entry.value;
          body := body + entry.value;
          i := i + 1;
        }
        assert props[..i] == props;
      } else {
        assert Delimiter + "" == Delimiter;
      }
      tagContent := tagContent + Delimiter;
      r := Ok(tagContent);
    }

    /** The `for (const item of value)` loop of `getTagContent`: one
        `  - item` line per list element. */
    method GetItemLines(list: seq<string>, fmt: Format) returns (r: Result<string, Error>)
      ensures r == ItemLines(list, bookName, today, fmt)
    {
      var items := "";
      var j := 0;
      while j < |list|
        invariant 0 <= j <= |list|
        invariant ItemLines(list[..j], bookName, today, fmt) == Ok(items)
      {
        ItemLinesStep(list, j, bookName, today, fmt);
        var v := ItemLine(list[j], bookName, today, fmt);
        if v.Err? {
          return Err(v.error);
        }
        items := items + v.value;
        j := j + 1;
      }
      assert list[..j] == list;
      r := Ok(items);
    }

    /** The book file: its path, its front matter and one link per chapter. */
    method GenerateIndex(keys: seq<string>) returns (r: Result<Doc, Error>)
      ensures r == BookIndex(Context(), keys)
    {
      var bookPath := Resolve(config.bookPath, bookName, today, EmptyFormat);
      if bookPath.Err? {
        return Err(bookPath.error);
      }
      var tag := GetTagContent(config.properties.book, EmptyFormat);
      if tag.Err? {
        return Err(tag.error);
      }
      r := Ok(Doc(bookPath.value + ".md", tag.value + "\n# Chapters\n\n" + Join(ChapterLinks(keys), "\n") + "\n"));
    }

    /** `getChapterList(chapter, layer)`: the counter `index` shared by the
        whole chapter enters as `idx` and leaves as `next`; the highlights
        pushed onto the chapter's list come back as `collected`. */
    method GetChapterList(name: string, h: HNode, layer: nat, idx: nat) returns (r: Result<Listing, Error>)
      ensures r == ChapterList(Context(), h, layer, name, idx)
      decreases h
    {
      match h {
        case Leaves(items) =>
          var ls := LinkList(Context(), items, Some(name), idx);
          if ls.Err? {
            return Err(ls.error);
          }
          r := Ok(Listing(ls.value, idx + |items|, items));
        case Map(es) =>
          var env := Context();
          var result: seq<string> := [];
          var index := idx;
          var highlights: seq<string> := [];
          var i := 0;
          var all := Sections(env, es, 0, layer, name, idx);
          assert all.Ok? ==> [] + all.value.lines == all.value.lines && [] + all.value.collected == all.value.collected;
          while i < |es|
            invariant 0 <= i <= |es|
            invariant all == Extend(Listing(result, index, highlights), Sections(env, es, i, layer, name, index))
          {
            var (key, value) := es[i];
            var sub := GetChapterList(name, value, layer + 1, index);
            if sub.Err? {
              return Err(sub.error);
            }
            var rest := Sections(env, es, i + 1, layer, name, sub.value.next);
            assert rest.Ok? ==>
              result + ([Section(key, layer, sub.value.lines)] + rest.value.lines)
                == (result + [Section(key, layer, sub.value.lines)]) + rest.value.lines
              && highlights + (sub.value.collected + rest.value.collected)
                == (highlights + sub.value.collected) + rest.value.collected;
            result := result + [Section(key, layer, sub.value.lines)];
            highlights := highlights + sub.value.collected;
            index := sub.value.next;
            i := i + 1;
          }
          assert result + [] == result && highlights + [] == highlights;
          r := Ok(Listing(result, index, highlights));
      }
    }

    /** The chapter file's text after its front matter: a flat list of
        links under "# Highlights", or the nested `getChapterList`; and the
        highlights the file links to, in that order. */
    method GetChapterBody(name: string, tag: string, h: HNode) returns (r: Result<Body, Error>)
      ensures r == ChapterBody(Context(), name, tag, h)
    {
      if h.Leaves? {
        var ls := LinkList(Context(), h.items, Some(name), 0);
        if ls.Err? {
          return Err(ls.error);
        }
        r := Ok(Body(tag + "\n# Highlights\n\n" + Join(ls.value, "\n") + "\n", h.items));
      } else {
        var l := GetChapterList(name, h, 1, 0);
        if l.Err? {
          return Err(l.error);
        }
        r := Ok(Body(tag + "\n" + Join(l.value.lines, "\n") + "\n", l.value.collected));
      }
    }

    /** The file of one highlight: its path, front matter and text. */
    method GenerateHighlight(name: string, text: string, n: int) returns (r: Result<Doc, Error>)
      ensures r == HighlightDoc(Context(), name, text, n)
    {
      var hfmt := Format(Some(name), Some(text), Some(n));
      var highlightPath := Resolve(config.highlightsPath, bookName, today, hfmt);
      if highlightPath.Err? {
        return Err(highlightPath.error);
      }
      var highlightTag := GetTagContent(config.properties.highlight, hfmt);
      if highlightTag.Err? {
        return Err(highlightTag.error);
      }
      r := Ok(Doc(highlightPath.value + ".md", highlightTag.value + "\n" + text + "\n"));
    }

    /** The `for (const highlightName of highlights)` loop of
        `generateChapter`: one file per highlight, numbered from 1. */
    method GenerateHighlights(name: string, highlights: seq<string>) returns (r: Result<seq<Doc>, Error>)
      ensures r == HighlightDocs(Context(), name, highlights, 0)
    {
      var env := Context();
      ghost var f := (text: string, n: int) => HighlightDoc(env, name, text, n);
      var docs: seq<Doc> := [];
      var index := 0;
      assert highlights[..0] == [];
      while index < |highlights|
        invariant 0 <= index <= |highlights|
        invariant NumberEach(f, highlights[..index], 0) == Ok(docs)
      {
        var d := GenerateHighlight(name, highlights[index], index + 1);
        NumberEachSplit(f, highlights, 0, index);
        assert f(highlights[index], index + 1) == d;
        if d.Err? {
          return Err(d.error);
        }
        docs := docs + [d.value];
        index := index + 1;
      }
      assert highlights[..index] == highlights;
      r := Ok(docs);
    }

    /** `generateChapter(chapterName, chapterHighlight)`: one file per
        highlight, numbered from 1, then the chapter file. */
    method GenerateChapter(name: string, h: HNode) returns (r: Result<seq<Doc>, Error>)
      ensures r == ChapterDocs(Context(), name, h)
    {
      var fmt := Format(Some(name), None, None);
      var chapterPath := Resolve(config.chapterPath, bookName, today, fmt);
      if chapterPath.Err? {
        return Err(chapterPath.error);
      }
      var tag := GetTagContent(config.properties.chapter, fmt);
      if tag.Err? {
        return Err(tag.error);
      }
      var body := GetChapterBody(name, tag.value, h);
      if body.Err? {
        return Err(body.error);
      }
      var docs := GenerateHighlights(name, body.value.highlights);
      if docs.Err? {
        return Err(docs.error);
      }
      r := Ok(docs.value + [Doc(chapterPath.value + ".md", body.value.content)]);
    }

    /** A root that is an array (a paragraph closed before the first heading): the book file lists
        its indices, then the first chapter's listing recurses without end. */
    method GenerateRootList(n: nat) returns (r: Result<seq<Doc>, Error>)
      requires n > 0
      ensures r == RootListRun(Context(), n)
    {
      var index := GenerateIndex(IndexKeys(n));
      if index.Err? {
        return Err(index.error);
      }
      var fmt := Format(Some("0"), None, None);
      var chapterPath := Resolve(config.chapterPath, bookName, today, fmt);
      if chapterPath.Err? {
        return Err(chapterPath.error);
      }
      var tag := GetTagContent(config.properties.chapter, fmt);
      if tag.Err? {
        return Err(tag.error);
      }
      r := Err(CallStackExceeded);
    }

    /** The `Object.keys(highlight).forEach(...)` loop: every chapter's files
        in key order. */
    method GenerateChapters(es: seq<(string, HNode)>) returns (r: Result<seq<Doc>, Error>)
      ensures r == ChapterFiles(Context(), es)
    {
      var env := Context();
      ghost var f := (e: (string, HNode)) => ChapterDocs(env, e.0, e.1);
      var docs: seq<Doc> := [];
      var i := 0;
      assert es[..0] == [];
      while i < |es|
        invariant 0 <= i <= |es|
        invariant FlatMap(f, es[..i]) == Ok(docs)
      {
        var chapter := GenerateChapter(es[i].0, es[i].1);
        FlatMapSplit(f, es, i);
        assert f(es[i]) == chapter;
        if chapter.Err? {
          return Err(chapter.error);
        }
        docs := docs + chapter.value;
        i := i + 1;
      }
      assert es[..i] == es;
      r := Ok(docs);
    }

    /** `generateFiles(highlight)`: the book file, then every chapter's files
        in key order. */
    method GenerateFiles(h: HNode) returns (r: Result<seq<Doc>, Error>)
      ensures r == GeneratedFiles(Context(), h)
    {
      if h.Leaves? && h.items != [] {
        r := GenerateRootList(|h.items|);
        return;
      }
      var es := if h.Map? then h.entries else [];
      var index := GenerateIndex(Keys(es));
      if index.Err? {
        return Err(index.error);
      }
      var chapters := GenerateChapters(es);
      if chapters.Err? {
        return Err(chapters.error);
      }
      r := Ok([index.value] + chapters.value);
    }

    /** `getChapterTree(chapter, layer, chapterName)`. */
    method GetChapterTree(h: HNode, layer: nat, name: Option<string>) returns (r: Result<string, Error>)
      requires layer >= 1
      ensures r == Tree(Context(), h, layer, name)
      decreases h
    {
      match h {
        case Leaves(items) =>
          var ls := LinkList(Context(), items, name, 0);
          if ls.Err? {
            return Err(ls.error);
          }
          r := Ok(Bullets(ls.value, layer));
        case Map(es) =>
          var env := Context();
          var result := "";
          var i := 0;
          var b := Branches(env, es, 0, layer, name);
          assert b.Ok? ==> "" + b.value == b.value;
          while i < |es|
            invariant 0 <= i <= |es|
            invariant b == ThenText(result, Branches(env, es, i, layer, name))
          {
            var (key, value) := es[i];
            ghost var before := result;
            result := result + KeyLine(layer, key);
            var sub := GetChapterTree(value, layer + 1, if TruthyText(name) then name else Some(key));
            if sub.Err? {
              return Err(sub.error);
            }
            var rest := Branches(env, es, i + 1, layer, name);
            if rest.Ok? {
              AppendPieces(before, KeyLine(layer, key), sub.value, rest.value);
            }
            result := result + sub.value;
            i := i + 1;
          }
          assert result + "" == result;
          r := Ok(result);
      }
    }

    /** `generateMindMap(highlight)`. */
    method GenerateMindMap(h: HNode) returns (r: Result<Doc, Error>)
      ensures r == MindMap(Context(), h)
    {
      if !TruthyText(config.mindMapPath) {
        return Err(MindMapFolderRequired);
      }
      var mindMapPath := Resolve(config.mindMapPath.value, bookName, today, EmptyFormat);
      if mindMapPath.Err? {
        return Err(mindMapPath.error);
      }
      var tag := GetTagContent(config.properties.mindMap, EmptyFormat);
      if tag.Err? {
        return Err(tag.error);
      }
      var tree := GetChapterTree(h, 1, None);
      if tree.Err? {
        return Err(tree.error);
      }
      r := Ok(Doc(mindMapPath.value + ".md", tag.value + "\n" + tree.value + "\n"));
    }

    /** `startProcess()`: parse from the cursor, write the book's files, then
        the mind map when configured. */
    method StartProcess() returns (r: Result<seq<Doc>, Error>)
      requires Valid()
      modifies this
      ensures Valid()
      ensures currLineIndex == Outline.Scope(kinds, old(currLineIndex), 0).1
      ensures bookName == if old(currLineIndex) == 0 && |lines| > 0 then lines[0] else old(bookName)
      ensures r == Run(Context(), Outline.Scope(kinds, old(currLineIndex), 0).0)
    {
      var highlight := GetHighlights(0);
      var files := GenerateFiles(highlight);
      if files.Err? {
        return Err(files.error);
      }
      if !config.generatedMindMap {
        return Ok(files.value);
      }
      var mindMap := GenerateMindMap(highlight);
      if mindMap.Err? {
        return Err(mindMap.error);
      }
      r := Ok(files.value + [mindMap.value]);
    }
  }

  /** A fresh converter reads the whole input, takes line 0 as the book
      name, and produces exactly the documents of `Run` on the parsed
      outline. */
  method Process(config: Config, lines: seq<string>, today: Date) returns (r: Result<seq<Doc>, Error>)
    ensures r == Run(Env(config, if |lines| > 0 then lines[0] else "", today), Outline.Parse(lines))
  {
    var c := new Convert(config, lines, today);
    r := c.StartProcess();
  }
}
