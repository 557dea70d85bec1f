/**
 * `Convert.getValueAfterFormat` (src/convert.ts:16-63): six literal
 * placeholders, each replaced at every occurrence, in a fixed order; the
 * three context placeholders abort the run when their value is missing or
 * falsy. The clock is the `today` parameter; the book name is the title line
 * the outline parser recorded.
 */
module Template {
  import opened Text
  import opened Types

  const BookNameTag := Brace("book_name")
  const TodayDateTag := Brace("today_date")
  const ChapterNameTag := Brace("chapter_name")
  const HighlightTextTag := Brace("highlight_text")
  const HighlightTextSLTag := Brace("highlight_text_sl")
  const HighlightNumberTag := Brace("highlight_number")

  /** The six placeholder names hold no brace. */
  lemma NamesPlain()
    ensures PlainName("book_name") && PlainName("today_date") && PlainName("chapter_name")
    ensures PlainName("highlight_text") && PlainName("highlight_text_sl") && PlainName("highlight_number")
  {
  }

  /** A placeholder standing alone holds no other placeholder. */
  lemma TagAlone(n: string, m: string, rep: string)
    requires PlainName(n) && PlainName(m) && n != m
    ensures !Contains(Brace(n), Brace(m)) && ReplaceAll(Brace(n), Brace(m), rep) == Brace(n)
  {
    OtherTagAtFront(n, m, "", rep);
    assert Brace(n) + "" == Brace(n);
  }

  /** `${year}-${month}-${day}` with month and day padded to two digits. */
  function DateString(d: Date): string {
    IntToString(d.year) + "-" + Pad2(d.month) + "-" + Pad2(d.day)
  }

  /** One guarded substitution: a tag that is present needs its value, a tag
      that is absent leaves the text alone whatever the context holds. */
  function Substitute(v: string, tag: string, present: bool, val: string, err: Error): (r: Result<string, Error>)
    requires |tag| > 0
  {
    if !Contains(v, tag) then Ok(v)
    else if present then Ok(ReplaceAll(v, tag, val))
    else Err(err)
  }

  /** The two substitutions that never fail: the book name, then the date. */
  function Prefilled(value: string, bookName: string, today: Date): string {
    var v := ReplaceAll(value, BookNameTag, bookName);
    if Contains(v, TodayDateTag) then ReplaceAll(v, TodayDateTag, DateString(today)) else v
  }

  function NumberText(n: Option<int>): string {
    if n.Some? then IntToString(n.value) else ""
  }

  function TextOf(t: Option<string>): string {
    if t.Some? then t.value else ""
  }

  /** After `{chapter_name}`. */
  function WithChapter(value: string, bookName: string, today: Date, fmt: Format): Result<string, Error> {
    Substitute(Prefilled(value, bookName, today), ChapterNameTag, TruthyText(fmt.chapterName),
               TextOf(fmt.chapterName), ChapterNameRequired)
  }

  /** After `{highlight_text}` and `{highlight_text_sl}`. */
  function WithText(value: string, bookName: string, today: Date, fmt: Format): Result<string, Error> {
    var v3 :- WithChapter(value, bookName, today, fmt);
    var v4 :- Substitute(v3, HighlightTextTag, TruthyText(fmt.highlightText),
                         TextOf(fmt.highlightText), HighlightTextRequired);
    Substitute(v4, HighlightTextSLTag, TruthyText(fmt.highlightText),
               SingleLine(TextOf(fmt.highlightText)), HighlightTextRequired)
  }

  /** `getValueAfterFormat(value, format)`. */
  function Resolve(value: string, bookName: string, today: Date, fmt: Format): Result<string, Error> {
    var v5 :- WithText(value, bookName, today, fmt);
    Substitute(v5, HighlightNumberTag, TruthyNumber(fmt.highlightNumber),
               NumberText(fmt.highlightNumber), HighlightNumberRequired)
  }

  predicate NoPlaceholder(s: string) {
    && !Contains(s, BookNameTag) && !Contains(s, TodayDateTag) && !Contains(s, ChapterNameTag)
    && !Contains(s, HighlightTextTag) && !Contains(s, HighlightTextSLTag) && !Contains(s, HighlightNumberTag)
  }

  /** A template without placeholders comes back unchanged, whatever the context. */
  lemma ResolveNoPlaceholder(value: string, bookName: string, today: Date, fmt: Format)
    requires NoPlaceholder(value)
    ensures Resolve(value, bookName, today, fmt) == Ok(value)
  {
    ReplaceAllAbsent(value, BookNameTag, bookName);
  }

  /** With every context field truthy, resolution never fails. */
  lemma ResolveTotal(value: string, bookName: string, today: Date, fmt: Format)
    requires TruthyText(fmt.chapterName) && TruthyText(fmt.highlightText) && TruthyNumber(fmt.highlightNumber)
    ensures Resolve(value, bookName, today, fmt).Ok?
  {
  }

  /** "chapter_name is required" is raised exactly when `{chapter_name}` is
      present once the book name and date are in and the chapter name is falsy. */
  lemma ChapterNameError(value: string, bookName: string, today: Date, fmt: Format)
    ensures Resolve(value, bookName, today, fmt) == Err(ChapterNameRequired)
        <==> Contains(Prefilled(value, bookName, today), ChapterNameTag) && !TruthyText(fmt.chapterName)
  {
  }

  /** "highlight_text is required" is raised exactly when the chapter step
      passed, the text is falsy, and one of the two text tags is present. */
  lemma HighlightTextError(value: string, bookName: string, today: Date, fmt: Format)
    ensures Resolve(value, bookName, today, fmt) == Err(HighlightTextRequired)
        <==> WithChapter(value, bookName, today, fmt).Ok? && !TruthyText(fmt.highlightText)
             && (Contains(WithChapter(value, bookName, today, fmt).value, HighlightTextTag)
                 || Contains(WithChapter(value, bookName, today, fmt).value, HighlightTextSLTag))
  {
    var w := WithChapter(value, bookName, today, fmt);
    if w.Ok? && !TruthyText(fmt.highlightText) && !Contains(w.value, HighlightTextTag) {
      assert Substitute(w.value, HighlightTextTag, false, TextOf(fmt.highlightText), HighlightTextRequired) == Ok(w.value);
    }
  }

  /** "highlight_number is required" is raised exactly when the text steps
      passed, the number is missing or 0, and `{highlight_number}` is present. */
  lemma HighlightNumberError(value: string, bookName: string, today: Date, fmt: Format)
    ensures Resolve(value, bookName, today, fmt) == Err(HighlightNumberRequired)
        <==> WithText(value, bookName, today, fmt).Ok? && !TruthyNumber(fmt.highlightNumber)
             && Contains(WithText(value, bookName, today, fmt).value, HighlightNumberTag)
  {
  }

  /** Resolution only ever fails for want of a context field. */
  lemma ResolveErrors(value: string, bookName: string, today: Date, fmt: Format)
    ensures var r := Resolve(value, bookName, today, fmt);
      r.Err? ==> ContextError(r.error)
  {
  }

  /** Without any context, only the book name and the date are filled in, and
      the call fails exactly when a context placeholder is still present. */
  lemma ResolveWithoutContext(value: string, bookName: string, today: Date)
    ensures Resolve(value, bookName, today, EmptyFormat).Ok?
        <==> (var v := Prefilled(value, bookName, today);
              !Contains(v, ChapterNameTag) && !Contains(v, HighlightTextTag)
              && !Contains(v, HighlightTextSLTag) && !Contains(v, HighlightNumberTag))
    ensures Resolve(value, bookName, today, EmptyFormat).Ok?
        ==> Resolve(value, bookName, today, EmptyFormat).value == Prefilled(value, bookName, today)
  {
  }

  /** The book name and the date leave the documented example alone. */
  lemma ExamplePrefilled(bookName: string, today: Date)
    ensures Prefilled(ChapterNameTag + ("-" + HighlightNumberTag), bookName, today)
         == ChapterNameTag + ("-" + HighlightNumberTag)
  {
    NamesPlain();
    var hn := HighlightNumberTag;
    var rest := "-" + hn;
    var t := ChapterNameTag + rest;
    TagAlone("highlight_number", "book_name", bookName);
    TagAlone("highlight_number", "today_date", "");
    SkipLeading("-", hn, BookNameTag, bookName);
    SkipLeading("-", hn, TodayDateTag, "");
    OtherTagAtFront("chapter_name", "book_name", rest, bookName);
    OtherTagAtFront("chapter_name", "today_date", rest, "");
    ReplaceAllAbsent(t, BookNameTag, bookName);
  }

  /** The first half of the documented example: book name and date leave
      it alone, the chapter step fills in "Intro". */
  lemma ExampleChapterStep(bookName: string, today: Date)
    ensures WithChapter(ChapterNameTag + ("-" + HighlightNumberTag), bookName, today, Format(Some("Intro"), None, Some(3)))
         == Ok("Intro-" + HighlightNumberTag)
  {
    NamesPlain();
    var hn := HighlightNumberTag;
    var rest := "-" + hn;
    var t := ChapterNameTag + rest;
    ExamplePrefilled(bookName, today);
    TagAlone("highlight_number", "chapter_name", "Intro");
    SkipLeading("-", hn, ChapterNameTag, "Intro");
    SameTagAtFront("chapter_name", rest, "Intro");
    assert ReplaceAll(t, ChapterNameTag, "Intro") == "Intro" + rest;
    assert "Intro" + rest == "Intro-" + hn;
  }

  /** The second half: the text steps find nothing, the number step fills in 3. */
  lemma ExampleNumberStep()
    ensures Substitute("Intro-" + HighlightNumberTag, HighlightTextTag, false, "", HighlightTextRequired)
         == Ok("Intro-" + HighlightNumberTag)
    ensures Substitute("Intro-" + HighlightNumberTag, HighlightTextSLTag, false, "", HighlightTextRequired)
         == Ok("Intro-" + HighlightNumberTag)
    ensures Substitute("Intro-" + HighlightNumberTag, HighlightNumberTag, true, "3", HighlightNumberRequired)
         == Ok("Intro-3")
  {
    NamesPlain();
    var hn := HighlightNumberTag;
    TagAlone("highlight_number", "highlight_text", "");
    TagAlone("highlight_number", "highlight_text_sl", "");
    assert '{' !in "Intro-";
    SkipLeading("Intro-", hn, HighlightTextTag, "");
    SkipLeading("Intro-", hn, HighlightTextSLTag, "");
    SkipLeading("Intro-", hn, HighlightNumberTag, "3");
    SameTagAtFront("highlight_number", "", "3");
    assert hn + "" == hn;
    EmptyHasNothing(hn, "3");
    assert "Intro-" + ("3" + "") == "Intro-3";
  }

  lemma ExampleSpelling()
    ensures ChapterNameTag + ("-" + HighlightNumberTag) == "{chapter_name}-{highlight_number}"
  {
  }

  /** The documented example: chapter "Intro", number 3. */
  lemma ResolveExample(bookName: string, today: Date)
    ensures Resolve("{chapter_name}-{highlight_number}", bookName, today, Format(Some("Intro"), None, Some(3)))
         == Ok("Intro-3")
  {
    var fmt := Format(Some("Intro"), None, Some(3));
    var t := ChapterNameTag + ("-" + HighlightNumberTag);
    var v := "Intro-" + HighlightNumberTag;
    ExampleSpelling();
    ExampleChapterStep(bookName, today);
    ExampleNumberStep();
    assert TextOf(fmt.highlightText) == "" && SingleLine("") == "";
    assert !TruthyText(fmt.highlightText);
    assert WithText(t, bookName, today, fmt) == Ok(v);
    assert TruthyNumber(fmt.highlightNumber) && NumberText(fmt.highlightNumber) == "3";
    assert Resolve(t, bookName, today, fmt) == Ok("Intro-3");
  }

  /** A used placeholder without its context value fails the call. */
  lemma ResolveMissingText(bookName: string, today: Date)
    ensures Resolve("{highlight_text}", bookName, today, EmptyFormat) == Err(HighlightTextRequired)
  {
    NamesPlain();
    var t := HighlightTextTag;
    assert t == "{highlight_text}";
    TagAlone("highlight_text", "book_name", bookName);
    TagAlone("highlight_text", "today_date", "");
    TagAlone("highlight_text", "chapter_name", "");
    SameTagAtFront("highlight_text", "", "");
    assert t + "" == t;
  }

  /** Order matters: text a book name brings in is itself substituted by the
      later chapter step ... */
  lemma BookNameSubstitutedFirst(today: Date)
    ensures Resolve("{book_name}", "{chapter_name}", today, Format(Some("X"), None, None)) == Ok("X")
  {
    NamesPlain();
    assert BookNameTag == "{book_name}" && ChapterNameTag == "{chapter_name}";
    SameTagAtFront("book_name", "", ChapterNameTag);
    assert BookNameTag + "" == BookNameTag;
    EmptyHasNothing(BookNameTag, ChapterNameTag);
    TagAlone("chapter_name", "today_date", "");
    SameTagAtFront("chapter_name", "", "X");
    assert ChapterNameTag + "" == ChapterNameTag;
    EmptyHasNothing(ChapterNameTag, "X");
    assert '{' !in "X";
    SkipLeading("X", "", HighlightTextTag, "");
    SkipLeading("X", "", HighlightTextSLTag, "");
    SkipLeading("X", "", HighlightNumberTag, "");
    assert "X" + "" == "X";
  }

  /** ... while text a chapter name brings in is never revisited by the
      earlier book-name step. */
  lemma ChapterNameNotRescanned(bookName: string, today: Date)
    ensures Resolve("{chapter_name}", bookName, today, Format(Some("{book_name}"), None, None)) == Ok("{book_name}")
  {
    NamesPlain();
    assert BookNameTag == "{book_name}" && ChapterNameTag == "{chapter_name}";
    TagAlone("chapter_name", "book_name", bookName);
    TagAlone("chapter_name", "today_date", "");
    SameTagAtFront("chapter_name", "", BookNameTag);
    assert ChapterNameTag + "" == ChapterNameTag;
    EmptyHasNothing(ChapterNameTag, BookNameTag);
    assert BookNameTag + "" == BookNameTag;
    TagAlone("book_name", "highlight_text", "");
    TagAlone("book_name", "highlight_text_sl", "");
    TagAlone("book_name", "highlight_number", "");
  }

  /** `{highlight_text_sl}` receives the text on one line: no newline is left,
      the length is kept and every other character is unchanged. */
  lemma SingleLineText(text: string)
    ensures '\n' !in SingleLine(text)
    ensures |SingleLine(text)| == |text|
    ensures forall i :: 0 <= i < |text| && text[i] != '\n' ==> SingleLine(text)[i] == text[i]
  {
    var r := SingleLine(text);
    assert forall i :: 0 <= i < |r| ==> r[i] != '\n';
  }

  /** `{today_date}` becomes year, dash, two-digit month, dash, two-digit day. */
  lemma DateShape(d: Date)
    requires 1 <= d.month <= 12 && 1 <= d.day <= 31
    ensures var s := DateString(d); var n := |s|;
      && n == |IntToString(d.year)| + 6
      && s[n - 6] == '-' && s[n - 3] == '-'
      && 10 * (s[n - 5] as int - '0' as int) + (s[n - 4] as int - '0' as int) == d.month
      && 10 * (s[n - 2] as int - '0' as int) + (s[n - 1] as int - '0' as int) == d.day
  {
    Pad2TwoDigits(d.month);
    Pad2TwoDigits(d.day);
    var y := IntToString(d.year);
    var s := DateString(d);
    assert s == y + "-" + Pad2(d.month) + "-" + Pad2(d.day);
  }
}
