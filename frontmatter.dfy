/**
 * `Convert.getTagContent` (src/convert.ts:116-133): an ordered property map
 * rendered between two `---` lines, every value passed through the template
 * engine. This module is the specification the `Convert.GetTagContent`
 * loop is proved against.
 */
module FrontMatter {
  import opened Text
  import opened Types
  import opened Template

  const Delimiter := "---\n"

  /** `f` of every element, concatenated left to right; the first element
      whose `f` fails aborts the whole text. */
  function JoinAll<T>(f: T -> Result<string, Error>, xs: seq<T>): Result<string, Error>
  {
    if xs == [] then Ok("")
    else
      var before :- JoinAll(f, xs[..|xs| - 1]);
      var v :- f(xs[|xs| - 1]);
      Ok(before + v)
  }

  /** One list item, `  - ${item}\n`. */
  function ItemLine(item: string, bookName: string, today: Date, fmt: Format): Result<string, Error>
  {
    var v :- Resolve(item, bookName, today, fmt);
    Ok("  - " + v + "\n")
  }

  /** Every list item, left to right; the first item whose template fails
      aborts the whole block. */
  function ItemLines(items: seq<string>, bookName: string, today: Date, fmt: Format): Result<string, Error>
  {
    JoinAll((item: string) => ItemLine(item, bookName, today, fmt), items)
  }

  /** One key: `key:` and its list items, or `key: value`. */
  function EntryText(key: string, value: PropValue, bookName: string, today: Date, fmt: Format): Result<string, Error>
  {
    match value
    case Items(list) =>
      var lines :- ItemLines(list, bookName, today, fmt);
      Ok(key + ":\n" + lines)
    case Scalar(v) =>
      var x :- Resolve(v, bookName, today, fmt);
      Ok(key + ": " + x + "\n")
  }

  /** All keys, in map order. */
  function Entries(props: Property, bookName: string, today: Date, fmt: Format): Result<string, Error>
  {
    JoinAll((e: (string, PropValue)) => EntryText(e.0, e.1, bookName, today, fmt), props)
  }

  /** `getTagContent(property, format)`. */
  function TagContent(property: Option<Property>, bookName: string, today: Date, fmt: Format): Result<string, Error>
  {
    var body :- if property.None? then Ok("") else Entries(property.value, bookName, today, fmt);
    Ok(Delimiter + body + Delimiter)
  }

  /** The block always opens and closes with `---`; with no property map it
      is exactly the two delimiter lines. */
  lemma TagContentDelimited(property: Option<Property>, bookName: string, today: Date, fmt: Format)
    ensures TagContent(None, bookName, today, fmt) == Ok("---\n---\n")
    ensures TagContent(Some([]), bookName, today, fmt) == Ok("---\n---\n")
    ensures var r := TagContent(property, bookName, today, fmt);
      r.Ok? ==> |r.value| >= 8 && r.value[..4] == "---\n" && r.value[|r.value| - 4..] == "---\n"
  {
    assert Entries([], bookName, today, fmt) == Ok("");
    assert Delimiter + "" + Delimiter == "---\n---\n";
    var r := TagContent(property, bookName, today, fmt);
    if r.Ok? {
      var body := if property.None? then "" else Entries(property.value, bookName, today, fmt).value;
      assert r.value == Delimiter + body + Delimiter;
      assert r.value[..4] == Delimiter;
      assert r.value[|r.value| - 4..] == Delimiter;
    }
  }

  /** Joining `p + q` is joining `p` and then `q`; the first failure wins. */
  lemma {:induction false} JoinAllAppend<T>(f: T -> Result<string, Error>, p: seq<T>, q: seq<T>)
    ensures var a, b := JoinAll(f, p), JoinAll(f, q);
      JoinAll(f, p + q) == if a.Err? then a else if b.Err? then b else Ok(a.value + b.value)
    decreases |q|
  {
    if q == [] {
      assert p + q == p;
      var a := JoinAll(f, p);
      if a.Ok? {
        assert a.value + "" == a.value;
      }
    } else {
      var q' := q[..|q| - 1];
      assert (p + q)[..|p + q| - 1] == p + q';
      assert (p + q)[|p + q| - 1] == q[|q| - 1];
      JoinAllAppend(f, p, q');
      var a, b' := JoinAll(f, p), JoinAll(f, q');
      var e := f(q[|q| - 1]);
      if a.Ok? && b'.Ok? && e.Ok? {
        assert (a.value + b'.value) + e.value == a.value + (b'.value + e.value);
      }
    }
  }

  /** One more element: its text is appended, or its failure ends the join. */
  lemma JoinAllStep<T>(f: T -> Result<string, Error>, xs: seq<T>, j: nat)
    requires j < |xs| && JoinAll(f, xs[..j]).Ok?
    ensures f(xs[j]).Ok? ==> JoinAll(f, xs[..j + 1]) == Ok(JoinAll(f, xs[..j]).value + f(xs[j]).value)
    ensures f(xs[j]).Err? ==> JoinAll(f, xs) == Err(f(xs[j]).error)
  {
    assert xs[..j + 1][..j] == xs[..j] && xs[..j + 1][j] == xs[j];
    JoinAllAppend(f, xs[..j + 1], xs[j + 1..]);
    assert xs[..j + 1] + xs[j + 1..] == xs;
  }

  /** The join fails exactly when some element fails, and then with the
      error of the first such element. */
  lemma {:induction false} JoinAllFailFirst<T>(f: T -> Result<string, Error>, xs: seq<T>)
    ensures JoinAll(f, xs).Ok? <==> forall i :: 0 <= i < |xs| ==> f(xs[i]).Ok?
    ensures JoinAll(f, xs).Err? ==>
      exists i :: 0 <= i < |xs| && f(xs[i]) == Err(JoinAll(f, xs).error)
        && forall j :: 0 <= j < i ==> f(xs[j]).Ok?
    decreases |xs|
  {
    if xs != [] {
      var init := xs[..|xs| - 1];
      JoinAllFailFirst(f, init);
      assert forall i :: 0 <= i < |init| ==> init[i] == xs[i];
    }
  }

  /** One more list item: its line is appended, or its failure ends the list. */
  lemma ItemLinesStep(list: seq<string>, j: nat, bookName: string, today: Date, fmt: Format)
    requires j < |list| && ItemLines(list[..j], bookName, today, fmt).Ok?
    ensures var v := ItemLine(list[j], bookName, today, fmt);
      v.Ok? ==> ItemLines(list[..j + 1], bookName, today, fmt)
                == Ok(ItemLines(list[..j], bookName, today, fmt).value + v.value)
    ensures var v := ItemLine(list[j], bookName, today, fmt);
      v.Err? ==> ItemLines(list, bookName, today, fmt) == Err(v.error)
  {
    var f := (item: string) => ItemLine(item, bookName, today, fmt);
    JoinAllStep(f, list, j);
    assert f(list[j]) == ItemLine(list[j], bookName, today, fmt);
  }

  /** One more key: its text is appended, or its failure ends the block. */
  lemma EntriesStep(props: Property, i: nat, bookName: string, today: Date, fmt: Format)
    requires i < |props| && Entries(props[..i], bookName, today, fmt).Ok?
    ensures var e := EntryText(props[i].0, props[i].1, bookName, today, fmt);
      e.Ok? ==> Entries(props[..i + 1], bookName, today, fmt)
                == Ok(Entries(props[..i], bookName, today, fmt).value + e.value)
    ensures var e := EntryText(props[i].0, props[i].1, bookName, today, fmt);
      e.Err? ==> Entries(props, bookName, today, fmt) == Err(e.error)
  {
    var f := (e: (string, PropValue)) => EntryText(e.0, e.1, bookName, today, fmt);
    JoinAllStep(f, props, i);
    assert f(props[i]) == EntryText(props[i].0, props[i].1, bookName, today, fmt);
  }

  /** Keys render in the map's order: the block of `p + q` is the block of
      `p` followed by the block of `q`, and the first failure wins. */
  lemma EntriesAppend(p: Property, q: Property, bookName: string, today: Date, fmt: Format)
    ensures var a, b := Entries(p, bookName, today, fmt), Entries(q, bookName, today, fmt);
      Entries(p + q, bookName, today, fmt)
        == if a.Err? then a else if b.Err? then b else Ok(a.value + b.value)
  {
    JoinAllAppend((e: (string, PropValue)) => EntryText(e.0, e.1, bookName, today, fmt), p, q);
  }

  /** The block fails exactly when some key's value fails, and then with the
      error of the first such key. */
  lemma EntriesFailFirst(props: Property, bookName: string, today: Date, fmt: Format)
    ensures Entries(props, bookName, today, fmt).Ok?
        <==> forall i :: 0 <= i < |props| ==> EntryText(props[i].0, props[i].1, bookName, today, fmt).Ok?
    ensures Entries(props, bookName, today, fmt).Err? ==>
      exists i :: 0 <= i < |props|
        && EntryText(props[i].0, props[i].1, bookName, today, fmt) == Err(Entries(props, bookName, today, fmt).error)
        && forall j :: 0 <= j < i ==> EntryText(props[j].0, props[j].1, bookName, today, fmt).Ok?
  {
    var f := (e: (string, PropValue)) => EntryText(e.0, e.1, bookName, today, fmt);
    JoinAllFailFirst(f, props);
    assert forall i :: 0 <= i < |props| ==> f(props[i]) == EntryText(props[i].0, props[i].1, bookName, today, fmt);
  }

  /** A literal list (no placeholder in any item) is copied item by item. */
  lemma {:induction false} LiteralItems(items: seq<string>, bookName: string, today: Date, fmt: Format)
    requires forall i :: 0 <= i < |items| ==> NoPlaceholder(items[i])
    ensures ItemLines(items, bookName, today, fmt)
         == Ok(Concat(seq(|items|, i requires 0 <= i < |items| => "  - " + items[i] + "\n")))
    decreases |items|
  {
    if items != [] {
      var init := items[..|items| - 1];
      var last := items[|items| - 1];
      LiteralItems(init, bookName, today, fmt);
      ResolveNoPlaceholder(last, bookName, today, fmt);
      var all := seq(|items|, i requires 0 <= i < |items| => "  - " + items[i] + "\n");
      var front := seq(|init|, i requires 0 <= i < |init| => "  - " + init[i] + "\n");
      assert all == front + ["  - " + last + "\n"];
      ConcatAppend(front, ["  - " + last + "\n"]);
      assert Concat(["  - " + last + "\n"]) == "  - " + last + "\n";
      assert items[..|items| - 1] == init;
      assert ItemLine(last, bookName, today, fmt) == Ok("  - " + last + "\n");
    }
  }

  /** A literal key renders as `key: value` or as `key:` with one indented
      `- item` line per element, in order. */
  lemma LiteralEntry(key: string, value: PropValue, bookName: string, today: Date, fmt: Format)
    requires value.Scalar? ==> NoPlaceholder(value.text)
    requires value.Items? ==> forall i :: 0 <= i < |value.list| ==> NoPlaceholder(value.list[i])
    ensures value.Scalar? ==> EntryText(key, value, bookName, today, fmt) == Ok(key + ": " + value.text + "\n")
    ensures value.Items? ==>
              EntryText(key, value, bookName, today, fmt) == Ok(key + ":\n" + Concat(seq(|value.list|, i requires 0 <= i < |value.list| => "  - " + value.list[i] + "\n")))
  {
    match value
    case Scalar(v) => ResolveNoPlaceholder(v, bookName, today, fmt);
    case Items(list) => LiteralItems(list, bookName, today, fmt);
  }

  /** A front-matter block fails only for lack of template context. */
  lemma TagContentErrors(property: Option<Property>, bookName: string, today: Date, fmt: Format)
    ensures var r := TagContent(property, bookName, today, fmt);
      r.Err? ==> ContextError(r.error)
  {
    if property.Some? {
      EntriesErrors(property.value, bookName, today, fmt);
    }
  }

  lemma {:induction false} EntriesErrors(props: Property, bookName: string, today: Date, fmt: Format)
    ensures var r := Entries(props, bookName, today, fmt);
      r.Err? ==> ContextError(r.error)
    decreases |props|
  {
    if props != [] {
      EntriesErrors(props[..|props| - 1], bookName, today, fmt);
      var last := props[|props| - 1];
      match last.1
      case Items(list) => ItemLinesErrors(list, bookName, today, fmt);
      case Scalar(v) => ResolveErrors(v, bookName, today, fmt);
    }
  }

  lemma {:induction false} ItemLinesErrors(items: seq<string>, bookName: string, today: Date, fmt: Format)
    ensures var r := ItemLines(items, bookName, today, fmt);
      r.Err? ==> ContextError(r.error)
    decreases |items|
  {
    if items != [] {
      ItemLinesErrors(items[..|items| - 1], bookName, today, fmt);
      ResolveErrors(items[|items| - 1], bookName, today, fmt);
    }
  }
}
