/**
 * The documents `Convert.generateFiles` and `Convert.generateMindMap`
 * write (src/convert.ts:135-297), as functions from the outline to a list
 * of (path, content) pairs. A path is the resolved template with ".md"
 * appended. The `Convert` class's methods are proved equal to these.
 */
module Render {
  import opened Text
  import opened Types
  import opened Template
  import opened FrontMatter

  /** What every template sees besides its own context: the configuration,
      the book name read from line 0, and today's date. */
  datatype Env = Env(config: Config, bookName: string, today: Date)

  /** `getValueAfterFormat(template, fmt)` on the converter behind `env`. */
  function Fill(env: Env, template: string, fmt: Format): Result<string, Error> {
    Resolve(template, env.bookName, env.today, fmt)
  }

  /** `getTagContent(property, fmt)` on the converter behind `env`. */
  function Tag(env: Env, property: Option<Property>, fmt: Format): Result<string, Error> {
    TagContent(property, env.bookName, env.today, fmt)
  }

  /** The context of the highlight with the given number. */
  function HighlightFormat(name: Option<string>, text: string, n: int): Format {
    Format(name, Some(text), Some(n))
  }

  /** `- [[${highlightsPath}|${text with '\n' as ' '}]]`. */
  function LinkLine(env: Env, name: Option<string>, text: string, n: int): Result<string, Error> {
    var target :- Fill(env, env.config.highlightsPath, HighlightFormat(name, text, n));
    Ok("- [[" + target + "|" + SingleLine(text) + "]]")
  }

  /** `f(items[j], idx + j + 1)` for every j, in order; the first failure
      aborts. */
  function NumberEach<T>(f: (string, int) -> Result<T, Error>, items: seq<string>, idx: nat): Result<seq<T>, Error>
  {
    if items == [] then Ok([])
    else
      var first :- f(items[0], idx + 1);
      var rest :- NumberEach(f, items[1..], idx + 1);
      Ok([first] + rest)
  }

  /** The link lines of one highlight list, the j-th numbered `idx + j + 1`;
      the first failing link aborts. */
  lemma {:induction false} NumberEachSplit<T>(f: (string, int) -> Result<T, Error>, items: seq<string>, idx: nat, i: nat)
    requires i < |items| && NumberEach(f, items[..i], idx).Ok?
    ensures f(items[i], idx + i + 1).Err? ==> NumberEach(f, items, idx) == Err(f(items[i], idx + i + 1).error)
    ensures f(items[i], idx + i + 1).Ok? ==>
      NumberEach(f, items[..i + 1], idx) == Ok(NumberEach(f, items[..i], idx).value + [f(items[i], idx + i + 1).value])
    decreases i
  {
    var r := f(items[i], idx + i + 1);
    if i == 0 {
      assert items[..1] == [items[0]] && items[..1][1..] == [] && items[..0] == [];
      if r.Ok? {
        assert [r.value] + [] == [r.value] == [] + [r.value];
      } else {
        assert NumberEach(f, items, idx) == Err(r.error);
      }
    } else {
      assert items[..i][0] == items[0] && items[..i][1..] == items[1..][..i - 1];
      assert items[..i + 1][0] == items[0] && items[..i + 1][1..] == items[1..][..i];
      var first := f(items[0], idx + 1).value;
      NumberEachSplit(f, items[1..], idx + 1, i - 1);
      assert items[1..][i - 1] == items[i];
      if r.Ok? {
        var mid := NumberEach(f, items[1..][..i - 1], idx + 1).value;
        assert [first] + (mid + [r.value]) == ([first] + mid) + [r.value];
      }
    }
  }

  function LinkList(env: Env, items: seq<string>, name: Option<string>, idx: nat): Result<seq<string>, Error>
  {
    NumberEach((text: string, n: int) => LinkLine(env, name, text, n), items, idx)
  }

  /** The highlight texts of an outline in traversal order. */
  function Flatten(h: HNode): seq<string>
    decreases h, 1
  {
    match h
    case Leaves(items) => items
    case Map(es) => FlattenFrom(es, 0)
  }

  function FlattenFrom(es: seq<(string, HNode)>, i: nat): seq<string>
    requires i <= |es|
    decreases Map(es), 0, |es| - i
  {
    if i == |es| then [] else Flatten(es[i].1) + FlattenFrom(es, i + 1)
  }

  /** How many highlights the entries `i` to `k - 1` hold. */
  function Between(es: seq<(string, HNode)>, i: nat, k: nat): nat
    requires i <= k <= |es|
    decreases k
  {
    if k == i then 0 else Between(es, i, k - 1) + |Flatten(es[k - 1].1)|
  }

  // ---------------------------------------------------------------------
  // Chapter pass

  /** What `getChapterList` produces: its lines, the counter after it, and
      the highlights it pushed. */
  datatype Listing = Listing(lines: seq<string>, next: nat, collected: seq<string>)

  /** `getChapterList(chapter, layer)` with the chapter's counter at `idx`. */
  function ChapterList(env: Env, h: HNode, layer: nat, name: string, idx: nat): Result<Listing, Error>
    decreases h, 1
  {
    match h
    case Leaves(items) =>
      var ls :- LinkList(env, items, Some(name), idx);
      Ok(Listing(ls, idx + |items|, items))
    case Map(es) => Sections(env, es, 0, layer, name, idx)
  }

  /** The `for (const key in chapter)` loop of `getChapterList` from entry `i`. */
  function Sections(env: Env, es: seq<(string, HNode)>, i: nat, layer: nat, name: string, idx: nat): Result<Listing, Error>
    requires i <= |es|
    decreases Map(es), 0, |es| - i
  {
    if i == |es| then Ok(Listing([], idx, []))
    else
      var sub :- ChapterList(env, es[i].1, layer + 1, name, idx);
      var rest :- Sections(env, es, i + 1, layer, name, sub.next);
      Ok(Listing([Section(es[i].0, layer, sub.lines)] + rest.lines, rest.next, sub.collected + rest.collected))
  }

  /** One sub-chapter: a heading of `layer` '#'s, a blank line, its body. */
  function Section(key: string, layer: nat, body: seq<string>): string {
    Repeat("#", layer) + " " + key + "\n\n" + Join(body, "\n") + "\n"
  }

  /** The highlight files of one chapter, the j-th numbered `idx + j + 1`. */
  function HighlightDoc(env: Env, name: string, text: string, n: int): Result<Doc, Error>
  {
    var fmt := HighlightFormat(Some(name), text, n);
    var path :- Fill(env, env.config.highlightsPath, fmt);
    var tag :- Tag(env, env.config.properties.highlight, fmt);
    Ok(Doc(path + ".md", tag + "\n" + text + "\n"))
  }

  function HighlightDocs(env: Env, name: string, hs: seq<string>, idx: nat): Result<seq<Doc>, Error>
  {
    NumberEach((text: string, n: int) => HighlightDoc(env, name, text, n), hs, idx)
  }

  /** The body of a chapter file and the highlights it links to. */
  datatype Body = Body(content: string, highlights: seq<string>)

  function ChapterBody(env: Env, name: string, tag: string, h: HNode): Result<Body, Error> {
    match h
    case Leaves(items) =>
      var ls :- LinkList(env, items, Some(name), 0);
      Ok(Body(tag + "\n# Highlights\n\n" + Join(ls, "\n") + "\n", items))
    case Map(_) =>
      var l :- ChapterList(env, h, 1, name, 0);
      Ok(Body(tag + "\n" + Join(l.lines, "\n") + "\n", l.collected))
  }

  /** `generateChapter(name, h)`: its highlight files, then the chapter file. */
  function ChapterDocs(env: Env, name: string, h: HNode): Result<seq<Doc>, Error> {
    var fmt := Format(Some(name), None, None);
    var path :- Fill(env, env.config.chapterPath, fmt);
    var tag :- Tag(env, env.config.properties.chapter, fmt);
    var body :- ChapterBody(env, name, tag, h);
    var docs :- HighlightDocs(env, name, body.highlights, 0);
    Ok(docs + [Doc(path + ".md", body.content)])
  }

  /** `- [[key]]` per top-level chapter. */
  function ChapterLinks(keys: seq<string>): (r: seq<string>)
    ensures |r| == |keys|
    ensures forall i :: 0 <= i < |keys| ==> r[i] == "- [[" + keys[i] + "]]"
  {
    if keys == [] then [] else ["- [[" + keys[0] + "]]"] + ChapterLinks(keys[1..])
  }

  /** The book file. */
  function BookIndex(env: Env, keys: seq<string>): Result<Doc, Error> {
    var path :- Fill(env, env.config.bookPath, EmptyFormat);
    var tag :- Tag(env, env.config.properties.book, EmptyFormat);
    Ok(Doc(path + ".md", tag + "\n# Chapters\n\n" + Join(ChapterLinks(keys), "\n") + "\n"))
  }

  /** `f` of every element, concatenated in order; the first failure aborts. */
  function FlatMap<T, U>(f: T -> Result<seq<U>, Error>, xs: seq<T>): Result<seq<U>, Error> {
    if xs == [] then Ok([])
    else
      var first :- f(xs[0]);
      var rest :- FlatMap(f, xs[1..]);
      Ok(first + rest)
  }

  lemma {:induction false} FlatMapSplit<T, U>(f: T -> Result<seq<U>, Error>, xs: seq<T>, i: nat)
    requires i < |xs| && FlatMap(f, xs[..i]).Ok?
    ensures f(xs[i]).Err? ==> FlatMap(f, xs) == Err(f(xs[i]).error)
    ensures f(xs[i]).Ok? ==> FlatMap(f, xs[..i + 1]) == Ok(FlatMap(f, xs[..i]).value + f(xs[i]).value)
    decreases i
  {
    if i == 0 {
      assert xs[..1] == [xs[0]] && xs[..1][1..] == [];
      var r := f(xs[0]);
      if r.Ok? {
        assert xs[..0] == [];
        assert r.value + [] == r.value == [] + r.value;
      } else { assert FlatMap(f, xs) == Err(r.error); }
    } else {
      assert xs[..i][0] == xs[0] && xs[..i][1..] == xs[1..][..i - 1];
      assert xs[..i + 1][0] == xs[0] && xs[..i + 1][1..] == xs[1..][..i];
      var first := f(xs[0]).value;
      FlatMapSplit(f, xs[1..], i - 1);
      assert xs[1..][i - 1] == xs[i];
      var r := f(xs[i]);
      if r.Ok? {
        var mid := FlatMap(f, xs[1..][..i - 1]).value;
        assert first + (mid + r.value) == (first + mid) + r.value;
      }
    }
  }

  /** Every chapter's files, chapter by chapter. */
  function ChapterFiles(env: Env, es: seq<(string, HNode)>): Result<seq<Doc>, Error> {
    FlatMap((e: (string, HNode)) => ChapterDocs(env, e.0, e.1), es)
  }

  /** `generateFiles(highlight)`: the book file, then every chapter's files. */
  function Files(env: Env, es: seq<(string, HNode)>): Result<seq<Doc>, Error> {
    var index :- BookIndex(env, Keys(es));
    var rest :- ChapterFiles(env, es);
    Ok([index] + rest)
  }

  // ---------------------------------------------------------------------
  // Mind map

  /** Two spaces per level below the first: `'  '.repeat(layer - 1)`. */
  function Indent(layer: nat): (r: string)
    requires layer >= 1
    ensures |r| == 2 * (layer - 1)
    ensures forall i :: 0 <= i < |r| ==> r[i] == ' '
  {
    RepeatCopies("  ", layer - 1);
    Repeat("  ", layer - 1)
  }

  /** Each line indented and ended by '\n', all joined with ''. */
  function Bullets(ls: seq<string>, layer: nat): string
    requires layer >= 1
  {
    if ls == [] then "" else Indent(layer) + ls[0] + "\n" + Bullets(ls[1..], layer)
  }

  /** The bullet of a sub-chapter's key: `${indent}- ${key}\n`. */
  function KeyLine(layer: nat, key: string): string
    requires layer >= 1
  {
    Indent(layer) + "- " + key + "\n"
  }

  /** The chapter name a sub-tree is drawn with: `chapterName || key`. */
  function SubName(name: Option<string>, key: string): Option<string> {
    if TruthyText(name) then name else Some(key)
  }

  /** `getChapterTree(chapter, layer, chapterName)`. */
  function Tree(env: Env, h: HNode, layer: nat, name: Option<string>): Result<string, Error>
    requires layer >= 1
    decreases h, 1
  {
    match h
    case Leaves(items) =>
      var ls :- LinkList(env, items, name, 0);
      Ok(Bullets(ls, layer))
    case Map(es) => Branches(env, es, 0, layer, name)
  }

  /** The `for (const key in chapter)` loop of `getChapterTree` from entry `i`. */
  function Branches(env: Env, es: seq<(string, HNode)>, i: nat, layer: nat, name: Option<string>): Result<string, Error>
    requires i <= |es| && layer >= 1
    decreases Map(es), 0, |es| - i
  {
    if i == |es| then Ok("")
    else
      var sub :- Tree(env, es[i].1, layer + 1, SubName(name, es[i].0));
      var rest :- Branches(env, es, i + 1, layer, name);
      Ok(KeyLine(layer, es[i].0) + sub + rest)
  }

  /** `generateMindMap(highlight)`. */
  function MindMap(env: Env, h: HNode): Result<Doc, Error> {
    if !TruthyText(env.config.mindMapPath) then Err(MindMapFolderRequired)
    else
      var path :- Fill(env, env.config.mindMapPath.value, EmptyFormat);
      var tag :- Tag(env, env.config.properties.mindMap, EmptyFormat);
      var tree :- Tree(env, h, 1, None);
      Ok(Doc(path + ".md", tag + "\n" + tree + "\n"))
  }

  // ---------------------------------------------------------------------
  // The mind map as a list of bullets

  /** One line of the mind map, `depth` levels in: a sub-chapter's key, or
      the link to a highlight. */
  datatype Bullet = KeyBullet(depth: nat, key: string) | LinkBullet(depth: nat, target: Target)

  /** The text of one bullet: `- key` or the link, indented two spaces per
      level, on a line of its own. */
  function BulletText(env: Env, b: Bullet): Result<string, Error> {
    match b
    case KeyBullet(d, key) => Ok(Indent(d + 1) + "- " + key + "\n")
    case LinkBullet(d, t) =>
      var link :- LinkLine(env, t.0, t.1, t.2);
      Ok(Indent(d + 1) + link + "\n")
  }

  /** Bullets drawn one after the other; the first that fails aborts. */
  function DrawText(env: Env, bs: seq<Bullet>): Result<string, Error> {
    if bs == [] then Ok("")
    else
      var first :- BulletText(env, bs[0]);
      var rest :- DrawText(env, bs[1..]);
      Ok(first + rest)
  }

  /** One link bullet per target, all at depth `d`. */
  function Links(d: nat, ts: seq<Target>): (r: seq<Bullet>)
    ensures |r| == |ts|
    ensures forall j :: 0 <= j < |ts| ==> r[j] == LinkBullet(d, ts[j])
  {
    if ts == [] then [] else [LinkBullet(d, ts[0])] + Links(d, ts[1..])
  }

  /** The bullets of the mind map of `h` drawn `d` levels in, in order: a
      highlight list is one link per highlight, numbered from 1; a map is,
      key by key, the key's bullet followed by its value one level deeper,
      under the name of the first truthy key on the path. */
  function Drawing(h: HNode, d: nat, name: Option<string>): seq<Bullet>
    decreases h, 1
  {
    match h
    case Leaves(items) => Links(d, Numbered(items, name, 0))
    case Map(es) => DrawingFrom(es, 0, d, name)
  }

  function DrawingFrom(es: seq<(string, HNode)>, i: nat, d: nat, name: Option<string>): seq<Bullet>
    requires i <= |es|
    decreases Map(es), 0, |es| - i
  {
    if i == |es| then []
    else [KeyBullet(d, es[i].0)] + (Drawing(es[i].1, d + 1, SubName(name, es[i].0)) + DrawingFrom(es, i + 1, d, name))
  }

  /** The targets of the link bullets, in order. */
  function LinksOf(bs: seq<Bullet>): seq<Target> {
    if bs == [] then [] else (if bs[0].LinkBullet? then [bs[0].target] else []) + LinksOf(bs[1..])
  }

  lemma {:induction false} DrawTextAppend(env: Env, a: seq<Bullet>, b: seq<Bullet>)
    ensures var x, y := DrawText(env, a), DrawText(env, b);
      DrawText(env, a + b) == if x.Err? then x else if y.Err? then y else Ok(x.value + y.value)
    decreases |a|
  {
    if a == [] {
      assert a + b == b;
      if DrawText(env, b).Ok? {
        assert "" + DrawText(env, b).value == DrawText(env, b).value;
      }
    } else {
      assert (a + b)[0] == a[0] && (a + b)[1..] == a[1..] + b;
      DrawTextAppend(env, a[1..], b);
      var f := BulletText(env, a[0]);
      if f.Ok? && DrawText(env, a[1..]).Ok? && DrawText(env, b).Ok? {
        AppendAssoc(f.value, DrawText(env, a[1..]).value, DrawText(env, b).value);
      }
    }
  }

  lemma {:induction false} LinksOfAppend(a: seq<Bullet>, b: seq<Bullet>)
    ensures LinksOf(a + b) == LinksOf(a) + LinksOf(b)
    decreases |a|
  {
    if a == [] {
      assert a + b == b;
    } else {
      assert (a + b)[0] == a[0] && (a + b)[1..] == a[1..] + b;
      LinksOfAppend(a[1..], b);
    }
  }

  /** A highlight list of the mind map: its links, each indented and on a
      line of its own, numbered from `idx + 1`. */
  lemma {:induction false} LeavesDrawn(env: Env, items: seq<string>, d: nat, name: Option<string>, idx: nat)
    ensures var r := LinkList(env, items, name, idx);
      DrawText(env, Links(d, Numbered(items, name, idx))) == if r.Ok? then Ok(Bullets(r.value, d + 1)) else Err(r.error)
    decreases |items|
  {
    if items != [] {
      var ts := Numbered(items, name, idx);
      assert ts == [(name, items[0], idx + 1)] + Numbered(items[1..], name, idx + 1);
      assert ts[1..] == Numbered(items[1..], name, idx + 1);
      var bs := Links(d, ts);
      assert bs[0] == LinkBullet(d, (name, items[0], idx + 1));
      assert bs[1..] == Links(d, ts[1..]);
      LeavesDrawn(env, items[1..], d, name, idx + 1);
      var first := LinkLine(env, name, items[0], idx + 1);
      var rest := LinkList(env, items[1..], name, idx + 1);
      if first.Ok? && rest.Ok? {
        var ls := [first.value] + rest.value;
        assert LinkList(env, items, name, idx) == Ok(ls);
        assert ls[0] == first.value && ls[1..] == rest.value;
      }
    }
  }

  /** The mind map's text is its bullets drawn in order, and it fails
      exactly with the first bullet that fails. */
  lemma {:induction false} TreeDrawn(env: Env, h: HNode, d: nat, name: Option<string>)
    ensures Tree(env, h, d + 1, name) == DrawText(env, Drawing(h, d, name))
    decreases h, 1
  {
    match h
    case Leaves(items) => LeavesDrawn(env, items, d, name, 0);
    case Map(es) => BranchesDrawn(env, es, 0, d, name);
  }

  lemma {:induction false} BranchesDrawn(env: Env, es: seq<(string, HNode)>, i: nat, d: nat, name: Option<string>)
    requires i <= |es|
    ensures Branches(env, es, i, d + 1, name) == DrawText(env, DrawingFrom(es, i, d, name))
    decreases Map(es), 0, |es| - i
  {
    if i < |es| {
      var sub := SubName(name, es[i].0);
      TreeDrawn(env, es[i].1, d + 1, sub);
      BranchesDrawn(env, es, i + 1, d, name);
      KeyDrawn(env, d, es[i].0, Drawing(es[i].1, d + 1, sub), DrawingFrom(es, i + 1, d, name));
    }
  }

  /** One step of the key loop: the key's line, then its sub-tree, then the
      remaining keys, the first failure winning. */
  lemma KeyDrawn(env: Env, d: nat, key: string, a: seq<Bullet>, b: seq<Bullet>)
    ensures var t, r := DrawText(env, a), DrawText(env, b);
      DrawText(env, [KeyBullet(d, key)] + (a + b))
      == if t.Err? then t else if r.Err? then r else Ok(KeyLine(d + 1, key) + t.value + r.value)
  {
    DrawTextAppend(env, a, b);
    DrawKey(env, d, key, a + b);
    var t, r := DrawText(env, a), DrawText(env, b);
    if t.Ok? && r.Ok? {
      AppendAssoc(KeyLine(d + 1, key), t.value, r.value);
    }
  }

  lemma DrawKey(env: Env, d: nat, key: string, xs: seq<Bullet>)
    ensures var y := DrawText(env, xs);
      DrawText(env, [KeyBullet(d, key)] + xs) == if y.Err? then y else Ok(KeyLine(d + 1, key) + y.value)
  {
    var bs := [KeyBullet(d, key)] + xs;
    assert bs[0] == KeyBullet(d, key) && bs[1..] == xs;
  }

  /** The links the mind map draws are `Targets`, in order. */
  lemma {:induction false} DrawingTargets(h: HNode, d: nat, name: Option<string>)
    ensures LinksOf(Drawing(h, d, name)) == Targets(h, name)
    decreases h, 1
  {
    match h
    case Leaves(items) => LinksOfLinks(d, Numbered(items, name, 0));
    case Map(es) => DrawingFromTargets(es, 0, d, name);
  }

  lemma {:induction false} DrawingFromTargets(es: seq<(string, HNode)>, i: nat, d: nat, name: Option<string>)
    requires i <= |es|
    ensures LinksOf(DrawingFrom(es, i, d, name)) == TargetsFrom(es, i, name)
    decreases Map(es), 0, |es| - i
  {
    if i < |es| {
      var sub := SubName(name, es[i].0);
      var a, b := Drawing(es[i].1, d + 1, sub), DrawingFrom(es, i + 1, d, name);
      DrawingTargets(es[i].1, d + 1, sub);
      DrawingFromTargets(es, i + 1, d, name);
      LinksOfAppend(a, b);
      LinksOfAppend([KeyBullet(d, es[i].0)], a + b);
      assert LinksOf([KeyBullet(d, es[i].0)]) == [];
    }
  }

  lemma {:induction false} LinksOfLinks(d: nat, ts: seq<Target>)
    ensures LinksOf(Links(d, ts)) == ts
    decreases |ts|
  {
    if ts != [] {
      assert Links(d, ts)[1..] == Links(d, ts[1..]);
      LinksOfLinks(d, ts[1..]);
    }
  }

  /** The mind map's text on a successful run: the front matter, then the
      bullets of the whole outline from the first level. */
  lemma MindMapDrawn(env: Env, h: HNode)
    requires MindMap(env, h).Ok?
    ensures var tag := Tag(env, env.config.properties.mindMap, EmptyFormat);
      var tree := DrawText(env, Drawing(h, 0, None));
      tag.Ok? && tree.Ok? && MindMap(env, h).value.content == tag.value + "\n" + tree.value + "\n"
  {
    TreeDrawn(env, h, 0, None);
  }

  /** The two numbering rules in the written text: under a chapter `a`
      whose sub-chapters `k1` and `k2` hold `x` and `y`, the chapter note
      links `y` as highlight 2, while the mind map draws `a`, then `k1`
      over `x` numbered 1, then `k2` over `y` numbered 1 again, both links
      under the name `a`. */
  lemma NumberingDiffersRendered(env: Env, a: string, k1: string, k2: string, x: string, y: string)
    requires a != ""
    ensures var c := ChapterList(env, Map([(k1, Leaves([x])), (k2, Leaves([y]))]), 1, a, 0);
      c.Ok? ==> (LinkLine(env, Some(a), x, 1).Ok? && LinkLine(env, Some(a), y, 2).Ok?
                 && c.value.lines == [Section(k1, 1, [LinkLine(env, Some(a), x, 1).value]),
                                      Section(k2, 1, [LinkLine(env, Some(a), y, 2).value])])
    ensures Tree(env, Map([(a, Map([(k1, Leaves([x])), (k2, Leaves([y]))]))]), 1, None)
         == DrawText(env, [KeyBullet(0, a), KeyBullet(1, k1), LinkBullet(2, (Some(a), x, 1)),
                           KeyBullet(1, k2), LinkBullet(2, (Some(a), y, 1))])
  {
    TwoSectionsListed(env, a, k1, k2, x, y);
    TreeDrawn(env, Map([(a, Map([(k1, Leaves([x])), (k2, Leaves([y]))]))]), 0, None);
    TwoSectionsDrawing(a, k1, k2, x, y);
  }

  lemma TwoSectionsListed(env: Env, a: string, k1: string, k2: string, x: string, y: string)
    ensures var c := ChapterList(env, Map([(k1, Leaves([x])), (k2, Leaves([y]))]), 1, a, 0);
      c.Ok? ==> (LinkLine(env, Some(a), x, 1).Ok? && LinkLine(env, Some(a), y, 2).Ok?
                 && c.value.lines == [Section(k1, 1, [LinkLine(env, Some(a), x, 1).value]),
                                      Section(k2, 1, [LinkLine(env, Some(a), y, 2).value])])
  {
    var es := [(k1, Leaves([x])), (k2, Leaves([y]))];
    var c := ChapterList(env, Map(es), 1, a, 0);
    if c.Ok? {
      LinkListNumbered(env, [x], Some(a), 0);
      LinkListNumbered(env, [y], Some(a), 1);
      var c0 := ChapterList(env, es[0].1, 2, a, 0);
      assert c0.Ok? ==> c0.value.lines == [LinkLine(env, Some(a), x, 1).value] && c0.value.next == 1;
      var c1 := ChapterList(env, es[1].1, 2, a, 1);
      assert c1.Ok? ==> c1.value.lines == [LinkLine(env, Some(a), y, 2).value] && c1.value.next == 2;
      assert c == Sections(env, es, 0, 1, a, 0);
      assert c0.Ok? && c0.value.next == 1;
      var r1 := Sections(env, es, 1, 1, a, 1);
      assert r1.Ok?;
      assert c1.Ok?;
      assert Sections(env, es, 2, 1, a, 2) == Ok(Listing([], 2, []));
      assert r1.value.lines == [Section(k2, 1, c1.value.lines)];
    }
  }

  lemma TwoSectionsDrawing(a: string, k1: string, k2: string, x: string, y: string)
    requires a != ""
    ensures Drawing(Map([(a, Map([(k1, Leaves([x])), (k2, Leaves([y]))]))]), 0, None)
         == [KeyBullet(0, a), KeyBullet(1, k1), LinkBullet(2, (Some(a), x, 1)),
             KeyBullet(1, k2), LinkBullet(2, (Some(a), y, 1))]
  {
    var es := [(k1, Leaves([x])), (k2, Leaves([y]))];
    var h := Map(es);
    var root := [(a, h)];
    assert SubName(None, a) == Some(a) && SubName(Some(a), k1) == Some(a) && SubName(Some(a), k2) == Some(a);
    var lx := [LinkBullet(2, (Some(a), x, 1))];
    var ly := [LinkBullet(2, (Some(a), y, 1))];
    assert Drawing(Leaves([x]), 2, Some(a)) == lx by {
      assert Numbered([x], Some(a), 0) == [(Some(a), x, 1)];
    }
    assert Drawing(Leaves([y]), 2, Some(a)) == ly by {
      assert Numbered([y], Some(a), 0) == [(Some(a), y, 1)];
    }
    assert es[0] == (k1, Leaves([x])) && es[1] == (k2, Leaves([y]));
    assert DrawingFrom(es, 2, 1, Some(a)) == [];
    var d1 := [KeyBullet(1, k2)] + (ly + []);
    assert DrawingFrom(es, 1, 1, Some(a)) == d1;
    var d0 := [KeyBullet(1, k1)] + (lx + d1);
    assert DrawingFrom(es, 0, 1, Some(a)) == d0;
    assert Drawing(h, 1, Some(a)) == d0;
    assert root[0] == (a, h);
    assert DrawingFrom(root, 1, 0, None) == [];
    assert Drawing(Map(root), 0, None) == [KeyBullet(0, a)] + (d0 + []);
    assert [KeyBullet(0, a)] + (d0 + []) == [KeyBullet(0, a), KeyBullet(1, k1), LinkBullet(2, (Some(a), x, 1)),
                                           KeyBullet(1, k2), LinkBullet(2, (Some(a), y, 1))];
  }

  // ---------------------------------------------------------------------
  // The whole run

  /** `Object.keys` of an array: "0", "1", ... */
  function IndexKeys(n: nat): (r: seq<string>)
    ensures |r| == n
    ensures forall i :: 0 <= i < n ==> r[i] == NatToString(i)
  {
    if n == 0 then [] else IndexKeys(n - 1) + [NatToString(n - 1)]
  }

  /** A root that holds highlights instead of chapters: the book file lists
      the array's indices, then the first chapter's body recurses over a
      one-character string without end. */
  function RootListRun(env: Env, n: nat): (r: Result<seq<Doc>, Error>)
    requires n > 0
    ensures r.Err?
  {
    var index :- BookIndex(env, IndexKeys(n));
    var fmt := Format(Some("0"), None, None);
    var path :- Fill(env, env.config.chapterPath, fmt);
    var tag :- Tag(env, env.config.properties.chapter, fmt);
    Err(CallStackExceeded)
  }

  /** `generateFiles(highlight)` on whatever the parse returned: an ordered
      object of chapters, or an array when a blank line closed a paragraph
      before the first heading (`Outline.ParseShape`). */
  function GeneratedFiles(env: Env, h: HNode): Result<seq<Doc>, Error> {
    if h.Leaves? && h.items != [] then RootListRun(env, |h.items|)
    else Files(env, if h.Map? then h.entries else [])
  }

  /** `startProcess()` once the outline is parsed: every document, or the
      first error. */
  function Run(env: Env, h: HNode): Result<seq<Doc>, Error> {
    var files :- GeneratedFiles(env, h);
    if !env.config.generatedMindMap then Ok(files)
    else
      var mm :- MindMap(env, h);
      Ok(files + [mm])
  }

  // ---------------------------------------------------------------------
  // Numbering in the chapter pass

  /** Every highlight of `hs` gets a link, the j-th numbered `idx + j + 1`. */
  predicate AllLinks(env: Env, name: Option<string>, hs: seq<string>, idx: nat) {
    forall j :: 0 <= j < |hs| ==> LinkLine(env, name, hs[j], idx + j + 1).Ok?
  }

  lemma AllLinksAppend(env: Env, name: Option<string>, a: seq<string>, b: seq<string>, idx: nat)
    ensures AllLinks(env, name, a + b, idx) <==> AllLinks(env, name, a, idx) && AllLinks(env, name, b, idx + |a|)
  {
    if AllLinks(env, name, a, idx) && AllLinks(env, name, b, idx + |a|) {
      forall j | 0 <= j < |a + b| ensures LinkLine(env, name, (a + b)[j], idx + j + 1).Ok? {
        if j >= |a| {
          var k := j - |a|;
          assert (a + b)[j] == b[k] && idx + j + 1 == (idx + |a|) + k + 1;
        }
      }
    }
    if AllLinks(env, name, a + b, idx) {
      forall k | 0 <= k < |b| ensures LinkLine(env, name, b[k], (idx + |a|) + k + 1).Ok? {
        var j := |a| + k;
        assert (a + b)[j] == b[k] && idx + j + 1 == (idx + |a|) + k + 1;
      }
      forall j | 0 <= j < |a| ensures LinkLine(env, name, a[j], idx + j + 1).Ok? {
        assert (a + b)[j] == a[j];
      }
    }
  }

  /** `NumberEach` succeeds exactly when every call does. */
  lemma {:induction false} NumberEachOk<T>(f: (string, int) -> Result<T, Error>, items: seq<string>, idx: nat)
    ensures NumberEach(f, items, idx).Ok? <==> forall j :: 0 <= j < |items| ==> f(items[j], idx + j + 1).Ok?
    decreases |items|
  {
    if items != [] {
      NumberEachOk(f, items[1..], idx + 1);
      assert forall j :: 1 <= j < |items| ==> items[1..][j - 1] == items[j] && (idx + 1) + (j - 1) + 1 == idx + j + 1;
    }
  }

  /** What `NumberEach` yields: one result per item, the j-th numbered `idx + j + 1`. */
  lemma {:induction false} NumberEachValues<T>(f: (string, int) -> Result<T, Error>, items: seq<string>, idx: nat)
    ensures var r := NumberEach(f, items, idx);
      r.Ok? ==> |r.value| == |items| && forall j :: 0 <= j < |items| ==> f(items[j], idx + j + 1).Ok? && r.value[j] == f(items[j], idx + j + 1).value
    decreases |items|
  {
    var r := NumberEach(f, items, idx);
    if items != [] && r.Ok? {
      NumberEachValues(f, items[1..], idx + 1);
      var rest := NumberEach(f, items[1..], idx + 1).value;
      assert r.value == [f(items[0], idx + 1).value] + rest;
      forall j | 0 <= j < |items| ensures f(items[j], idx + j + 1).Ok? && r.value[j] == f(items[j], idx + j + 1).value {
        if j > 0 {
          var k := j - 1;
          assert items[1..][k] == items[j] && (idx + 1) + k + 1 == idx + j + 1;
          assert r.value[j] == rest[k];
        }
      }
    }
  }

  /** A highlight list renders exactly when each of its links does. */
  lemma LinkListOk(env: Env, items: seq<string>, name: Option<string>, idx: nat)
    ensures LinkList(env, items, name, idx).Ok? <==> AllLinks(env, name, items, idx)
  {
    var f := (text: string, n: int) => LinkLine(env, name, text, n);
    NumberEachOk(f, items, idx);
    assert forall j :: 0 <= j < |items| ==> f(items[j], idx + j + 1) == LinkLine(env, name, items[j], idx + j + 1);
  }

  /** A highlight list that renders has one link per highlight, the j-th
      numbered `idx + j + 1`. */
  lemma LinkListNumbered(env: Env, items: seq<string>, name: Option<string>, idx: nat)
    ensures LinkList(env, items, name, idx).Ok? ==>
      var ls := LinkList(env, items, name, idx).value;
      |ls| == |items| && forall j :: 0 <= j < |items| ==>
        LinkLine(env, name, items[j], idx + j + 1).Ok? && ls[j] == LinkLine(env, name, items[j], idx + j + 1).value
  {
    var f := (text: string, n: int) => LinkLine(env, name, text, n);
    NumberEachValues(f, items, idx);
    assert forall j :: 0 <= j < |items| ==> f(items[j], idx + j + 1) == LinkLine(env, name, items[j], idx + j + 1);
  }

  /** The counter advances by one per highlight, and the highlights pushed
      are the outline's highlights in traversal order. */
  lemma {:induction false} ChapterListCount(env: Env, h: HNode, layer: nat, name: string, idx: nat)
    ensures var r := ChapterList(env, h, layer, name, idx);
      r.Ok? ==> r.value.collected == Flatten(h) && r.value.next == idx + |Flatten(h)|
    decreases h, 1
  {
    match h
    case Leaves(items) =>
    case Map(es) => SectionsCount(env, es, 0, layer, name, idx);
  }

  lemma {:induction false} SectionsCount(env: Env, es: seq<(string, HNode)>, i: nat, layer: nat, name: string, idx: nat)
    requires i <= |es|
    ensures var r := Sections(env, es, i, layer, name, idx);
      r.Ok? ==> r.value.collected == FlattenFrom(es, i) && r.value.next == idx + |FlattenFrom(es, i)|
    decreases Map(es), 0, |es| - i
  {
    if i < |es| {
      ChapterListCount(env, es[i].1, layer + 1, name, idx);
      var sub := ChapterList(env, es[i].1, layer + 1, name, idx);
      if sub.Ok? {
        SectionsCount(env, es, i + 1, layer, name, sub.value.next);
      }
    }
  }

  /** The chapter listing fails exactly when the link of one of the
      chapter's highlights fails, each highlight taken in traversal order
      across all nested sub-chapters with the number `idx + j + 1`; the
      lines written are stated by `SectionsShape` and `LinkListNumbered`. */
  lemma {:induction false} ChapterListLinks(env: Env, h: HNode, layer: nat, name: string, idx: nat)
    ensures ChapterList(env, h, layer, name, idx).Ok? <==> AllLinks(env, Some(name), Flatten(h), idx)
    decreases h, 1
  {
    match h
    case Leaves(items) => LinkListOk(env, items, Some(name), idx);
    case Map(es) => SectionsLinks(env, es, 0, layer, name, idx);
  }

  lemma {:induction false} SectionsLinks(env: Env, es: seq<(string, HNode)>, i: nat, layer: nat, name: string, idx: nat)
    requires i <= |es|
    ensures Sections(env, es, i, layer, name, idx).Ok? <==> AllLinks(env, Some(name), FlattenFrom(es, i), idx)
    decreases Map(es), 0, |es| - i
  {
    if i < |es| {
      var f := Flatten(es[i].1);
      ChapterListLinks(env, es[i].1, layer + 1, name, idx);
      ChapterListCount(env, es[i].1, layer + 1, name, idx);
      SectionsLinks(env, es, i + 1, layer, name, idx + |f|);
      AllLinksAppend(env, Some(name), f, FlattenFrom(es, i + 1), idx);
    }
  }

  lemma {:induction false} BetweenStep(es: seq<(string, HNode)>, i: nat, k: nat)
    requires i < k <= |es|
    ensures Between(es, i, k) == |Flatten(es[i].1)| + Between(es, i + 1, k)
    decreases k - i
  {
    if k > i + 1 {
      BetweenStep(es, i, k - 1);
    }
  }

  /** Line `j` of the listing of entries `i..` is entry `i + j`'s heading
      over its own listing, numbered from `idx` plus the highlights of the
      entries between. */
  predicate SectionAt(env: Env, es: seq<(string, HNode)>, i: nat, layer: nat, name: string, idx: nat, j: nat, line: string)
    requires i + j < |es|
  {
    var c := ChapterList(env, es[i + j].1, layer + 1, name, idx + Between(es, i, i + j));
    c.Ok? && line == Section(es[i + j].0, layer, c.value.lines)
  }

  /** A listing of the entries `i..` has one line per entry. */
  lemma {:induction false} SectionsLength(env: Env, es: seq<(string, HNode)>, i: nat, layer: nat, name: string, idx: nat)
    requires i <= |es|
    ensures var r := Sections(env, es, i, layer, name, idx);
      r.Ok? ==> |r.value.lines| == |es| - i
    decreases |es| - i
  {
    var r := Sections(env, es, i, layer, name, idx);
    if i < |es| && r.Ok? {
      var sub := ChapterList(env, es[i].1, layer + 1, name, idx).value;
      SectionsLength(env, es, i + 1, layer, name, sub.next);
    }
  }

  /** Line `j` of a listing of the entries `i..` is entry `i + j`'s heading
      over its own listing. */
  lemma {:induction false} SectionLine(env: Env, es: seq<(string, HNode)>, i: nat, layer: nat, name: string, idx: nat, j: nat)
    requires i + j < |es| && Sections(env, es, i, layer, name, idx).Ok?
    ensures var r := Sections(env, es, i, layer, name, idx);
      j < |r.value.lines| && SectionAt(env, es, i, layer, name, idx, j, r.value.lines[j])
    decreases j
  {
    var r := Sections(env, es, i, layer, name, idx).value;
    var sub := ChapterList(env, es[i].1, layer + 1, name, idx);
    ChapterListCount(env, es[i].1, layer + 1, name, idx);
    var next := idx + |Flatten(es[i].1)|;
    var rest := Sections(env, es, i + 1, layer, name, next);
    assert r.lines == [Section(es[i].0, layer, sub.value.lines)] + rest.value.lines;
    if j == 0 {
      assert Between(es, i, i) == 0;
    } else {
      SectionLine(env, es, i + 1, layer, name, next, j - 1);
      assert r.lines[j] == rest.value.lines[j - 1];
      SectionAtShift(env, es, i, layer, name, idx, j, r.lines[j]);
    }
  }

  /** A line of the listing of entries `i + 1..` is the same line of the
      listing of entries `i..`, one entry further on. */
  lemma SectionAtShift(env: Env, es: seq<(string, HNode)>, i: nat, layer: nat, name: string, idx: nat, j: nat, line: string)
    requires 1 <= j && i + j < |es|
    requires SectionAt(env, es, i + 1, layer, name, idx + |Flatten(es[i].1)|, j - 1, line)
    ensures SectionAt(env, es, i, layer, name, idx, j, line)
  {
    BetweenStep(es, i, i + j);
    assert i + 1 + (j - 1) == i + j;
  }

  /** Sub-chapter `i + j` of a listing is its heading over its own listing,
      whose numbering starts after every highlight of the sub-chapters
      before it. */
  lemma SectionsShape(env: Env, es: seq<(string, HNode)>, i: nat, layer: nat, name: string, idx: nat)
    requires i <= |es|
    ensures var r := Sections(env, es, i, layer, name, idx);
      r.Ok? ==> (|r.value.lines| == |es| - i &&
        forall j :: 0 <= j < |r.value.lines| ==> SectionAt(env, es, i, layer, name, idx, j, r.value.lines[j]))
  {
    var r := Sections(env, es, i, layer, name, idx);
    if r.Ok? {
      SectionsLength(env, es, i, layer, name, idx);
      forall j | 0 <= j < |r.value.lines| ensures SectionAt(env, es, i, layer, name, idx, j, r.value.lines[j]) {
        SectionLine(env, es, i, layer, name, idx, j);
      }
    }
  }

  // ---------------------------------------------------------------------
  // Numbering in the mind map

  /** A link to draw: chapter name, highlight text, number. */
  type Target = (Option<string>, string, nat)

  /** Highlights numbered consecutively from `idx + 1`. */
  function Numbered(hs: seq<string>, name: Option<string>, idx: nat): (r: seq<Target>)
    ensures |r| == |hs|
    ensures forall j :: 0 <= j < |hs| ==> r[j] == (name, hs[j], idx + j + 1)
  {
    if hs == [] then [] else [(name, hs[0], idx + 1)] + Numbered(hs[1..], name, idx + 1)
  }

  /** The links of the mind map in order: every highlight list numbered from
      1, under the name of the first truthy key on its path. */
  function Targets(h: HNode, name: Option<string>): seq<Target>
    decreases h, 1
  {
    match h
    case Leaves(items) => Numbered(items, name, 0)
    case Map(es) => TargetsFrom(es, 0, name)
  }

  function TargetsFrom(es: seq<(string, HNode)>, i: nat, name: Option<string>): seq<Target>
    requires i <= |es|
    decreases Map(es), 0, |es| - i
  {
    if i == |es| then [] else Targets(es[i].1, SubName(name, es[i].0)) + TargetsFrom(es, i + 1, name)
  }

  predicate TargetsOk(env: Env, ts: seq<Target>) {
    forall t :: 0 <= t < |ts| ==> LinkLine(env, ts[t].0, ts[t].1, ts[t].2).Ok?
  }

  lemma TargetsOkAppend(env: Env, a: seq<Target>, b: seq<Target>)
    ensures TargetsOk(env, a + b) <==> TargetsOk(env, a) && TargetsOk(env, b)
  {
    if TargetsOk(env, a + b) {
      forall t | 0 <= t < |b| ensures LinkLine(env, b[t].0, b[t].1, b[t].2).Ok? {
        assert (a + b)[|a| + t] == b[t];
      }
      forall t | 0 <= t < |a| ensures LinkLine(env, a[t].0, a[t].1, a[t].2).Ok? {
        assert (a + b)[t] == a[t];
      }
    }
  }

  /** The mind map fails exactly when one of its links fails. */
  lemma {:induction false} TreeLinks(env: Env, h: HNode, layer: nat, name: Option<string>)
    requires layer >= 1
    ensures Tree(env, h, layer, name).Ok? <==> TargetsOk(env, Targets(h, name))
    decreases h, 1
  {
    match h
    case Leaves(items) => LinkListOk(env, items, name, 0); LinkListNumbered(env, items, name, 0);
    case Map(es) => BranchesLinks(env, es, 0, layer, name);
  }

  lemma {:induction false} BranchesLinks(env: Env, es: seq<(string, HNode)>, i: nat, layer: nat, name: Option<string>)
    requires i <= |es| && layer >= 1
    ensures Branches(env, es, i, layer, name).Ok? <==> TargetsOk(env, TargetsFrom(es, i, name))
    decreases Map(es), 0, |es| - i
  {
    if i < |es| {
      TreeLinks(env, es[i].1, layer + 1, SubName(name, es[i].0));
      BranchesLinks(env, es, i + 1, layer, name);
      TargetsOkAppend(env, Targets(es[i].1, SubName(name, es[i].0)), TargetsFrom(es, i + 1, name));
    }
  }

  /** The mind map links the same highlights as the chapter pass, in the
      same order; only the numbers and names attached to them differ. */
  lemma {:induction false} TargetsTexts(h: HNode, name: Option<string>)
    ensures |Targets(h, name)| == |Flatten(h)|
    ensures forall j :: 0 <= j < |Flatten(h)| ==> Targets(h, name)[j].1 == Flatten(h)[j]
    decreases h, 1
  {
    match h
    case Leaves(items) =>
    case Map(es) => TargetsFromTexts(es, 0, name);
  }

  lemma {:induction false} TargetsFromTexts(es: seq<(string, HNode)>, i: nat, name: Option<string>)
    requires i <= |es|
    ensures |TargetsFrom(es, i, name)| == |FlattenFrom(es, i)|
    ensures forall j :: 0 <= j < |FlattenFrom(es, i)| ==> TargetsFrom(es, i, name)[j].1 == FlattenFrom(es, i)[j]
    decreases Map(es), 0, |es| - i
  {
    if i < |es| {
      var sub := SubName(name, es[i].0);
      TargetsTexts(es[i].1, sub);
      TargetsFromTexts(es, i + 1, name);
      var a: seq<Target> := Targets(es[i].1, sub);
      var b: seq<Target> := TargetsFrom(es, i + 1, name);
      var fa, fb := Flatten(es[i].1), FlattenFrom(es, i + 1);
      forall j | 0 <= j < |fa + fb| ensures (a + b)[j].1 == (fa + fb)[j] {
        if j < |fa| {
          assert (a + b)[j] == a[j] && (fa + fb)[j] == fa[j];
        } else {
          assert (a + b)[j] == b[j - |a|] && (fa + fb)[j] == fb[j - |fa|];
        }
      }
    }
  }

  /** Once a truthy chapter name is chosen it stays for the whole sub-tree:
      in the mind map every link is named after its top-level chapter. */
  lemma {:induction false} TargetsName(h: HNode, name: Option<string>)
    requires TruthyText(name)
    ensures forall t :: t in Targets(h, name) ==> t.0 == name
    decreases h, 1
  {
    match h
    case Leaves(items) =>
    case Map(es) => TargetsFromName(es, 0, name);
  }

  lemma {:induction false} TargetsFromName(es: seq<(string, HNode)>, i: nat, name: Option<string>)
    requires i <= |es| && TruthyText(name)
    ensures forall t :: t in TargetsFrom(es, i, name) ==> t.0 == name
    decreases Map(es), 0, |es| - i
  {
    if i < |es| {
      TargetsName(es[i].1, name);
      TargetsFromName(es, i + 1, name);
    }
  }

  /** The two numbering rules differ: under a chapter "A" with sub-chapters
      holding `x` and `y`, the chapter pass numbers `y` 2 and the mind map
      numbers it 1, both under the name "A". */
  lemma NumberingDiffers(x: string, y: string)
    ensures var h := Map([("s1", Leaves([x])), ("s2", Leaves([y]))]);
      Numbered(Flatten(h), Some("A"), 0) == [(Some("A"), x, 1), (Some("A"), y, 2)]
      && Targets(Map([("A", h)]), None) == [(Some("A"), x, 1), (Some("A"), y, 1)]
  {
    var es := [("s1", Leaves([x])), ("s2", Leaves([y]))];
    var h := Map(es);
    assert FlattenFrom(es, 2) == [];
    assert es[1].1 == Leaves([y]) && es[0].1 == Leaves([x]);
    assert FlattenFrom(es, 1) == Flatten(Leaves([y])) + FlattenFrom(es, 2);
    assert FlattenFrom(es, 1) == [y];
    assert FlattenFrom(es, 0) == Flatten(Leaves([x])) + FlattenFrom(es, 1);
    assert Flatten(h) == [x, y];
    assert SubName(None, "A") == Some("A");
    assert SubName(Some("A"), "s1") == Some("A") && SubName(Some("A"), "s2") == Some("A");
    assert TargetsFrom(es, 2, Some("A")) == [];
    assert Numbered([y], Some("A"), 0) == [(Some("A"), y, 1)];
    assert Numbered([x], Some("A"), 0) == [(Some("A"), x, 1)];
    assert TargetsFrom(es, 1, Some("A")) == Targets(Leaves([y]), Some("A")) + TargetsFrom(es, 2, Some("A"));
    assert TargetsFrom(es, 1, Some("A")) == [(Some("A"), y, 1)];
    assert TargetsFrom(es, 0, Some("A")) == Targets(Leaves([x]), Some("A")) + TargetsFrom(es, 1, Some("A"));
    assert Targets(h, Some("A")) == [(Some("A"), x, 1), (Some("A"), y, 1)];
    var top := [("A", h)];
    assert TargetsFrom(top, 1, None) == [];
    assert Targets(Map(top), None) == Targets(h, Some("A"));
  }

  // ---------------------------------------------------------------------
  // Documents

  /** The path template and the front matter of one highlight file both resolve. */
  predicate HighlightResolves(env: Env, name: string, text: string, n: int) {
    var fmt := HighlightFormat(Some(name), text, n);
    Fill(env, env.config.highlightsPath, fmt).Ok? && Tag(env, env.config.properties.highlight, fmt).Ok?
  }

  /** The file of highlight `hs[j]`, numbered `idx + j + 1`. */
  predicate HighlightAt(env: Env, name: string, hs: seq<string>, idx: nat, j: nat, d: Doc)
    requires j < |hs|
  {
    var fmt := HighlightFormat(Some(name), hs[j], idx + j + 1);
    HighlightResolves(env, name, hs[j], idx + j + 1)
    && d == Doc(Fill(env, env.config.highlightsPath, fmt).value + ".md",
                Tag(env, env.config.properties.highlight, fmt).value + "\n" + hs[j] + "\n")
  }

  /** One file per highlight, the j-th numbered `idx + j + 1` and holding the
      highlight's text under its front matter; the pass fails exactly when
      one of those files cannot be named or tagged. */
  lemma HighlightDocsNumbered(env: Env, name: string, hs: seq<string>, idx: nat)
    ensures HighlightDocs(env, name, hs, idx).Ok?
        <==> forall j :: 0 <= j < |hs| ==> HighlightResolves(env, name, hs[j], idx + j + 1)
    ensures var r := HighlightDocs(env, name, hs, idx);
      r.Ok? ==> |r.value| == |hs| && forall j :: 0 <= j < |hs| ==> HighlightAt(env, name, hs, idx, j, r.value[j])
  {
    var f := (text: string, n: int) => HighlightDoc(env, name, text, n);
    NumberEachOk(f, hs, idx);
    NumberEachValues(f, hs, idx);
    forall j | 0 <= j < |hs|
      ensures f(hs[j], idx + j + 1).Ok? <==> HighlightResolves(env, name, hs[j], idx + j + 1)
      ensures f(hs[j], idx + j + 1).Ok? ==> HighlightAt(env, name, hs, idx, j, f(hs[j], idx + j + 1).value)
    {
      assert f(hs[j], idx + j + 1) == HighlightDoc(env, name, hs[j], idx + j + 1);
    }
  }

  /** The highlights a chapter file links to are the chapter's highlights in
      traversal order, and the body fails exactly when one of their links does. */
  lemma ChapterBodyHighlights(env: Env, name: string, tag: string, h: HNode)
    ensures ChapterBody(env, name, tag, h).Ok? <==> AllLinks(env, Some(name), Flatten(h), 0)
    ensures var b := ChapterBody(env, name, tag, h);
      b.Ok? ==> b.value.highlights == Flatten(h)
  {
    match h
    case Leaves(items) => LinkListOk(env, items, Some(name), 0);
    case Map(_) =>
      ChapterListLinks(env, h, 1, name, 0);
      ChapterListCount(env, h, 1, name, 0);
  }

  /** The wiki link numbered `n` names the file of that highlight: its target
      is the file's path without ".md". */
  lemma LinkNamesFile(env: Env, name: string, hs: seq<string>, j: nat, d: Doc)
    requires j < |hs| && HighlightAt(env, name, hs, 0, j, d)
    ensures LinkLine(env, Some(name), hs[j], j + 1)
         == Ok("- [[" + d.path[..|d.path| - 3] + "|" + SingleLine(hs[j]) + "]]")
  {
    var target := Fill(env, env.config.highlightsPath, HighlightFormat(Some(name), hs[j], j + 1)).value;
    assert d.path == target + ".md";
    assert d.path[..|d.path| - 3] == target;
  }

  /** A chapter's documents are one file per highlight of the chapter, in
      traversal order and numbered 1, 2, ..., followed by the chapter file;
      every link of the chapter file names the highlight file with its number. */
  lemma ChapterDocsShape(env: Env, name: string, h: HNode)
    requires ChapterDocs(env, name, h).Ok?
    ensures var ds, hs := ChapterDocs(env, name, h).value, Flatten(h);
      |ds| == |hs| + 1
      && ds[|hs|].path == Fill(env, env.config.chapterPath, Format(Some(name), None, None)).value + ".md"
      && forall j :: 0 <= j < |hs| ==> HighlightAt(env, name, hs, 0, j, ds[j])
    ensures var ds, hs := ChapterDocs(env, name, h).value, Flatten(h);
      forall j :: 0 <= j < |hs| ==>
        LinkLine(env, Some(name), hs[j], j + 1) == Ok("- [[" + ds[j].path[..|ds[j].path| - 3] + "|" + SingleLine(hs[j]) + "]]")
  {
    var ds, hs := ChapterDocs(env, name, h).value, Flatten(h);
    var fmt := Format(Some(name), None, None);
    var tag := Tag(env, env.config.properties.chapter, fmt).value;
    ChapterBodyHighlights(env, name, tag, h);
    var body := ChapterBody(env, name, tag, h).value;
    HighlightDocsNumbered(env, name, hs, 0);
    var docs := HighlightDocs(env, name, hs, 0).value;
    assert ds == docs + [Doc(Fill(env, env.config.chapterPath, fmt).value + ".md", body.content)];
    forall j | 0 <= j < |hs|
      ensures LinkLine(env, Some(name), hs[j], j + 1) == Ok("- [[" + ds[j].path[..|ds[j].path| - 3] + "|" + SingleLine(hs[j]) + "]]")
    {
      assert ds[j] == docs[j];
      LinkNamesFile(env, name, hs, j, ds[j]);
    }
  }

  /** Leaving out the first chapter shifts the flattened highlights by that
      chapter's own. */
  lemma {:induction false} FlattenFromTail(es: seq<(string, HNode)>, i: nat)
    requires 1 <= i <= |es|
    ensures FlattenFrom(es, i) == FlattenFrom(es[1..], i - 1)
    decreases |es| - i
  {
    if i < |es| {
      FlattenFromTail(es, i + 1);
      assert es[1..][i - 1] == es[i];
    }
  }

  /** Every chapter contributes its highlight files and one chapter file. */
  lemma {:induction false} ChapterFilesCount(env: Env, es: seq<(string, HNode)>)
    ensures var r := ChapterFiles(env, es);
      r.Ok? ==> |r.value| == |es| + |FlattenFrom(es, 0)|
    decreases |es|
  {
    var r := ChapterFiles(env, es);
    if es != [] && r.Ok? {
      ChapterFilesCount(env, es[1..]);
      ChapterDocsShape(env, es[0].0, es[0].1);
      FlattenFromTail(es, 1);
    }
  }

  /** The book file comes first and lists every top-level chapter; then come
      one file per chapter and one per highlight. */
  lemma FilesShape(env: Env, es: seq<(string, HNode)>)
    ensures var r := Files(env, es);
      r.Ok? ==> (|r.value| == 1 + |es| + |FlattenFrom(es, 0)|
        && BookIndex(env, Keys(es)).Ok? && r.value[0] == BookIndex(env, Keys(es)).value)
  {
    ChapterFilesCount(env, es);
  }

  // ---------------------------------------------------------------------
  // Errors

  /** A link list fails only for lack of template context. */
  lemma {:induction false} LinkListErrors(env: Env, items: seq<string>, name: Option<string>, idx: nat)
    ensures var r := LinkList(env, items, name, idx);
      r.Err? ==> ContextError(r.error)
    decreases |items|
  {
    if items != [] {
      ResolveErrors(env.config.highlightsPath, env.bookName, env.today, HighlightFormat(name, items[0], idx + 1));
      LinkListErrors(env, items[1..], name, idx + 1);
    }
  }

  lemma {:induction false} TreeErrors(env: Env, h: HNode, layer: nat, name: Option<string>)
    requires layer >= 1
    ensures var r := Tree(env, h, layer, name);
      r.Err? ==> ContextError(r.error)
    decreases h, 1
  {
    match h
    case Leaves(items) => LinkListErrors(env, items, name, 0);
    case Map(es) => BranchesErrors(env, es, 0, layer, name);
  }

  lemma {:induction false} BranchesErrors(env: Env, es: seq<(string, HNode)>, i: nat, layer: nat, name: Option<string>)
    requires i <= |es| && layer >= 1
    ensures var r := Branches(env, es, i, layer, name);
      r.Err? ==> ContextError(r.error)
    decreases Map(es), 0, |es| - i
  {
    if i < |es| {
      TreeErrors(env, es[i].1, layer + 1, SubName(name, es[i].0));
      BranchesErrors(env, es, i + 1, layer, name);
    }
  }

  /** The mind map fails with "mindMapFolder is required" exactly when no
      truthy mind-map path is configured; otherwise it can fail only for
      lack of template context. */
  lemma MindMapRequired(env: Env, h: HNode)
    ensures MindMap(env, h) == Err(MindMapFolderRequired) <==> !TruthyText(env.config.mindMapPath)
    ensures var r := MindMap(env, h);
      r.Err? && TruthyText(env.config.mindMapPath) ==> ContextError(r.error)
  {
    if TruthyText(env.config.mindMapPath) {
      ResolveErrors(env.config.mindMapPath.value, env.bookName, env.today, EmptyFormat);
      TagContentErrors(env.config.properties.mindMap, env.bookName, env.today, EmptyFormat);
      TreeErrors(env, h, 1, None);
    }
  }
}
