/**
 * src/book.ts: the ordered `Node` tree of a highlights export and the
 * `Book` class that builds it. `Scope(ks, pos, layer)` is one call
 * `initChapter(layer)` made with the shared cursor at `pos`; it yields the
 * node the call returns (`None` for `undefined`) and where it leaves the
 * cursor. `Book.InitChapter` is proved equal to it, and the chapters-only
 * projection `selfGetChaptersOnly` is related to independent descriptions
 * of the skeleton it keeps.
 */
module Book {
  import opened Text
  import opened Types
  import Outline

  /** `'book' | 'chapter' | 'highlight'`. */
  datatype NodeType = BookNode | ChapterNode | HighlightNode

  /** `{ type, text, children }`. */
  datatype Node = Node(kind: NodeType, text: string, children: seq<Node>)

  /** `result.children.push(child)`: the same node, one more child last. */
  function AddChild(n: Node, child: Node): (r: Node)
    ensures r.kind == n.kind && r.text == n.text && r.children == n.children + [child]
  {
    n.(children := n.children + [child])
  }

  // ---------------------------------------------------------------------
  // The heading test `/^[#]+\s/`

  /** Length of the run of '#' the line starts with. */
  function HashRun(s: string): (n: nat)
    ensures n <= |s|
    ensures forall i :: 0 <= i < n ==> s[i] == '#'
    ensures n < |s| ==> s[n] != '#'
  {
    if s != [] && s[0] == '#' then 1 + HashRun(s[1..]) else 0
  }

  /** `/^[#]+\s/.test(line)`, read off the leading run: the run is not empty
      and white space follows it. */
  predicate IsTitle(line: string) {
    var n := HashRun(line);
    0 < n < |line| && IsWhitespace(line[n])
  }

  /** What the regular expression accepts: one or more '#' from the start of
      the line, then a white-space character. */
  predicate MatchesTitle(line: string) {
    exists n :: 1 <= n < |line| && IsWhitespace(line[n]) && forall i :: 0 <= i < n ==> line[i] == '#'
  }

  /** The leading-run reading of the test is the regular expression's. */
  lemma TitleIff(line: string)
    ensures IsTitle(line) <==> MatchesTitle(line)
  {
    var k := HashRun(line);
    if MatchesTitle(line) {
      var n :| 1 <= n < |line| && IsWhitespace(line[n]) && forall i :: 0 <= i < n ==> line[i] == '#';
      assert !IsWhitespace('#');
      assert k == n;
    }
  }

  /** A title's depth counts every '#' of the line, so it is at least the
      length of its leading run, and at least 1. */
  lemma {:induction false} TitleDepth(line: string)
    ensures CountChar(line, '#') >= HashRun(line)
    ensures IsTitle(line) ==> CountChar(line, '#') >= 1
  {
    if line != [] && line[0] == '#' {
      TitleDepth(line[1..]);
    }
  }

  /** A line that does not start with '#' is never a title, whatever '#'s it
      holds further on. */
  lemma NotTitleUnlessLeading(line: string)
    requires line == [] || line[0] != '#'
    ensures !IsTitle(line)
  {
  }

  // ---------------------------------------------------------------------
  // The parser as functions over classified lines

  /** What the loop body of `initChapter` computes from one line: whether it
      is blank (`line.trim() === ''`), and otherwise the line, its
      `lineLayer` (every '#' counts), `isTitle`, and the node text
      `line.replace(/#/g, '').trim()` it would give. */
  datatype LineKind = Blank | NonBlank(line: string, lineLayer: nat, isTitle: bool, title: string)

  function Classify(line: string): LineKind {
    if IsBlank(line) then Blank
    else NonBlank(line, CountChar(line, '#'), IsTitle(line), Trim(RemoveChar(line, '#')))
  }

  /** Every line classified. */
  function Kinds(lines: seq<string>): seq<LineKind> {
    seq(|lines|, i requires 0 <= i < |lines| => Classify(lines[i]))
  }

  /** The line at `pos` gives a call that has no node yet its node: it is
      the first line of the input or a title. */
  predicate Opens(ks: seq<LineKind>, pos: nat)
    requires pos < |ks|
  {
    ks[pos].NonBlank? && (pos == 0 || ks[pos].isTitle)
  }

  /** The node the line at `pos` makes: the book for the first line of the
      input, a chapter otherwise, named by the line's title. */
  function NewNode(ks: seq<LineKind>, pos: nat): Node
    requires pos < |ks| && Opens(ks, pos)
  {
    Node(if pos == 0 then BookNode else ChapterNode, ks[pos].title, [])
  }

  /** The `while` loop of one call while `result` is still `undefined`:
      a blank line clears `cache` (`result?.children.push` does nothing),
      text grows it, and the line that `Opens` makes the node, the loop
      going on with `Grow`. */
  function Seek(ks: seq<LineKind>, pos: nat, layer: nat, cache: string): (r: (Option<Node>, nat))
    requires pos <= |ks|
    ensures pos <= r.1 <= |ks|
    ensures pos < |ks| ==> pos < r.1
    decreases |ks| - pos
  {
    if pos == |ks| then (None, pos)
    else match ks[pos]
      case Blank => Seek(ks, pos + 1, layer, "")
      case NonBlank(line, lineLayer, isTitle, title) =>
        if pos == 0 || isTitle then
          var g := Grow(ks, pos + 1, layer, cache, NewNode(ks, pos));
          (Some(g.0), g.1)
        else
          Seek(ks, pos + 1, layer, if cache != "" then cache + "\n" + line else line)
  }

  /** The same loop once the call has its node: a blank line adds the
      pending text as a highlight, text grows `cache`, a title of at most
      `layer` '#'s ends the call on that line, and a deeper one is handed,
      unconsumed, to a nested call whose node becomes the next child. */
  function Grow(ks: seq<LineKind>, pos: nat, layer: nat, cache: string, node: Node): (r: (Node, nat))
    requires pos <= |ks|
    ensures pos <= r.1 <= |ks|
    decreases |ks| - pos, 1
  {
    if pos == |ks| then (node, pos)
    else match ks[pos]
      case Blank =>
        Grow(ks, pos + 1, layer, "", if cache != "" then AddChild(node, Node(HighlightNode, cache, [])) else node)
      case NonBlank(line, lineLayer, isTitle, title) =>
        if pos == 0 || isTitle then
          if lineLayer <= layer then (node, pos)
          else
            var sub := Open(ks, pos, lineLayer);
            Grow(ks, sub.1, layer, cache, AddChild(node, sub.0))
        else
          Grow(ks, pos + 1, layer, if cache != "" then cache + "\n" + line else line, node)
  }

  /** A call `initChapter(layer)` whose first line makes its node, as every
      nested call's does: it reads at least that line. */
  function Open(ks: seq<LineKind>, pos: nat, layer: nat): (r: (Node, nat))
    requires pos < |ks| && Opens(ks, pos)
    ensures pos < r.1 <= |ks|
    decreases |ks| - pos, 0
  {
    Grow(ks, pos + 1, layer, "", NewNode(ks, pos))
  }

  /** One call `initChapter(layer)` with the cursor at `pos`: the node it
      returns (`None` for `undefined`) and where it leaves the cursor. */
  function Scope(ks: seq<LineKind>, pos: nat, layer: nat): (r: (Option<Node>, nat))
    requires pos <= |ks|
    ensures pos <= r.1 <= |ks|
    ensures pos < |ks| ==> pos < r.1
  {
    Seek(ks, pos, layer, "")
  }

  /** The rest of a call from any state of its loop. */
  function Resume(ks: seq<LineKind>, pos: nat, layer: nat, cache: string, result: Option<Node>): (Option<Node>, nat)
    requires pos <= |ks|
  {
    if result.None? then Seek(ks, pos, layer, cache)
    else var g := Grow(ks, pos, layer, cache, result.value); (Some(g.0), g.1)
  }

  /** The tree `new Book(lines)` stores in `chapter`. */
  function Parse(lines: seq<string>): Option<Node> {
    Scope(Kinds(lines), 0, 0).0
  }

  // ---------------------------------------------------------------------
  // What the parser builds

  /** What `Classify` yields for a non-blank line: the line is not empty,
      and a title counts at least one '#'. */
  predicate GoodKind(k: LineKind) {
    k.NonBlank? ==> k.line != "" && (k.isTitle ==> k.lineLayer >= 1)
  }

  lemma ClassifyGood(line: string)
    ensures GoodKind(Classify(line))
  {
    TitleDepth(line);
  }

  /** A call on a line that `Opens` is that line's `Open`. */
  lemma ScopeOpen(ks: seq<LineKind>, pos: nat, layer: nat)
    requires pos < |ks| && Opens(ks, pos)
    ensures Scope(ks, pos, layer) == (Some(Open(ks, pos, layer).0), Open(ks, pos, layer).1)
  {
  }

  lemma PrefixStep(c0: seq<Node>, x: Node, c2: seq<Node>)
    requires |c0| + 1 <= |c2| && c2[..|c0| + 1] == c0 + [x]
    ensures c2[..|c0|] == c0
  {
    assert c2[..|c0|] == c2[..|c0| + 1][..|c0|];
  }

  /** A call's node keeps its type and text, and its children are only ever
      appended to. */
  lemma {:induction false} GrowKeeps(ks: seq<LineKind>, pos: nat, layer: nat, cache: string, node: Node)
    requires pos <= |ks|
    ensures var n := Grow(ks, pos, layer, cache, node).0;
      n.kind == node.kind && n.text == node.text
      && |node.children| <= |n.children| && n.children[..|node.children|] == node.children
    decreases |ks| - pos
  {
    if pos < |ks| {
      var c0 := node.children;
      match ks[pos]
      case Blank =>
        if cache != "" {
          var x := Node(HighlightNode, cache, []);
          GrowKeeps(ks, pos + 1, layer, "", AddChild(node, x));
          PrefixStep(c0, x, Grow(ks, pos + 1, layer, "", AddChild(node, x)).0.children);
        } else {
          GrowKeeps(ks, pos + 1, layer, "", node);
        }
      case NonBlank(line, lineLayer, isTitle, title) =>
        if pos == 0 || isTitle {
          if lineLayer > layer {
            var sub := Open(ks, pos, lineLayer);
            GrowKeeps(ks, sub.1, layer, cache, AddChild(node, sub.0));
            PrefixStep(c0, sub.0, Grow(ks, sub.1, layer, cache, AddChild(node, sub.0)).0.children);
          }
        } else {
          GrowKeeps(ks, pos + 1, layer, if cache != "" then cache + "\n" + line else line, node);
        }
    }
  }

  /** The line a call starts on names its node: the book for the first line
      of the input, a chapter otherwise. */
  lemma OpenNode(ks: seq<LineKind>, pos: nat, layer: nat)
    requires pos < |ks| && Opens(ks, pos)
    ensures var n := Open(ks, pos, layer).0;
      n.kind == (if pos == 0 then BookNode else ChapterNode) && n.text == ks[pos].title
  {
    GrowKeeps(ks, pos + 1, layer, "", NewNode(ks, pos));
  }

  /** A call that starts past the first line makes a chapter, if anything. */
  lemma {:induction false} SeekLater(ks: seq<LineKind>, pos: nat, layer: nat, cache: string)
    requires 1 <= pos <= |ks|
    ensures var r := Seek(ks, pos, layer, cache).0;
      r.Some? ==> r.value.kind == ChapterNode
    decreases |ks| - pos
  {
    if pos < |ks| {
      match ks[pos]
      case Blank =>
        SeekLater(ks, pos + 1, layer, "");
      case NonBlank(line, lineLayer, isTitle, title) =>
        if isTitle {
          GrowKeeps(ks, pos + 1, layer, cache, NewNode(ks, pos));
        } else {
          SeekLater(ks, pos + 1, layer, if cache != "" then cache + "\n" + line else line);
        }
    }
  }

  /** The root is the book, named by its first line with every '#' removed
      and trimmed, exactly when the first line is not blank; otherwise it
      is the chapter of the first title, or absent. */
  lemma RootKind(lines: seq<string>)
    ensures |lines| > 0 && !IsBlank(lines[0]) ==>
      Parse(lines).Some? && Parse(lines).value.kind == BookNode && Parse(lines).value.text == Trim(RemoveChar(lines[0], '#'))
    ensures (|lines| == 0 || IsBlank(lines[0])) && Parse(lines).Some? ==> Parse(lines).value.kind == ChapterNode
  {
    var ks := Kinds(lines);
    if |lines| > 0 {
      if IsBlank(lines[0]) {
        assert Scope(ks, 0, 0) == Seek(ks, 1, 0, "");
        SeekLater(ks, 1, 0, "");
      } else {
        ScopeOpen(ks, 0, 0);
        OpenNode(ks, 0, 0);
      }
    }
  }

  /** Where a call stops: at the end of the input, or on a title of at most
      `layer` '#'s, which it leaves under the cursor for its caller. */
  predicate StopsAt(ks: seq<LineKind>, stop: nat, layer: nat)
    requires stop <= |ks|
  {
    stop == |ks| || (0 < stop && ks[stop].NonBlank? && ks[stop].isTitle && ks[stop].lineLayer <= layer)
  }

  lemma {:induction false} GrowStop(ks: seq<LineKind>, pos: nat, layer: nat, cache: string, node: Node)
    requires 1 <= pos <= |ks|
    ensures StopsAt(ks, Grow(ks, pos, layer, cache, node).1, layer)
    decreases |ks| - pos
  {
    if pos < |ks| {
      match ks[pos]
      case Blank =>
        GrowStop(ks, pos + 1, layer, "", if cache != "" then AddChild(node, Node(HighlightNode, cache, [])) else node);
      case NonBlank(line, lineLayer, isTitle, title) =>
        if isTitle {
          if lineLayer > layer {
            var sub := Open(ks, pos, lineLayer);
            GrowStop(ks, sub.1, layer, cache, AddChild(node, sub.0));
          }
        } else {
          GrowStop(ks, pos + 1, layer, if cache != "" then cache + "\n" + line else line, node);
        }
    }
  }

  lemma {:induction false} SeekStop(ks: seq<LineKind>, pos: nat, layer: nat, cache: string)
    requires pos <= |ks|
    ensures StopsAt(ks, Seek(ks, pos, layer, cache).1, layer)
    decreases |ks| - pos
  {
    if pos < |ks| {
      match ks[pos]
      case Blank =>
        SeekStop(ks, pos + 1, layer, "");
      case NonBlank(line, lineLayer, isTitle, title) =>
        if pos == 0 || isTitle {
          GrowStop(ks, pos + 1, layer, cache, NewNode(ks, pos));
        } else {
          SeekStop(ks, pos + 1, layer, if cache != "" then cache + "\n" + line else line);
        }
    }
  }

  /** A call stops at the end of the input or on a title of at most `layer`
      '#'s, which it leaves under the cursor for its caller. */
  lemma ScopeStop(ks: seq<LineKind>, pos: nat, layer: nat)
    requires pos <= |ks|
    ensures var stop := Scope(ks, pos, layer).1;
      stop == |ks| || (0 < stop && ks[stop].NonBlank? && ks[stop].isTitle && ks[stop].lineLayer <= layer)
  {
    SeekStop(ks, pos, layer, "");
  }

  /** The outermost call reads the whole input: every title counts at least
      one '#', more than its layer 0. */
  lemma ParseReadsAll(lines: seq<string>)
    ensures Scope(Kinds(lines), 0, 0).1 == |lines|
  {
    var ks := Kinds(lines);
    ScopeStop(ks, 0, 0);
    var stop := Scope(ks, 0, 0).1;
    if stop < |lines| {
      ClassifyGood(lines[stop]);
    }
  }

  /** Below a node: no second book, and every highlight is a leaf with
      text. */
  predicate Shaped(n: Node)
    decreases n
  {
    forall i :: 0 <= i < |n.children| ==>
      n.children[i].kind != BookNode
      && (n.children[i].kind == HighlightNode ==> n.children[i].children == [] && n.children[i].text != "")
      && Shaped(n.children[i])
  }

  lemma AddShaped(n: Node, c: Node)
    requires Shaped(n) && Shaped(c) && c.kind != BookNode
    requires c.kind == HighlightNode ==> c.children == [] && c.text != ""
    ensures Shaped(AddChild(n, c))
  {
    var m := AddChild(n, c);
    assert forall i :: 0 <= i < |n.children| ==> m.children[i] == n.children[i];
  }

  lemma {:induction false} GrowShaped(ks: seq<LineKind>, pos: nat, layer: nat, cache: string, node: Node)
    requires 1 <= pos <= |ks| && Shaped(node)
    ensures Shaped(Grow(ks, pos, layer, cache, node).0)
    decreases |ks| - pos, 1
  {
    if pos < |ks| {
      match ks[pos]
      case Blank =>
        if cache != "" {
          AddShaped(node, Node(HighlightNode, cache, []));
        }
        GrowShaped(ks, pos + 1, layer, "", if cache != "" then AddChild(node, Node(HighlightNode, cache, [])) else node);
      case NonBlank(line, lineLayer, isTitle, title) =>
        if isTitle {
          if lineLayer > layer {
            var sub := Open(ks, pos, lineLayer);
            OpenShaped(ks, pos, lineLayer);
            OpenNode(ks, pos, lineLayer);
            AddShaped(node, sub.0);
            GrowShaped(ks, sub.1, layer, cache, AddChild(node, sub.0));
          }
        } else {
          GrowShaped(ks, pos + 1, layer, if cache != "" then cache + "\n" + line else line, node);
        }
    }
  }

  lemma {:induction false} OpenShaped(ks: seq<LineKind>, pos: nat, layer: nat)
    requires pos < |ks| && Opens(ks, pos)
    ensures Shaped(Open(ks, pos, layer).0)
    decreases |ks| - pos, 0
  {
    GrowShaped(ks, pos + 1, layer, "", NewNode(ks, pos));
  }

  lemma {:induction false} SeekShaped(ks: seq<LineKind>, pos: nat, layer: nat, cache: string)
    requires pos <= |ks|
    ensures var r := Seek(ks, pos, layer, cache).0;
      r.Some? ==> Shaped(r.value)
    decreases |ks| - pos
  {
    if pos < |ks| {
      match ks[pos]
      case Blank =>
        SeekShaped(ks, pos + 1, layer, "");
      case NonBlank(line, lineLayer, isTitle, title) =>
        if pos == 0 || isTitle {
          GrowShaped(ks, pos + 1, layer, cache, NewNode(ks, pos));
        } else {
          SeekShaped(ks, pos + 1, layer, if cache != "" then cache + "\n" + line else line);
        }
    }
  }

  /** Only the root is a book, and every highlight is a leaf with text:
      runs of blank lines never make empty highlights. */
  lemma ParseShaped(lines: seq<string>)
    ensures Parse(lines).Some? ==> Shaped(Parse(lines).value)
  {
    SeekShaped(Kinds(lines), 0, 0, "");
  }

  /** A blank first line makes no book: the first title becomes the root
      chapter, and the text read before it, which no blank line recorded
      anywhere, is still in `cache` and opens that chapter's first
      highlight. For instance `["", "foo", "# A", "bar", ""]` gives the
      chapter "A" with the one highlight "foo\nbar". */
  lemma LeadingTextJoinsFirstHighlight(lines: seq<string>)
    requires |lines| == 5 && IsBlank(lines[0]) && IsBlank(lines[4])
    requires !IsBlank(lines[1]) && !IsTitle(lines[1])
    requires IsTitle(lines[2])
    requires !IsBlank(lines[3]) && !IsTitle(lines[3])
    ensures Parse(lines)
         == Some(Node(ChapterNode, Trim(RemoveChar(lines[2], '#')), [Node(HighlightNode, lines[1] + "\n" + lines[3], [])]))
  {
    var ks := Kinds(lines);
    assert Classified(ks, lines) by {
      KindsClassified(lines);
    }
    LeakLines(ks, lines);
  }

  /** The kinds of those lines. */
  lemma LeakLines(ks: seq<LineKind>, lines: seq<string>)
    requires Classified(ks, lines)
    requires |lines| == 5 && IsBlank(lines[0]) && IsBlank(lines[4])
    requires !IsBlank(lines[1]) && !IsTitle(lines[1])
    requires IsTitle(lines[2])
    requires !IsBlank(lines[3]) && !IsTitle(lines[3])
    ensures Scope(ks, 0, 0).0
         == Some(Node(ChapterNode, Trim(RemoveChar(lines[2], '#')), [Node(HighlightNode, lines[1] + "\n" + lines[3], [])]))
  {
    assert ks[0] == Blank && ks[4] == Blank by {
      assert ks[0] == Classify(lines[0]) && ks[4] == Classify(lines[4]);
    }
    assert ks[1].NonBlank? && !ks[1].isTitle && ks[1].line == lines[1] && lines[1] != "" by {
      assert ks[1] == Classify(lines[1]);
      ClassifyGood(lines[1]);
    }
    assert ks[3].NonBlank? && !ks[3].isTitle && ks[3].line == lines[3] by {
      assert ks[3] == Classify(lines[3]);
    }
    assert ks[2].NonBlank? && ks[2].isTitle && ks[2].lineLayer > 0 && ks[2].title == Trim(RemoveChar(lines[2], '#')) by {
      assert !IsBlank(lines[2]) by {
        assert !IsWhitespace('#');
      }
      assert ks[2] == Classify(lines[2]);
      ClassifyGood(lines[2]);
    }
    LeakSteps(ks);
  }

  /** The walk of the loop over those lines, with only their kinds known. */
  lemma LeakSteps(ks: seq<LineKind>)
    requires |ks| == 5 && ks[0] == Blank && ks[4] == Blank
    requires ks[1].NonBlank? && !ks[1].isTitle && ks[3].NonBlank? && !ks[3].isTitle
    requires ks[2].NonBlank? && ks[2].isTitle && ks[2].lineLayer > 0
    requires ks[1].line != ""
    ensures Scope(ks, 0, 0).0 == Some(Node(ChapterNode, ks[2].title, [Node(HighlightNode, ks[1].line + "\n" + ks[3].line, [])]))
  {
    var chapter := Node(ChapterNode, ks[2].title, []);
    var text := ks[1].line + "\n" + ks[3].line;
    assert NewNode(ks, 2) == chapter;
    assert Seek(ks, 2, 0, ks[1].line) == (Some(Grow(ks, 3, 0, ks[1].line, chapter).0), Grow(ks, 3, 0, ks[1].line, chapter).1);
    assert Grow(ks, 3, 0, ks[1].line, chapter) == Grow(ks, 4, 0, text, chapter);
    var leaf := Node(HighlightNode, text, []);
    assert Scope(ks, 0, 0) == Seek(ks, 1, 0, "");
    assert Seek(ks, 1, 0, "") == Seek(ks, 2, 0, ks[1].line);
    assert Grow(ks, 4, 0, text, chapter) == Grow(ks, 5, 0, "", AddChild(chapter, leaf));
    assert Grow(ks, 5, 0, "", AddChild(chapter, leaf)) == (AddChild(chapter, leaf), 5);
    assert AddChild(chapter, leaf) == Node(ChapterNode, ks[2].title, [leaf]);
  }

  // ---------------------------------------------------------------------
  // Paragraphs, by splitting at blank lines

  /** Highlight leaves for the paragraphs `ps`, in order. */
  function Highlights(ps: seq<string>): (r: seq<Node>)
    ensures |r| == |ps|
  {
    seq(|ps|, i requires 0 <= i < |ps| => Node(HighlightNode, ps[i], []))
  }

  lemma HighlightsAppend(a: seq<string>, b: seq<string>)
    ensures Highlights(a + b) == Highlights(a) + Highlights(b)
  {
  }

  /** Index of the first title at or after `pos`, or `|lines|`. */
  function NextTitle(lines: seq<string>, pos: nat): (k: nat)
    requires pos <= |lines|
    ensures pos <= k <= |lines|
    ensures forall i :: pos <= i < k ==> !IsTitle(lines[i])
    ensures k < |lines| ==> IsTitle(lines[k])
    decreases |lines| - pos
  {
    if pos == |lines| || IsTitle(lines[pos]) then pos else NextTitle(lines, pos + 1)
  }

  /** `ks` classifies every line of `lines`. */
  predicate Classified(ks: seq<LineKind>, lines: seq<string>) {
    |ks| == |lines| && forall i {:trigger Classify(lines[i])} :: 0 <= i < |lines| ==> ks[i] == Classify(lines[i])
  }

  lemma KindsClassified(lines: seq<string>)
    ensures Classified(Kinds(lines), lines)
  {
  }

  lemma BlankStep(ks: seq<LineKind>, lines: seq<string>, pos: nat, layer: nat, cache: string, node: Node)
    requires Classified(ks, lines) && 1 <= pos < |lines| && IsBlank(lines[pos])
    ensures Grow(ks, pos, layer, cache, node)
         == Grow(ks, pos + 1, layer, "", if cache != "" then AddChild(node, Node(HighlightNode, cache, [])) else node)
  {
    assert ks[pos] == Classify(lines[pos]);
  }

  lemma TextStep(ks: seq<LineKind>, lines: seq<string>, pos: nat, layer: nat, cache: string, node: Node)
    requires Classified(ks, lines) && 1 <= pos < |lines| && !IsBlank(lines[pos]) && !IsTitle(lines[pos])
    ensures Grow(ks, pos, layer, cache, node)
         == Grow(ks, pos + 1, layer, if cache != "" then cache + "\n" + lines[pos] else lines[pos], node)
  {
    assert ks[pos] == Classify(lines[pos]);
  }

  /** Non-blank lines joined by '\n' give "" only when there are none. */
  lemma {:induction false} JoinNonBlank(pend: seq<string>)
    requires forall j :: 0 <= j < |pend| ==> !IsBlank(pend[j])
    ensures Join(pend, "\n") == "" <==> pend == []
  {
    if pend != [] {
      assert IsBlank("");
      assert pend[0] != "";
      if |pend| > 1 {
        JoinNonBlank(pend[1..]);
      }
    }
  }

  /** Across lines without a title the loop adds exactly the paragraphs
      `Outline.Paras` describes to its node and carries the group still
      pending along. */
  lemma {:induction false} TextRun(ks: seq<LineKind>, lines: seq<string>, pos: nat, k: nat, layer: nat, pend: seq<string>, node: Node)
    requires Classified(ks, lines) && 1 <= pos <= k <= |lines|
    requires forall i :: pos <= i < k ==> !IsTitle(lines[i])
    requires forall j :: 0 <= j < |pend| ==> !IsBlank(pend[j])
    ensures var ls := pend + lines[pos..k];
      Grow(ks, pos, layer, Join(pend, "\n"), node)
        == Grow(ks, k, layer, Join(Outline.Pending(ls), "\n"), node.(children := node.children + Highlights(Outline.Paras(ls))))
    decreases k - pos, 1
  {
    if pos == k {
      var ls := pend + lines[pos..k];
      assert ls == pend;
      assert Outline.FirstBlank(pend) == |pend|;
      assert node.children + Highlights([]) == node.children;
    } else if IsBlank(lines[pos]) {
      TextRunBlank(ks, lines, pos, k, layer, pend, node);
    } else {
      TextRunText(ks, lines, pos, k, layer, pend, node);
    }
  }

  lemma {:induction false} TextRunBlank(ks: seq<LineKind>, lines: seq<string>, pos: nat, k: nat, layer: nat, pend: seq<string>, node: Node)
    requires Classified(ks, lines) && 1 <= pos < k <= |lines| && IsBlank(lines[pos])
    requires forall i :: pos <= i < k ==> !IsTitle(lines[i])
    requires forall j :: 0 <= j < |pend| ==> !IsBlank(pend[j])
    ensures var ls := pend + lines[pos..k];
      Grow(ks, pos, layer, Join(pend, "\n"), node)
        == Grow(ks, k, layer, Join(Outline.Pending(ls), "\n"), node.(children := node.children + Highlights(Outline.Paras(ls))))
    decreases k - pos, 0
  {
    var line := lines[pos];
    var rest := lines[pos + 1..k];
    var ls := pend + lines[pos..k];
    var cache := Join(pend, "\n");
    var node' := if cache != "" then AddChild(node, Node(HighlightNode, cache, [])) else node;
    var after := node'.(children := node'.children + Highlights(Outline.Paras(rest)));
    assert ls == pend + [line] + rest by {
      assert lines[pos..k] == [line] + rest;
    }
    assert Grow(ks, pos, layer, cache, node) == Grow(ks, pos + 1, layer, "", node') by {
      BlankStep(ks, lines, pos, layer, cache, node);
    }
    assert Grow(ks, pos + 1, layer, "", node') == Grow(ks, k, layer, Join(Outline.Pending(rest), "\n"), after) by {
      TextRunFresh(ks, lines, pos + 1, k, layer, node');
    }
    assert after == node.(children := node.children + Highlights(Outline.Paras(ls)))
        && Outline.Pending(ls) == Outline.Pending(rest) by {
      BlankGroup(pend, line, rest, node);
    }
  }

  /** `TextRun` from an empty cache, as after a blank line. */
  lemma {:induction false} TextRunFresh(ks: seq<LineKind>, lines: seq<string>, pos: nat, k: nat, layer: nat, node: Node)
    requires Classified(ks, lines) && 1 <= pos <= k <= |lines|
    requires forall i :: pos <= i < k ==> !IsTitle(lines[i])
    ensures var ls := lines[pos..k];
      Grow(ks, pos, layer, "", node)
        == Grow(ks, k, layer, Join(Outline.Pending(ls), "\n"), node.(children := node.children + Highlights(Outline.Paras(ls))))
    decreases k - pos, 2
  {
    assert [] + lines[pos..k] == lines[pos..k];
    assert Join([], "\n") == "";
    TextRun(ks, lines, pos, k, layer, [], node);
  }

  /** A blank line closes the pending group: it becomes the node's next
      highlight, when there is one, and the paragraphs after it follow. */
  lemma BlankGroup(pend: seq<string>, b: string, rest: seq<string>, node: Node)
    requires forall j :: 0 <= j < |pend| ==> !IsBlank(pend[j])
    requires IsBlank(b)
    ensures var ls := pend + [b] + rest;
      var cache := Join(pend, "\n");
      var node' := if cache != "" then AddChild(node, Node(HighlightNode, cache, [])) else node;
      Outline.Pending(ls) == Outline.Pending(rest)
      && node'.(children := node'.children + Highlights(Outline.Paras(rest)))
         == node.(children := node.children + Highlights(Outline.Paras(ls)))
  {
    var ls := pend + [b] + rest;
    var cache := Join(pend, "\n");
    var head := if pend == [] then [] else [cache];
    var node' := if cache != "" then AddChild(node, Node(HighlightNode, cache, [])) else node;
    assert Outline.Paras(ls) == head + Outline.Paras(rest) && Outline.Pending(ls) == Outline.Pending(rest) by {
      Outline.ParasAtBlank(pend, b, rest);
    }
    assert node'.children == node.children + Highlights(head) by {
      JoinNonBlank(pend);
    }
    ChildrenAppend(node.children, node'.children, head, Outline.Paras(rest), Outline.Paras(ls));
  }

  lemma ChildrenAppend(c: seq<Node>, c': seq<Node>, head: seq<string>, tail: seq<string>, all: seq<string>)
    requires c' == c + Highlights(head) && all == head + tail
    ensures c' + Highlights(tail) == c + Highlights(all)
  {
    HighlightsAppend(head, tail);
  }

  lemma {:induction false} TextRunText(ks: seq<LineKind>, lines: seq<string>, pos: nat, k: nat, layer: nat, pend: seq<string>, node: Node)
    requires Classified(ks, lines) && 1 <= pos < k <= |lines| && !IsBlank(lines[pos])
    requires forall i :: pos <= i < k ==> !IsTitle(lines[i])
    requires forall j :: 0 <= j < |pend| ==> !IsBlank(pend[j])
    ensures var ls := pend + lines[pos..k];
      Grow(ks, pos, layer, Join(pend, "\n"), node)
        == Grow(ks, k, layer, Join(Outline.Pending(ls), "\n"), node.(children := node.children + Highlights(Outline.Paras(ls))))
    decreases k - pos, 0
  {
    var ls := pend + lines[pos..k];
    var line := lines[pos];
    var rest := lines[pos + 1..k];
    var pend' := pend + [line];
    assert pend' + rest == ls by {
      assert lines[pos..k] == [line] + rest;
    }
    assert Grow(ks, pos, layer, Join(pend, "\n"), node) == Grow(ks, pos + 1, layer, Join(pend', "\n"), node) by {
      JoinNonBlank(pend);
      TextStep(ks, lines, pos, layer, Join(pend, "\n"), node);
      JoinSnoc(pend, line, "\n");
    }
    TextRun(ks, lines, pos + 1, k, layer, pend', node);
  }

  /** What one call makes of its lines. Let `k` be the first title after its
      own line (or the end of the input): its node starts with one highlight
      per paragraph that a blank line closes before `k`, in order, and text
      still pending at `k` is not among them. If `k` ends the call (the end,
      or at most `layer` '#'s) those are all its children; otherwise its
      next child is the chapter the nested call at `k` makes, on the same
      line. */
  lemma OpenParas(lines: seq<string>, pos: nat, layer: nat)
    requires pos < |lines| && Opens(Kinds(lines), pos)
    ensures var ks := Kinds(lines);
      var k := NextTitle(lines, pos + 1);
      var ps := Outline.Paras(lines[pos + 1..k]);
      var n := Open(ks, pos, layer).0;
      |ps| <= |n.children| && n.children[..|ps|] == Highlights(ps)
      && (k == |lines| || CountChar(lines[k], '#') <= layer ==> n.children == Highlights(ps))
      && (k < |lines| && CountChar(lines[k], '#') > layer ==>
            |ps| < |n.children| && Opens(ks, k) && n.children[|ps|] == Open(ks, k, CountChar(lines[k], '#')).0)
  {
    var ks := Kinds(lines);
    var k := NextTitle(lines, pos + 1);
    var ls := lines[pos + 1..k];
    var ps := Outline.Paras(ls);
    var node := NewNode(ks, pos);
    var node1 := node.(children := node.children + Highlights(ps));
    var cache := Join(Outline.Pending(ls), "\n");
    assert Open(ks, pos, layer) == Grow(ks, k, layer, cache, node1) by {
      KindsClassified(lines);
      TextRunFresh(ks, lines, pos + 1, k, layer, node);
    }
    assert node1.children == Highlights(ps) by {
      assert node.children == [];
    }
    if k < |lines| {
      OpenParasAtTitle(lines, k, layer, cache, node1);
    } else {
      assert Grow(ks, k, layer, cache, node1).0 == node1;
      assert node1.children[..|ps|] == node1.children;
    }
  }

  /** A title under the cursor of a call with node `node`: it ends the call
      with that node, or its nested call's chapter is the next child. */
  lemma OpenParasAtTitle(lines: seq<string>, k: nat, layer: nat, cache: string, node: Node)
    requires 1 <= k < |lines| && IsTitle(lines[k])
    ensures var ks := Kinds(lines);
      var d := CountChar(lines[k], '#');
      var n := Grow(ks, k, layer, cache, node).0;
      |node.children| <= |n.children| && n.children[..|node.children|] == node.children
      && (d <= layer ==> n == node)
      && (d > layer ==> |node.children| < |n.children| && Opens(ks, k) && n.children[|node.children|] == Open(ks, k, d).0)
  {
    var ks := Kinds(lines);
    var d := CountChar(lines[k], '#');
    assert ks[k] == Classify(lines[k]);
    if d > layer {
      var sub := Open(ks, k, d);
      var next := AddChild(node, sub.0);
      assert Grow(ks, k, layer, cache, node) == Grow(ks, sub.1, layer, cache, next);
      GrowKeeps(ks, sub.1, layer, cache, next);
      var n := Grow(ks, sub.1, layer, cache, next).0;
      assert n.children[..|node.children| + 1] == node.children + [sub.0];
      PrefixStep(node.children, sub.0, n.children);
      assert n.children[|node.children|] == (node.children + [sub.0])[|node.children|];
    }
  }

  // ---------------------------------------------------------------------
  // The `Book` class

  class Book {
    var chapter: Option<Node>
    /** `lines[0]`, `undefined` for an empty input. */
    var bookName: Option<string>
    const lines: seq<string>
    var currLineIndex: nat
    /** How the loop of `initChapter` reads each line. */
    ghost const kinds: seq<LineKind>

    /** The cursor never passes the end of the input, and `kinds` classifies
        every line. */
    ghost predicate Valid()
      reads this
    {
      currLineIndex <= |lines| && |kinds| == |lines|
      && forall i {:trigger Classify(lines[i])} :: 0 <= i < |lines| ==> kinds[i] == Classify(lines[i])
    }

    /** `new Book(lines)`: records the first line as the book name and parses
        the whole input from its first line. */
    constructor(lines: seq<string>)
      ensures this.lines == lines && kinds == Kinds(lines) && Valid()
      ensures bookName == if |lines| > 0 then Some(lines[0]) else None
      ensures (chapter, currLineIndex) == Scope(kinds, 0, 0)
    {
      this.lines := lines;
      kinds := Kinds(lines);
      currLineIndex := 0;
      bookName := if |lines| > 0 then Some(lines[0]) else None;
      chapter := None;
      new;
      chapter := InitChapter(0);
    }

    /** The tests the loop body of `initChapter` makes on the line under the
        cursor. */
    method KindAt() returns (kind: LineKind)
      requires Valid() && currLineIndex < |lines|
      ensures kind == kinds[currLineIndex]
    {
      var line := lines[currLineIndex];
      assert kinds[currLineIndex] == Classify(line);
      BlankIff(line);
      if Trim(line) == "" {
        return Blank;
      }
      var lineLayer := CountChar(line, '#');
      var isTitle := IsTitle(line);
      kind := NonBlank(line, lineLayer, isTitle, Trim(RemoveChar(line, '#')));
    }

    /** `initChapter(layer)`: takes the line under the cursor as its own
        title, then gathers highlights and deeper chapters until a title of
        at most `layer` '#'s, which it leaves under the cursor, or the end. */
    method InitChapter(layer: nat) returns (r: Option<Node>)
      requires Valid()
      modifies this`currLineIndex
      ensures Valid()
      ensures (r, currLineIndex) == Scope(kinds, old(currLineIndex), layer)
      decreases |lines| - currLineIndex
    {
      var result: Option<Node> := None;
      var cache := "";
      ghost var start := currLineIndex;
      while currLineIndex < |lines|
        invariant Valid() && start <= currLineIndex
        invariant result.Some? ==> start < currLineIndex
        invariant Resume(kinds, currLineIndex, layer, cache, result) == Scope(kinds, start, layer)
        decreases |lines| - currLineIndex
      {
        var kind := KindAt();
        match kind {
          case Blank =>
            if cache != "" && result.Some? {
              result := Some(AddChild(result.value, Node(HighlightNode, cache, [])));
            }
            cache := "";
            currLineIndex := currLineIndex + 1;
          case NonBlank(line, lineLayer, isTitle, title) =>
            if currLineIndex == 0 || isTitle {
              if result.None? {
                assert NewNode(kinds, currLineIndex) == Node(if currLineIndex == 0 then BookNode else ChapterNode, title, []);
                result := Some(Node(if currLineIndex == 0 then BookNode else ChapterNode, title, []));
                currLineIndex := currLineIndex + 1;
              } else if lineLayer <= layer {
                break;
              } else {
                ScopeOpen(kinds, currLineIndex, lineLayer);
                var subChapter := InitChapter(lineLayer);
                result := Some(AddChild(result.value, subChapter.value));
              }
            } else {
              if cache != "" {
                cache := cache + "\n";
              }
              assert "" + line == line;
              cache := cache + line;
              currLineIndex := currLineIndex + 1;
            }
        }
      }
      r := result;
    }

    /** `getChapters()`: the root's children, or none without a root. */
    function GetChapters(): (r: seq<Node>)
      reads this
      ensures chapter.None? ==> r == []
      ensures chapter.Some? ==> r == chapter.value.children
    {
      if chapter.Some? then chapter.value.children else []
    }

    /** `selfGetChaptersOnly(maxLayer, currLayer, currChapter)`: the chapter
        children of `currChapter`, or of the root when it is absent, each
        cut down to its own chapters-only children while `currLayer` is
        below `maxLayer` (always for -1), and to none after. */
    function SelfGetChaptersOnly(maxLayer: int, currLayer: nat, currChapter: Option<Node>): (r: seq<Node>)
      reads this
      ensures var from := if currChapter.Some? then currChapter else chapter;
        var kept := ChaptersOf(if from.Some? then from.value.children else []);
        |r| == |kept| && forall i :: 0 <= i < |r| ==> r[i] == kept[i].(children := r[i].children)
      ensures maxLayer == -1 ==> var from := if currChapter.Some? then currChapter else chapter;
        r == Skeleton(if from.Some? then from.value.children else [])
    {
      var from := if currChapter.Some? then currChapter else chapter;
      var children := if from.Some? then from.value.children else [];
      ProjectKeeps(maxLayer, currLayer, children);
      ProjectFull(currLayer, children);
      Project(maxLayer, currLayer, children)
    }

    /** `getChaptersOnly(maxLayer = -1)`. */
    function GetChaptersOnly(maxLayer: int): (r: seq<Node>)
      reads this
      ensures maxLayer == -1 ==> r == Skeleton(GetChapters())
      ensures maxLayer >= 0 ==> r == Prune(Skeleton(GetChapters()), maxLayer)
      ensures maxLayer >= 0 ==> Height(r) <= maxLayer + 1
      ensures maxLayer < -1 ==> r == Prune(Skeleton(GetChapters()), 0)
    {
      ProjectFull(0, GetChapters());
      if maxLayer >= 0 then
        ProjectBounded(maxLayer, 0, GetChapters());
        PruneHeight(Skeleton(GetChapters()), maxLayer);
        SelfGetChaptersOnly(maxLayer, 0, None)
      else if maxLayer < -1 then
        ProjectBelow(maxLayer, 0, GetChapters());
        SelfGetChaptersOnly(maxLayer, 0, None)
      else
        SelfGetChaptersOnly(maxLayer, 0, None)
    }
  }

  // ---------------------------------------------------------------------
  // The chapters-only projection

  /** The filter/map of `selfGetChaptersOnly` over a list of children. */
  function Project(maxLayer: int, currLayer: nat, nodes: seq<Node>): seq<Node>
    decreases nodes
  {
    if nodes == [] then []
    else
      var n := nodes[0];
      var rest := Project(maxLayer, currLayer, nodes[1..]);
      if n.kind == ChapterNode then
        [n.(children := if maxLayer == -1 || currLayer < maxLayer then Project(maxLayer, currLayer + 1, n.children) else [])] + rest
      else rest
  }

  /** The chapter nodes of a list, in order. */
  function ChaptersOf(nodes: seq<Node>): (r: seq<Node>)
    ensures forall i :: 0 <= i < |r| ==> r[i].kind == ChapterNode
  {
    if nodes == [] then []
    else (if nodes[0].kind == ChapterNode then [nodes[0]] else []) + ChaptersOf(nodes[1..])
  }

  /** The chapter skeleton of a list: its chapters, every highlight removed
      at every level. */
  function Skeleton(nodes: seq<Node>): seq<Node>
    decreases nodes
  {
    if nodes == [] then []
    else
      var rest := Skeleton(nodes[1..]);
      if nodes[0].kind == ChapterNode then [nodes[0].(children := Skeleton(nodes[0].children))] + rest else rest
  }

  /** Cut a forest below `depth` further levels. */
  function Prune(nodes: seq<Node>, depth: nat): seq<Node>
    decreases nodes
  {
    if nodes == [] then []
    else [nodes[0].(children := if depth > 0 then Prune(nodes[0].children, depth - 1) else [])] + Prune(nodes[1..], depth)
  }

  /** Number of levels of a forest. */
  function Height(nodes: seq<Node>): nat
    decreases nodes
  {
    if nodes == [] then 0
    else
      var h := 1 + Height(nodes[0].children);
      var rest := Height(nodes[1..]);
      if h >= rest then h else rest
  }

  /** Only chapters, in their order, with their type and text: the
      projection keeps exactly the chapter nodes and changes nothing but
      their children. */
  lemma {:induction false} ProjectKeeps(maxLayer: int, currLayer: nat, nodes: seq<Node>)
    ensures var r := Project(maxLayer, currLayer, nodes);
      var kept := ChaptersOf(nodes);
      |r| == |kept| && forall i :: 0 <= i < |r| ==> r[i] == kept[i].(children := r[i].children)
  {
    if nodes != [] {
      ProjectKeeps(maxLayer, currLayer, nodes[1..]);
    }
  }

  /** With `maxLayer` -1 the projection is the whole chapter skeleton, at
      whatever layer it starts. */
  lemma {:induction false} ProjectFull(currLayer: nat, nodes: seq<Node>)
    ensures Project(-1, currLayer, nodes) == Skeleton(nodes)
    decreases nodes
  {
    if nodes != [] {
      ProjectFull(currLayer, nodes[1..]);
      if nodes[0].kind == ChapterNode {
        ProjectFull(currLayer + 1, nodes[0].children);
      }
    }
  }

  /** Below -1, `currLayer < maxLayer` never holds: only the top-level
      chapters are kept, each with no children. */
  lemma {:induction false} ProjectBelow(maxLayer: int, currLayer: nat, nodes: seq<Node>)
    requires maxLayer < -1
    ensures Project(maxLayer, currLayer, nodes) == Prune(Skeleton(nodes), 0)
    decreases nodes
  {
    if nodes != [] {
      ProjectBelow(maxLayer, currLayer, nodes[1..]);
    }
  }

  /** With `maxLayer` m >= 0 the projection is the skeleton cut `m -
      currLayer` levels below the first; from layer m on, every kept chapter
      has no children. */
  lemma {:induction false} ProjectBounded(maxLayer: nat, currLayer: nat, nodes: seq<Node>)
    ensures Project(maxLayer, currLayer, nodes)
         == Prune(Skeleton(nodes), if currLayer < maxLayer then maxLayer - currLayer else 0)
    decreases nodes
  {
    if nodes != [] {
      ProjectBounded(maxLayer, currLayer, nodes[1..]);
      if nodes[0].kind == ChapterNode && currLayer < maxLayer {
        ProjectBounded(maxLayer, currLayer + 1, nodes[0].children);
      }
    }
  }

  /** A forest cut below `depth` further levels has at most `depth + 1`. */
  lemma {:induction false} PruneHeight(nodes: seq<Node>, depth: nat)
    ensures Height(Prune(nodes, depth)) <= depth + 1
    decreases nodes
  {
    if nodes != [] {
      PruneHeight(nodes[1..], depth);
      if depth > 0 {
        PruneHeight(nodes[0].children, depth - 1);
      }
    }
  }

  /** The skeleton holds chapters only, at every level. */
  predicate AllChapters(nodes: seq<Node>)
    decreases nodes
  {
    forall i :: 0 <= i < |nodes| ==> nodes[i].kind == ChapterNode && AllChapters(nodes[i].children)
  }

  lemma {:induction false} SkeletonChapters(nodes: seq<Node>)
    ensures AllChapters(Skeleton(nodes))
    decreases nodes
  {
    if nodes != [] {
      SkeletonChapters(nodes[1..]);
      if nodes[0].kind == ChapterNode {
        SkeletonChapters(nodes[0].children);
      }
    }
  }
}
