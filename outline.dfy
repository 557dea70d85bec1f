/**
 * `Convert.getHighlights` (src/convert.ts:65-114) as a pair of mutually
 * recursive functions over the input lines, each line first classified the
 * way the loop body tests it. `Scope(ks, pos, layer)` is one call
 * `getHighlights(layer)` made with the shared cursor at `pos`; it yields the
 * outline it returns and where it leaves the cursor. The
 * `Convert.GetHighlights` method is proved equal to it.
 */
module Outline {
  import opened Text
  import opened Types

  /** `line.match(/#/g)?.length || 0`: every '#' of the line counts. */
  function LineLayer(line: string): nat {
    CountChar(line, '#')
  }

  /** A non-blank line holding at least one '#' opens a chapter. */
  predicate IsHeading(line: string) {
    !IsBlank(line) && LineLayer(line) > 0
  }

  /** A non-blank line without '#' is highlight text. */
  predicate IsText(line: string) {
    !IsBlank(line) && LineLayer(line) == 0
  }

  /** `line.replace(/#/g, '').trim()`. */
  function TitleOf(line: string): string {
    Trim(RemoveChar(line, '#'))
  }

  /** How the loop reads one line once the first line is behind it: a blank
      line, a line of highlight text, or a heading with its layer and its
      title. */
  datatype LineKind = Blank | Highlight(text: string) | Heading(depth: nat, title: string)

  /** The tests of the loop body, in their order: `line.trim() === ''`
      (`IsBlank`, by `Text.BlankIff`), then `lineLayer === 0`. */
  function Classify(line: string): LineKind {
    if IsBlank(line) then Blank
    else if LineLayer(line) == 0 then Highlight(line)
    else Heading(LineLayer(line), TitleOf(line))
  }

  /** Every line classified. */
  function Kinds(lines: seq<string>): seq<LineKind> {
    seq(|lines|, i requires 0 <= i < |lines| => Classify(lines[i]))
  }

  /** `result.length ? result : highLightResult`. */
  function Finish(result: seq<string>, hl: seq<(string, HNode)>): HNode {
    if |result| > 0 then Leaves(result) else Map(hl)
  }

  /** The `while` loop of one call over the classified lines `ks`, from
      cursor `pos` with the loop's local state `cache`, `result` and
      `highLightResult`. Line 0 is the book name and is only stepped over. */
  function Loop(ks: seq<LineKind>, pos: nat, layer: nat, cache: string,
                result: seq<string>, hl: seq<(string, HNode)>): (r: (HNode, nat))
    requires pos <= |ks|
    ensures pos <= r.1 <= |ks|
    decreases |ks| - pos, 0
  {
    if pos == |ks| then (Finish(result, hl), pos)
    else if pos == 0 then Loop(ks, 1, layer, cache, result, hl)
    else match ks[pos]
      case Blank =>
        Loop(ks, pos + 1, layer, "", if cache != "" then result + [cache] else result, hl)
      case Highlight(text) =>
        Loop(ks, pos + 1, layer, if cache != "" then cache + "\n" + text else text, result, hl)
      case Heading(depth, title) =>
        if depth <= layer then (Finish(result, hl), pos)
        else
          var sub := Scope(ks, pos + 1, depth);
          Loop(ks, sub.1, layer, cache, result, Put(hl, title, sub.0))
  }

  /** One call `getHighlights(layer)` with the cursor at `pos`. */
  function Scope(ks: seq<LineKind>, pos: nat, layer: nat): (r: (HNode, nat))
    requires pos <= |ks|
    ensures pos <= r.1 <= |ks|
    decreases |ks| - pos, 1
  {
    Loop(ks, pos, layer, "", [], [])
  }

  /** The entry point's `getHighlights()` on a fresh converter. */
  function Parse(lines: seq<string>): HNode {
    Scope(Kinds(lines), 0, 0).0
  }

  // ---------------------------------------------------------------------
  // One step of the loop

  /** `ks` classifies every line of `lines`. */
  predicate Classified(ks: seq<LineKind>, lines: seq<string>) {
    |ks| == |lines| && forall i {:trigger Classify(lines[i])} :: 0 <= i < |lines| ==> ks[i] == Classify(lines[i])
  }

  lemma KindsClassified(lines: seq<string>)
    ensures Classified(Kinds(lines), lines)
  {
  }

  lemma BlankStep(ks: seq<LineKind>, lines: seq<string>, pos: nat, layer: nat, cache: string,
                  result: seq<string>, hl: seq<(string, HNode)>)
    requires Classified(ks, lines) && 1 <= pos < |lines| && IsBlank(lines[pos])
    ensures Loop(ks, pos, layer, cache, result, hl)
         == Loop(ks, pos + 1, layer, "", if cache != "" then result + [cache] else result, hl)
  {
    assert ks[pos] == Classify(lines[pos]);
  }

  lemma TextStep(ks: seq<LineKind>, lines: seq<string>, pos: nat, layer: nat, cache: string,
                 result: seq<string>, hl: seq<(string, HNode)>)
    requires Classified(ks, lines) && 1 <= pos < |lines| && IsText(lines[pos])
    ensures Loop(ks, pos, layer, cache, result, hl)
         == Loop(ks, pos + 1, layer, if cache != "" then cache + "\n" + lines[pos] else lines[pos], result, hl)
  {
    assert ks[pos] == Classify(lines[pos]);
  }

  lemma HeadingStep(lines: seq<string>, pos: nat, layer: nat, cache: string,
                    result: seq<string>, hl: seq<(string, HNode)>)
    requires 1 <= pos < |lines| && IsHeading(lines[pos])
    ensures var line := lines[pos];
      var sub := Scope(Kinds(lines), pos + 1, LineLayer(line));
      Loop(Kinds(lines), pos, layer, cache, result, hl)
        == if LineLayer(line) <= layer then (Finish(result, hl), pos)
           else Loop(Kinds(lines), sub.1, layer, cache, result, Put(hl, TitleOf(line), sub.0))
  {
  }

  // ---------------------------------------------------------------------
  // Where a scope stops

  /** A scope stops at the end of the input, or on a heading not deeper
      than its own layer, which it leaves for its caller to read. */
  lemma {:induction false} LoopStop(ks: seq<LineKind>, pos: nat, layer: nat, cache: string,
                                    result: seq<string>, hl: seq<(string, HNode)>)
    requires pos <= |ks|
    ensures var stop := Loop(ks, pos, layer, cache, result, hl).1;
      stop == |ks| || (0 < stop && ks[stop].Heading? && ks[stop].depth <= layer)
    decreases |ks| - pos
  {
    if pos == 0 && pos < |ks| {
      LoopStop(ks, 1, layer, cache, result, hl);
    } else if pos < |ks| {
      match ks[pos]
      case Blank =>
        LoopStop(ks, pos + 1, layer, "", if cache != "" then result + [cache] else result, hl);
      case Highlight(text) =>
        LoopStop(ks, pos + 1, layer, if cache != "" then cache + "\n" + text else text, result, hl);
      case Heading(depth, title) =>
        if depth > layer {
          var sub := Scope(ks, pos + 1, depth);
          LoopStop(ks, sub.1, layer, cache, result, Put(hl, title, sub.0));
        }
    }
  }

  lemma ScopeStop(ks: seq<LineKind>, pos: nat, layer: nat)
    requires pos <= |ks|
    ensures var stop := Scope(ks, pos, layer).1;
      stop == |ks| || (0 < stop && ks[stop].Heading? && ks[stop].depth <= layer)
  {
    LoopStop(ks, pos, layer, "", [], []);
  }

  /** The outermost call reads the whole input. */
  lemma ParseReadsAll(lines: seq<string>)
    ensures Scope(Kinds(lines), 0, 0).1 == |lines|
  {
    ScopeStop(Kinds(lines), 0, 0);
  }

  // ---------------------------------------------------------------------
  // Paragraphs: an independent description by splitting at blank lines

  /** Index of the first blank line, or `|ls|`. */
  function FirstBlank(ls: seq<string>): (k: nat)
    ensures k <= |ls|
    ensures forall i :: 0 <= i < k ==> !IsBlank(ls[i])
    ensures k < |ls| ==> IsBlank(ls[k])
  {
    if ls == [] then 0 else if IsBlank(ls[0]) then 0 else 1 + FirstBlank(ls[1..])
  }

  /** The paragraphs a run of non-heading lines records: each maximal group
      of non-blank lines that a blank line closes, joined by '\n'. A group
      that no blank line closes is not recorded. */
  function Paras(ls: seq<string>): seq<string>
    decreases |ls|
  {
    var k := FirstBlank(ls);
    if k == |ls| then []
    else (if k > 0 then [Join(ls[..k], "\n")] else []) + Paras(ls[k + 1..])
  }

  /** The lines after the last blank line: the group still pending. */
  function Pending(ls: seq<string>): seq<string>
    decreases |ls|
  {
    var k := FirstBlank(ls);
    if k == |ls| then ls else Pending(ls[k + 1..])
  }

  /** Index of the first heading at or after `pos`, or `|lines|`. */
  function NextHeading(lines: seq<string>, pos: nat): (k: nat)
    requires pos <= |lines|
    ensures pos <= k <= |lines|
    ensures forall i :: pos <= i < k ==> !IsHeading(lines[i])
    ensures k < |lines| ==> IsHeading(lines[k])
    decreases |lines| - pos
  {
    if pos == |lines| || IsHeading(lines[pos]) then pos else NextHeading(lines, pos + 1)
  }

  lemma BlankEmpty()
    ensures IsBlank("")
  {
  }

  /** Text lines joined by '\n' give "" only when there are none. */
  lemma {:induction false} JoinTextEmpty(pend: seq<string>)
    requires forall j :: 0 <= j < |pend| ==> IsText(pend[j])
    ensures Join(pend, "\n") == "" <==> pend == []
    ensures '#' !in Join(pend, "\n")
  {
    BlankEmpty();
    if pend != [] {
      if |pend| > 1 {
        JoinTextEmpty(pend[1..]);
      }
      CountCharZero(pend[0], '#');
      assert pend[0] != "";
    }
  }

  /** A blank line closes the pending group. */
  lemma ParasAtBlank(pend: seq<string>, b: string, rest: seq<string>)
    requires forall j :: 0 <= j < |pend| ==> !IsBlank(pend[j])
    requires IsBlank(b)
    ensures Paras(pend + [b] + rest) == (if pend == [] then [] else [Join(pend, "\n")]) + Paras(rest)
    ensures Pending(pend + [b] + rest) == Pending(rest)
  {
    var ls := pend + [b] + rest;
    assert FirstBlank(ls) == |pend| by {
      FirstBlankAt(ls, |pend|);
    }
    assert ls[..|pend|] == pend;
    assert ls[|pend| + 1..] == rest;
  }

  lemma FirstBlankAt(ls: seq<string>, k: nat)
    requires k < |ls| && IsBlank(ls[k])
    requires forall i :: 0 <= i < k ==> !IsBlank(ls[i])
    ensures FirstBlank(ls) == k
  {
  }

  /** Across a run of non-heading lines the loop records exactly the
      paragraphs `Paras` describes and carries the pending group along. */
  lemma {:induction false} TextRun(ks: seq<LineKind>, lines: seq<string>, pos: nat, k: nat, layer: nat, pend: seq<string>,
                                   result: seq<string>, hl: seq<(string, HNode)>)
    requires Classified(ks, lines) && 1 <= pos <= k <= |lines|
    requires forall i :: pos <= i < k ==> !IsHeading(lines[i])
    requires forall j :: 0 <= j < |pend| ==> IsText(pend[j])
    ensures var ls := pend + lines[pos..k];
      Loop(ks, pos, layer, Join(pend, "\n"), result, hl)
        == Loop(ks, k, layer, Join(Pending(ls), "\n"), result + Paras(ls), hl)
    decreases k - pos, 1
  {
    if pos == k {
      var ls := pend + lines[pos..k];
      assert ls == pend;
      assert FirstBlank(pend) == |pend|;
      assert result + Paras(ls) == result;
    } else if IsBlank(lines[pos]) {
      TextRunBlank(ks, lines, pos, k, layer, pend, result, hl);
    } else {
      TextRunText(ks, lines, pos, k, layer, pend, result, hl);
    }
  }

  lemma {:induction false} TextRunBlank(ks: seq<LineKind>, lines: seq<string>, pos: nat, k: nat, layer: nat, pend: seq<string>,
                                        result: seq<string>, hl: seq<(string, HNode)>)
    requires Classified(ks, lines) && 1 <= pos < k <= |lines| && IsBlank(lines[pos])
    requires forall i :: pos <= i < k ==> !IsHeading(lines[i])
    requires forall j :: 0 <= j < |pend| ==> IsText(pend[j])
    ensures var ls := pend + lines[pos..k];
      Loop(ks, pos, layer, Join(pend, "\n"), result, hl)
        == Loop(ks, k, layer, Join(Pending(ls), "\n"), result + Paras(ls), hl)
    decreases k - pos, 0
  {
    var ls := pend + lines[pos..k];
    var line := lines[pos];
    var rest := lines[pos + 1..k];
    var cache := Join(pend, "\n");
    assert ls == pend + [line] + rest by {
      assert lines[pos..k] == [line] + rest;
    }
    var result' := if cache != "" then result + [cache] else result;
    assert result' + Paras(rest) == result + Paras(ls) && Pending(ls) == Pending(rest) by {
      JoinTextEmpty(pend);
      ParasAtBlank(pend, line, rest);
    }
    assert Loop(ks, pos, layer, cache, result, hl) == Loop(ks, pos + 1, layer, "", result', hl) by {
      BlankStep(ks, lines, pos, layer, cache, result, hl);
    }
    assert Loop(ks, pos + 1, layer, "", result', hl)
            == Loop(ks, k, layer, Join(Pending(rest), "\n"), result' + Paras(rest), hl) by {
      TextRunFresh(ks, lines, pos + 1, k, layer, result', hl);
    }
  }

  /** `TextRun` from an empty cache, as after a blank line. */
  lemma {:induction false} TextRunFresh(ks: seq<LineKind>, lines: seq<string>, pos: nat, k: nat, layer: nat,
                                        result: seq<string>, hl: seq<(string, HNode)>)
    requires Classified(ks, lines) && 1 <= pos <= k <= |lines|
    requires forall i :: pos <= i < k ==> !IsHeading(lines[i])
    ensures var ls := lines[pos..k];
      Loop(ks, pos, layer, "", result, hl)
        == Loop(ks, k, layer, Join(Pending(ls), "\n"), result + Paras(ls), hl)
    decreases k - pos, 2
  {
    assert [] + lines[pos..k] == lines[pos..k];
    assert Join([], "\n") == "";
    TextRun(ks, lines, pos, k, layer, [], result, hl);
  }

  lemma {:induction false} TextRunText(ks: seq<LineKind>, lines: seq<string>, pos: nat, k: nat, layer: nat, pend: seq<string>,
                                       result: seq<string>, hl: seq<(string, HNode)>)
    requires Classified(ks, lines) && 1 <= pos < k <= |lines| && !IsBlank(lines[pos])
    requires forall i :: pos <= i < k ==> !IsHeading(lines[i])
    requires forall j :: 0 <= j < |pend| ==> IsText(pend[j])
    ensures var ls := pend + lines[pos..k];
      Loop(ks, pos, layer, Join(pend, "\n"), result, hl)
        == Loop(ks, k, layer, Join(Pending(ls), "\n"), result + Paras(ls), hl)
    decreases k - pos, 0
  {
    var line := lines[pos];
    var rest := lines[pos + 1..k];
    var pend' := pend + [line];
    var ls := pend + lines[pos..k];
    assert Loop(ks, pos, layer, Join(pend, "\n"), result, hl)
            == Loop(ks, pos + 1, layer, Join(pend', "\n"), result, hl) by {
      assert IsText(line);
      JoinTextEmpty(pend);
      TextStep(ks, lines, pos, layer, Join(pend, "\n"), result, hl);
      JoinSnoc(pend, line, "\n");
    }
    assert Loop(ks, pos + 1, layer, Join(pend', "\n"), result, hl)
            == Loop(ks, k, layer, Join(Pending(ls), "\n"), result + Paras(ls), hl) by {
      assert pend' + rest == ls by {
        assert lines[pos..k] == [line] + rest;
      }
      TextRun(ks, lines, pos + 1, k, layer, pend', result, hl);
    }
  }

  /** Once a scope stands on a heading, no more paragraphs are recorded:
      it returns the paragraphs it had, or else a map that keeps the
      chapters it had, in their order, at its front. */
  lemma {:induction false} AfterHeading(ks: seq<LineKind>, pos: nat, layer: nat, cache: string,
                                        result: seq<string>, hl: seq<(string, HNode)>)
    requires 1 <= pos <= |ks|
    requires pos == |ks| || ks[pos].Heading?
    ensures var h := Loop(ks, pos, layer, cache, result, hl).0;
      (|result| > 0 ==> h == Leaves(result))
      && (|result| == 0 ==> h.Map? && |Keys(hl)| <= |Keys(h.entries)| && Keys(h.entries)[..|hl|] == Keys(hl))
    decreases |ks| - pos, 1
  {
    if pos < |ks| && ks[pos].depth > layer {
      AfterDeeperHeading(ks, pos, layer, cache, result, hl);
    }
  }

  /** The same when the heading is deeper than the scope, which then also
      keys a chapter by the heading's title. */
  lemma {:induction false} AfterDeeperHeading(ks: seq<LineKind>, pos: nat, layer: nat, cache: string,
                                              result: seq<string>, hl: seq<(string, HNode)>)
    requires 1 <= pos < |ks| && ks[pos].Heading? && ks[pos].depth > layer
    ensures var h := Loop(ks, pos, layer, cache, result, hl).0;
      (|result| > 0 ==> h == Leaves(result))
      && (|result| == 0 ==> h.Map? && |Keys(hl)| <= |Keys(h.entries)| && Keys(h.entries)[..|hl|] == Keys(hl))
    ensures var h := Loop(ks, pos, layer, cache, result, hl).0;
      |result| == 0 ==> h.Map? && ks[pos].title in Keys(h.entries)
    decreases |ks| - pos, 0
  {
    var sub := Scope(ks, pos + 1, ks[pos].depth);
    var hl' := Put(hl, ks[pos].title, sub.0);
    assert Loop(ks, pos, layer, cache, result, hl) == Loop(ks, sub.1, layer, cache, result, hl');
    assert sub.1 == |ks| || ks[sub.1].Heading? by {
      ScopeStop(ks, pos + 1, ks[pos].depth);
    }
    assert |Keys(hl)| <= |Keys(hl')| && Keys(hl')[..|hl|] == Keys(hl) by {
      PutKeys(hl, ks[pos].title, sub.0);
    }
    AfterHeading(ks, sub.1, layer, cache, result, hl');
    if |result| == 0 {
      var h := Loop(ks, sub.1, layer, cache, result, hl').0;
      PutKeys(hl, ks[pos].title, sub.0);
      PrefixOfPrefix(Keys(h.entries), Keys(hl'), Keys(hl), ks[pos].title);
    }
  }

  /** A prefix `b` of `a` that starts with `c` makes `c` a prefix of `a`;
      what `b` holds, `a` holds. */
  lemma PrefixOfPrefix(a: seq<string>, b: seq<string>, c: seq<string>, t: string)
    requires |b| <= |a| && a[..|b|] == b && |c| <= |b| && b[..|c|] == c && t in b
    ensures a[..|c|] == c && t in a
  {
    assert a[..|c|] == a[..|b|][..|c|];
    var j :| 0 <= j < |b| && b[j] == t;
    assert a[j] == a[..|b|][j];
  }

  /** What one scope returns. Let `k` be its first heading (or the end of
      the input): if the lines before `k` record any paragraph, the scope
      returns exactly those paragraphs and discards whatever sub-chapters
      follow; otherwise it returns a map, whose first key is the title of
      the heading at `k` when that heading is deeper than the scope. */
  lemma ScopeShape(lines: seq<string>, pos: nat, layer: nat)
    requires 1 <= pos <= |lines|
    ensures var k := NextHeading(lines, pos);
      var ps := Paras(lines[pos..k]);
      var h := Scope(Kinds(lines), pos, layer).0;
      (|ps| > 0 ==> h == Leaves(ps))
      && (|ps| == 0 ==> h.Map?)
      && (|ps| == 0 && k < |lines| && LineLayer(lines[k]) > layer ==>
            |h.entries| > 0 && h.entries[0].0 == TitleOf(lines[k]))
  {
    var ks := Kinds(lines);
    var k := NextHeading(lines, pos);
    var ls := lines[pos..k];
    var cache := Join(Pending(ls), "\n");
    var ps := Paras(ls);
    assert Scope(ks, pos, layer) == Loop(ks, k, layer, cache, ps, []) by {
      KindsClassified(lines);
      TextRunFresh(ks, lines, pos, k, layer, [], []);
      assert [] + ps == ps;
    }
    AfterHeading(ks, k, layer, cache, ps, []);
    if |ps| == 0 && k < |lines| && LineLayer(lines[k]) > layer {
      FirstChapterKey(ks, k, layer, cache);
    }
  }

  /** A scope with no paragraph that reaches a deeper heading keys its
      first entry by that heading's title. */
  lemma FirstChapterKey(ks: seq<LineKind>, k: nat, layer: nat, cache: string)
    requires 1 <= k < |ks| && ks[k].Heading? && ks[k].depth > layer
    ensures var h := Loop(ks, k, layer, cache, [], []).0;
      h.Map? && |h.entries| > 0 && h.entries[0].0 == ks[k].title
  {
    var sub := Scope(ks, k + 1, ks[k].depth);
    var hl' := Put([], ks[k].title, sub.0);
    assert hl' == [(ks[k].title, sub.0)];
    assert Loop(ks, k, layer, cache, [], []) == Loop(ks, sub.1, layer, cache, [], hl');
    assert sub.1 == |ks| || ks[sub.1].Heading? by {
      ScopeStop(ks, k + 1, ks[k].depth);
    }
    AfterHeading(ks, sub.1, layer, cache, [], hl');
    var h := Loop(ks, sub.1, layer, cache, [], hl').0;
    assert Keys(h.entries)[..1] == [ks[k].title];
  }

  /** `e` is what a scope's loop stores for a deeper heading it meets at
      some `p` in `lo..hi`: that heading's title over the outline the
      nested call for it returned. */
  predicate HeadingEntry(ks: seq<LineKind>, lo: nat, hi: nat, layer: nat, e: (string, HNode))
    requires hi <= |ks|
  {
    exists p :: lo <= p < hi && ks[p].Heading? && ks[p].depth > layer
                && e == (ks[p].title, Scope(ks, p + 1, ks[p].depth).0)
  }

  lemma HeadingEntryWiden(ks: seq<LineKind>, lo: nat, lo': nat, hi: nat, layer: nat, e: (string, HNode))
    requires lo' <= lo && hi <= |ks| && HeadingEntry(ks, lo, hi, layer, e)
    ensures HeadingEntry(ks, lo', hi, layer, e)
  {
    var p :| lo <= p < hi && ks[p].Heading? && ks[p].depth > layer
             && e == (ks[p].title, Scope(ks, p + 1, ks[p].depth).0);
  }

  /** Every entry of the map the loop returns was there when it started or
      was stored for a deeper heading the loop met. */
  lemma {:induction false} LoopEntries(ks: seq<LineKind>, pos: nat, layer: nat, cache: string,
                                       result: seq<string>, hl: seq<(string, HNode)>)
    requires pos <= |ks|
    ensures var r := Loop(ks, pos, layer, cache, result, hl);
      r.0.Map? ==> forall e :: e in r.0.entries ==> e in hl || HeadingEntry(ks, pos, r.1, layer, e)
    decreases |ks| - pos
  {
    var r := Loop(ks, pos, layer, cache, result, hl);
    if pos == |ks| {
    } else if pos == 0 {
      LoopEntries(ks, 1, layer, cache, result, hl);
      forall e | r.0.Map? && e in r.0.entries && e !in hl ensures HeadingEntry(ks, pos, r.1, layer, e) {
        HeadingEntryWiden(ks, 1, pos, r.1, layer, e);
      }
    } else {
      match ks[pos]
      case Blank =>
        LoopEntries(ks, pos + 1, layer, "", if cache != "" then result + [cache] else result, hl);
        forall e | r.0.Map? && e in r.0.entries && e !in hl ensures HeadingEntry(ks, pos, r.1, layer, e) {
          HeadingEntryWiden(ks, pos + 1, pos, r.1, layer, e);
        }
      case Highlight(text) =>
        LoopEntries(ks, pos + 1, layer, if cache != "" then cache + "\n" + text else text, result, hl);
        forall e | r.0.Map? && e in r.0.entries && e !in hl ensures HeadingEntry(ks, pos, r.1, layer, e) {
          HeadingEntryWiden(ks, pos + 1, pos, r.1, layer, e);
        }
      case Heading(depth, title) =>
        if depth > layer {
          var sub := Scope(ks, pos + 1, depth);
          var hl' := Put(hl, title, sub.0);
          assert r == Loop(ks, sub.1, layer, cache, result, hl');
          LoopEntries(ks, sub.1, layer, cache, result, hl');
          PutFrom(hl, title, sub.0);
          forall e | r.0.Map? && e in r.0.entries && e !in hl ensures HeadingEntry(ks, pos, r.1, layer, e) {
            if e == (title, sub.0) {
              assert pos < r.1 && ks[pos].title == title && ks[pos].depth == depth;
            } else {
              HeadingEntryWiden(ks, sub.1, pos, r.1, layer, e);
            }
          }
        }
    }
  }

  /** Every chapter of a map that a scope returns is the title of a deeper
      heading the scope met, over what the nested call for that heading
      returned. */
  lemma ScopeEntries(ks: seq<LineKind>, pos: nat, layer: nat)
    requires pos <= |ks|
    ensures var r := Scope(ks, pos, layer);
      r.0.Map? ==> forall e :: e in r.0.entries ==> HeadingEntry(ks, pos, r.1, layer, e)
  {
    LoopEntries(ks, pos, layer, "", [], []);
  }

  /** An entry stays in the loop's map as long as no heading the loop
      reaches carries its key again. */
  lemma {:induction false} LoopKeeps(ks: seq<LineKind>, pos: nat, layer: nat, cache: string,
                                     result: seq<string>, hl: seq<(string, HNode)>, e: (string, HNode))
    requires pos <= |ks| && e in hl
    requires forall p :: pos <= p < Loop(ks, pos, layer, cache, result, hl).1 && ks[p].Heading? ==> ks[p].title != e.0
    ensures var h := Loop(ks, pos, layer, cache, result, hl).0;
      h.Map? ==> e in h.entries
    decreases |ks| - pos
  {
    if pos == |ks| {
    } else if pos == 0 {
      LoopKeeps(ks, 1, layer, cache, result, hl, e);
    } else {
      match ks[pos]
      case Blank =>
        LoopKeeps(ks, pos + 1, layer, "", if cache != "" then result + [cache] else result, hl, e);
      case Highlight(text) =>
        LoopKeeps(ks, pos + 1, layer, if cache != "" then cache + "\n" + text else text, result, hl, e);
      case Heading(depth, title) =>
        if depth > layer {
          var sub := Scope(ks, pos + 1, depth);
          var hl' := Put(hl, title, sub.0);
          assert Loop(ks, pos, layer, cache, result, hl) == Loop(ks, sub.1, layer, cache, result, hl');
          assert title != e.0;
          PutKeeps(hl, title, sub.0, e);
          LoopKeeps(ks, sub.1, layer, cache, result, hl', e);
        }
    }
  }

  /** A deeper heading under the cursor of a scope without paragraphs
      becomes a chapter: its title is a key of the map returned, and the
      value stored under it is what the nested call for it returned unless
      a later heading of the same call carries the same title (assignment
      then overwrites it). */
  lemma DeeperHeadingEntry(ks: seq<LineKind>, pos: nat, layer: nat, cache: string, hl: seq<(string, HNode)>)
    requires 1 <= pos < |ks| && ks[pos].Heading? && ks[pos].depth > layer
    ensures var r := Loop(ks, pos, layer, cache, [], hl);
      var sub := Scope(ks, pos + 1, ks[pos].depth);
      r.0.Map? && ks[pos].title in Keys(r.0.entries)
      && ((forall p :: sub.1 <= p < r.1 && ks[p].Heading? ==> ks[p].title != ks[pos].title)
            ==> (ks[pos].title, sub.0) in r.0.entries)
  {
    AfterDeeperHeading(ks, pos, layer, cache, [], hl);
    var sub := Scope(ks, pos + 1, ks[pos].depth);
    var hl' := Put(hl, ks[pos].title, sub.0);
    var r := Loop(ks, pos, layer, cache, [], hl);
    assert r == Loop(ks, sub.1, layer, cache, [], hl');
    if forall p :: sub.1 <= p < r.1 && ks[p].Heading? ==> ks[p].title != ks[pos].title {
      PutEntries(hl, ks[pos].title, sub.0);
      LoopKeeps(ks, sub.1, layer, cache, [], hl', (ks[pos].title, sub.0));
    }
  }

  /** The same for the whole input, whose first line only names the book. */
  lemma ParseShape(lines: seq<string>)
    requires |lines| >= 1
    ensures var k := NextHeading(lines, 1);
      var ps := Paras(lines[1..k]);
      (|ps| > 0 ==> Parse(lines) == Leaves(ps)) && (|ps| == 0 ==> Parse(lines).Map?)
  {
    assert Scope(Kinds(lines), 0, 0) == Loop(Kinds(lines), 0, 0, "", [], []);
    assert Loop(Kinds(lines), 0, 0, "", [], []) == Loop(Kinds(lines), 1, 0, "", [], []);
    ScopeShape(lines, 1, 0);
  }

  // ---------------------------------------------------------------------
  // Well-formed outlines

  /** Every highlight list is non-empty and holds non-empty '#'-free texts;
      every map has distinct, '#'-free keys. */
  predicate WellFormed(h: HNode) {
    match h
    case Leaves(items) => |items| > 0 && forall i :: 0 <= i < |items| ==> items[i] != "" && '#' !in items[i]
    case Map(es) => DistinctKeys(es) && forall i :: 0 <= i < |es| ==> '#' !in es[i].0 && WellFormed(es[i].1)
  }

  predicate GoodItems(items: seq<string>) {
    forall i :: 0 <= i < |items| ==> items[i] != "" && '#' !in items[i]
  }

  predicate GoodEntries(es: seq<(string, HNode)>) {
    DistinctKeys(es) && forall i :: 0 <= i < |es| ==> '#' !in es[i].0 && WellFormed(es[i].1)
  }

  lemma {:induction false} PutFrom(es: seq<(string, HNode)>, key: string, value: HNode)
    ensures forall e :: e in Put(es, key, value) ==> e == (key, value) || e in es
  {
    if es != [] && es[0].0 != key {
      PutFrom(es[1..], key, value);
      assert forall e :: e in es[1..] ==> e in es;
    }
  }

  lemma PutGood(es: seq<(string, HNode)>, key: string, value: HNode)
    requires GoodEntries(es) && '#' !in key && WellFormed(value)
    ensures GoodEntries(Put(es, key, value))
  {
    PutDistinct(es, key, value);
    PutFrom(es, key, value);
    var r := Put(es, key, value);
    forall i | 0 <= i < |r| ensures '#' !in r[i].0 && WellFormed(r[i].1) {
      assert r[i] in r;
      if r[i] != (key, value) {
        var j :| 0 <= j < |es| && es[j] == r[i];
      }
    }
  }

  /** The kinds `Classify` yields: highlight text is non-empty and free of
      '#', a heading has a positive layer and a '#'-free title. */
  predicate GoodKind(k: LineKind) {
    match k
    case Blank => true
    case Highlight(text) => text != "" && '#' !in text
    case Heading(depth, title) => depth > 0 && '#' !in title
  }

  lemma ClassifyGood(line: string)
    ensures GoodKind(Classify(line))
  {
    if !IsBlank(line) {
      BlankEmpty();
      CountCharZero(line, '#');
      TrimShape(RemoveChar(line, '#'));
    }
  }

  lemma FinishWellFormed(result: seq<string>, hl: seq<(string, HNode)>)
    requires GoodItems(result) && GoodEntries(hl)
    ensures WellFormed(Finish(result, hl))
  {
  }

  lemma {:induction false} LoopWellFormed(ks: seq<LineKind>, pos: nat, layer: nat, cache: string,
                                          result: seq<string>, hl: seq<(string, HNode)>)
    requires pos <= |ks| && forall i :: 0 <= i < |ks| ==> GoodKind(ks[i])
    requires '#' !in cache && GoodItems(result) && GoodEntries(hl)
    ensures WellFormed(Loop(ks, pos, layer, cache, result, hl).0)
    decreases |ks| - pos, 0
  {
    if pos == |ks| {
      FinishWellFormed(result, hl);
    } else if pos == 0 {
      LoopWellFormed(ks, 1, layer, cache, result, hl);
    } else {
      assert GoodKind(ks[pos]);
      match ks[pos]
      case Blank =>
        LoopWellFormed(ks, pos + 1, layer, "", if cache != "" then result + [cache] else result, hl);
      case Highlight(text) =>
        LoopWellFormed(ks, pos + 1, layer, if cache != "" then cache + "\n" + text else text, result, hl);
      case Heading(depth, title) =>
        if depth <= layer {
          FinishWellFormed(result, hl);
        } else {
          var sub := Scope(ks, pos + 1, depth);
          ScopeWellFormed(ks, pos + 1, depth);
          PutGood(hl, title, sub.0);
          LoopWellFormed(ks, sub.1, layer, cache, result, Put(hl, title, sub.0));
        }
    }
  }

  lemma {:induction false} ScopeWellFormed(ks: seq<LineKind>, pos: nat, layer: nat)
    requires pos <= |ks| && forall i :: 0 <= i < |ks| ==> GoodKind(ks[i])
    ensures WellFormed(Scope(ks, pos, layer).0)
    decreases |ks| - pos, 1
  {
    LoopWellFormed(ks, pos, layer, "", [], []);
  }

  /** Every outline the parser builds is well formed. */
  lemma ParseWellFormed(lines: seq<string>)
    ensures WellFormed(Parse(lines))
  {
    var ks := Kinds(lines);
    forall i | 0 <= i < |ks| ensures GoodKind(ks[i]) {
      ClassifyGood(lines[i]);
    }
    ScopeWellFormed(ks, 0, 0);
  }
}
