/**
 * The shapes the converter passes around: the template context (`Format`),
 * the keyed outline (`Highlight`), front-matter properties (`Property`),
 * the configuration, the documents it writes, and its errors.
 */
module Types {

  datatype Option<+T> = None | Some(value: T)

  datatype Result<+T, +E> = Ok(value: T) | Err(error: E) {
    predicate IsFailure() { Err? }
    function PropagateFailure<U>(): Result<U, E> requires Err? { Err(error) }
    function Extract(): T requires Ok? { value }
  }

  /** The exceptions the converter throws; each aborts the whole run. */
  datatype Error =
    | ChapterNameRequired
    | HighlightTextRequired
    | HighlightNumberRequired
    | MindMapFolderRequired
    | CallStackExceeded

  /** The errors a template throws when its context lacks a value. */
  predicate ContextError(e: Error) {
    e.ChapterNameRequired? || e.HighlightTextRequired? || e.HighlightNumberRequired?
  }

  /** The message the converter's `Error` carries. */
  function Message(e: Error): string {
    match e
    case ChapterNameRequired => "chapter_name is required"
    case HighlightTextRequired => "highlight_text is required"
    case HighlightNumberRequired => "highlight_number is required"
    case MindMapFolderRequired => "mindMapFolder is required"
    case CallStackExceeded => "Maximum call stack size exceeded"
  }

  /** The optional context of one placeholder substitution. */
  datatype Format = Format(chapterName: Option<string>, highlightText: Option<string>, highlightNumber: Option<int>)

  const EmptyFormat := Format(None, None, None)

  /** JavaScript truthiness of an optional string: present and not "". */
  predicate TruthyText(s: Option<string>) {
    s.Some? && s.value != ""
  }

  /** JavaScript truthiness of an optional number: present and not 0. */
  predicate TruthyNumber(n: Option<int>) {
    n.Some? && n.value != 0
  }

  /** The keyed outline: either the highlight texts of one scope or its
      sub-chapters, keyed by title in insertion order. */
  datatype HNode = Leaves(items: seq<string>) | Map(entries: seq<(string, HNode)>)

  /** A front-matter value: one templated string or a list of them. */
  datatype PropValue = Scalar(text: string) | Items(list: seq<string>)

  /** A front-matter property map, in its declared key order. */
  type Property = seq<(string, PropValue)>

  datatype Properties = Properties(book: Option<Property>, chapter: Option<Property>,
                                   highlight: Option<Property>, mindMap: Option<Property>)

  datatype Config = Config(
    bookPath: string,
    chapterPath: string,
    highlightsPath: string,
    generatedMindMap: bool,
    mindMapPath: Option<string>,
    properties: Properties)

  /** One file the converter writes: its path and its full text. */
  datatype Doc = Doc(path: string, content: string)

  /** The calendar date `new Date()` reports: year, month 1-12, day 1-31. */
  datatype Date = Date(year: int, month: nat, day: nat)

  function Keys(es: seq<(string, HNode)>): (ks: seq<string>)
    ensures |ks| == |es|
    ensures forall i :: 0 <= i < |es| ==> ks[i] == es[i].0
  {
    if es == [] then [] else [es[0].0] + Keys(es[1..])
  }

  predicate DistinctKeys(es: seq<(string, HNode)>) {
    forall i, j :: 0 <= i < j < |es| ==> es[i].0 != es[j].0
  }

  /** `obj[key] = value` on an insertion-ordered object: an existing key
      keeps its position and gets the new value; a new key goes last. */
  function Put(es: seq<(string, HNode)>, key: string, value: HNode): (r: seq<(string, HNode)>)
    ensures |es| <= |r| <= |es| + 1
  {
    if es == [] then [(key, value)]
    else if es[0].0 == key then [(key, value)] + es[1..]
    else [es[0]] + Put(es[1..], key, value)
  }

  /** `Put` keeps the key order, appending a key only when it is new. */
  lemma {:induction false} PutKeys(es: seq<(string, HNode)>, key: string, value: HNode)
    ensures Keys(Put(es, key, value)) == if key in Keys(es) then Keys(es) else Keys(es) + [key]
  {
    if es != [] && es[0].0 != key {
      PutKeys(es[1..], key, value);
      assert Keys(es) == [es[0].0] + Keys(es[1..]);
    }
  }

  /** `Put` leaves every entry under another key where it was, and holds the new pair. */
  lemma {:induction false} PutEntries(es: seq<(string, HNode)>, key: string, value: HNode)
    ensures forall i :: 0 <= i < |es| && es[i].0 != key ==> Put(es, key, value)[i] == es[i]
    ensures (key, value) in Put(es, key, value)
  {
    if es == [] {
      assert Put(es, key, value)[0] == (key, value);
    } else if es[0].0 == key {
      assert Put(es, key, value)[0] == (key, value);
    } else {
      PutEntries(es[1..], key, value);
      var t := Put(es[1..], key, value);
      assert Put(es, key, value) == [es[0]] + t;
      forall i | 0 <= i < |es| && es[i].0 != key ensures Put(es, key, value)[i] == es[i] {
        if i > 0 {
          assert es[1..][i - 1] == es[i];
        }
      }
    }
  }

  /** Every entry after `Put` was there before or is the new pair. */
  lemma {:induction false} PutFrom(es: seq<(string, HNode)>, key: string, value: HNode)
    ensures forall e :: e in Put(es, key, value) ==> e in es || e == (key, value)
  {
    if es != [] && es[0].0 != key {
      PutFrom(es[1..], key, value);
      assert Put(es, key, value) == [es[0]] + Put(es[1..], key, value);
      forall e | e in Put(es[1..], key, value) ensures e in es || e == (key, value) {
        if e in es[1..] {
          var j :| 0 <= j < |es[1..]| && es[1..][j] == e;
          assert es[j + 1] == e;
        }
      }
    } else if es != [] {
      assert Put(es, key, value) == [(key, value)] + es[1..];
      forall e | e in es[1..] ensures e in es {
        var j :| 0 <= j < |es[1..]| && es[1..][j] == e;
        assert es[j + 1] == e;
      }
    }
  }

  /** An entry under another key survives `Put`. */
  lemma PutKeeps(es: seq<(string, HNode)>, key: string, value: HNode, e: (string, HNode))
    requires e in es && e.0 != key
    ensures e in Put(es, key, value)
  {
    PutEntries(es, key, value);
    var i :| 0 <= i < |es| && es[i] == e;
    assert Put(es, key, value)[i] == e;
  }

  /** Distinct keys stay distinct under `Put`. */
  lemma PutDistinct(es: seq<(string, HNode)>, key: string, value: HNode)
    requires DistinctKeys(es)
    ensures DistinctKeys(Put(es, key, value))
  {
    PutKeys(es, key, value);
    var r := Put(es, key, value);
    var ks := Keys(r);
    forall i, j | 0 <= i < j < |r| ensures r[i].0 != r[j].0 {
      assert r[i].0 == ks[i] && r[j].0 == ks[j];
      if j < |es| {
        assert ks[i] == es[i].0 && ks[j] == es[j].0;
      } else {
        assert key !in Keys(es) && ks[j] == key && ks[i] == Keys(es)[i];
      }
    }
  }

  /** A key not yet present is appended after all existing entries. */
  lemma {:induction false} PutNew(es: seq<(string, HNode)>, key: string, value: HNode)
    requires key !in Keys(es)
    ensures Put(es, key, value) == es + [(key, value)]
  {
    if es != [] {
      assert Keys(es)[0] == es[0].0 && Keys(es[1..]) == Keys(es)[1..];
      PutNew(es[1..], key, value);
      assert [es[0]] + (es[1..] + [(key, value)]) == es + [(key, value)];
    }
  }
}
