/**
 * The JavaScript string operations the converter relies on, stated over
 * `string` (a `seq<char>`): `trim`, the `\s` class, counting and removing one
 * character (`match(/#/g).length`, `replace(/#/g, '')`), global literal
 * replacement (`replace(/{tag}/g, v)`), `join`, `repeat`, `padStart(2, '0')`
 * and the decimal rendering of an integer.
 */
module Text {

  /** The code points JavaScript's `trim` removes and `\s` matches
      (WhiteSpace and LineTerminator of ECMA-262). */
  predicate IsWhitespace(c: char) {
    c == '\t' || c == '\n' || c == '\U{000B}' || c == '\U{000C}' || c == '\r' || c == ' '
    || c == '\U{00A0}' || c == '\U{1680}' || ('\U{2000}' <= c <= '\U{200A}')
    || c == '\U{2028}' || c == '\U{2029}' || c == '\U{202F}' || c == '\U{205F}'
    || c == '\U{3000}' || c == '\U{FEFF}'
  }

  /** `s.trimStart()`: the suffix left after dropping leading white space. */
  function TrimStart(s: string): (r: string)
    ensures |r| <= |s| && r == s[|s| - |r|..]
    ensures r != [] ==> !IsWhitespace(r[0])
    ensures forall i :: 0 <= i < |s| - |r| ==> IsWhitespace(s[i])
  {
    if s != [] && IsWhitespace(s[0]) then TrimStart(s[1..]) else s
  }

  /** `s.trimEnd()`: the prefix left after dropping trailing white space. */
  function TrimEnd(s: string): (r: string)
    ensures |r| <= |s| && r == s[..|r|]
    ensures r != [] ==> !IsWhitespace(r[|r| - 1])
    ensures forall i :: |r| <= i < |s| ==> IsWhitespace(s[i])
  {
    if s != [] && IsWhitespace(s[|s| - 1]) then TrimEnd(s[..|s| - 1]) else s
  }

  /** `s.trim()`. */
  function Trim(s: string): string {
    TrimEnd(TrimStart(s))
  }

  /** A line made of white space only. */
  predicate IsBlank(s: string) {
    forall i :: 0 <= i < |s| ==> IsWhitespace(s[i])
  }

  /** `trim` leaves no white space at either end. */
  lemma TrimEdges(s: string)
    ensures Trim(s) != [] ==> !IsWhitespace(Trim(s)[0]) && !IsWhitespace(Trim(s)[|Trim(s)| - 1])
  {
    var t := TrimStart(s);
    var r := TrimEnd(t);
    if r != [] {
      assert r == t[..|r|];
      assert r[0] == t[0];
    }
  }

  /** What `trim` keeps is the piece of its input that starts after the
      leading white space. */
  lemma TrimSlice(s: string)
    ensures |s| - |TrimStart(s)| + |Trim(s)| <= |s|
    ensures Trim(s) == s[|s| - |TrimStart(s)|..|s| - |TrimStart(s)| + |Trim(s)|]
  {
    var t, r := TrimStart(s), Trim(s);
    assert r == TrimEnd(t) && |r| <= |t| && r == t[..|r|];
    SliceOfSlice(s, t, r);
  }

  /** A prefix `r` of a suffix `t` of `s` is a slice of `s`. */
  lemma SliceOfSlice(s: string, t: string, r: string)
    requires |t| <= |s| && t == s[|s| - |t|..] && |r| <= |t| && r == t[..|r|]
    ensures r == s[|s| - |t|..|s| - |t| + |r|]
  {
  }

  /** `trim` leaves no white space at either end, and what it keeps is the
      piece of its input that starts after the leading white space. */
  lemma TrimShape(s: string)
    ensures Trim(s) != [] ==> !IsWhitespace(Trim(s)[0]) && !IsWhitespace(Trim(s)[|Trim(s)| - 1])
    ensures |s| - |TrimStart(s)| + |Trim(s)| <= |s|
    ensures Trim(s) == s[|s| - |TrimStart(s)|..|s| - |TrimStart(s)| + |Trim(s)|]
  {
    TrimEdges(s);
    TrimSlice(s);
  }

  /** `line.trim() === ''` holds exactly for the blank lines. */
  lemma BlankIff(s: string)
    ensures Trim(s) == "" <==> IsBlank(s)
  {
    var t := TrimStart(s);
    var k := |s| - |t|;
    assert t != [] ==> t[0] == s[k];
    assert forall i :: k <= i < |s| ==> s[i] == t[i - k];
  }

  /** Number of occurrences of `c` in `s` (`s.match(/c/g)?.length || 0`). */
  function CountChar(s: string, c: char): nat {
    if s == [] then 0 else (if s[0] == c then 1 else 0) + CountChar(s[1..], c)
  }

  /** `s.replace(/c/g, '')`: `s` with every `c` removed, the rest in order. */
  function RemoveChar(s: string, c: char): (r: string)
    ensures c !in r
    ensures |r| + CountChar(s, c) == |s|
  {
    if s == [] then [] else (if s[0] == c then [] else [s[0]]) + RemoveChar(s[1..], c)
  }

  /** Removing a character works piece by piece: what is kept of `a + b`
      is what is kept of `a` followed by what is kept of `b`, and of one
      character either nothing or that character. */
  lemma {:induction false} RemoveCharSplit(a: string, b: string, c: char)
    ensures RemoveChar(a + b, c) == RemoveChar(a, c) + RemoveChar(b, c)
    ensures a != [] ==> RemoveChar([a[0]], c) == if a[0] == c then [] else [a[0]]
    decreases |a|
  {
    assert RemoveChar([], c) == [];
    if a == [] {
      assert a + b == b && [] + RemoveChar(b, c) == RemoveChar(b, c);
    } else {
      assert [a[0]][1..] == [];
      assert (a + b)[0] == a[0] && (a + b)[1..] == a[1..] + b;
      RemoveCharSplit(a[1..], b, c);
      var head := if a[0] == c then [] else [a[0]];
      assert RemoveChar(a + b, c) == head + (RemoveChar(a[1..], c) + RemoveChar(b, c));
      AppendAssoc(head, RemoveChar(a[1..], c), RemoveChar(b, c));
    }
  }

  lemma CountCharZero(s: string, c: char)
    ensures CountChar(s, c) == 0 <==> c !in s
  {
    if s != [] {
      CountCharZero(s[1..], c);
      assert s == [s[0]] + s[1..];
    }
  }

  /** `pat` starts at position `i` of `s`. */
  predicate OccursAt(s: string, pat: string, i: int) {
    0 <= i <= |s| - |pat| && s[i..i + |pat|] == pat
  }

  /** Whether `pat` occurs in `s` (`/pat/g.test(s)` for a literal pattern). */
  predicate Contains(s: string, pat: string)
    decreases |s|
  {
    |pat| <= |s| && (s[..|pat|] == pat || Contains(s[1..], pat))
  }

  /** `Contains` means there is a position at which `pat` starts. */
  lemma {:induction false} ContainsIff(s: string, pat: string)
    ensures Contains(s, pat) <==> exists i :: OccursAt(s, pat, i)
    decreases |s|
  {
    if |pat| <= |s| {
      if s[..|pat|] == pat {
        assert OccursAt(s, pat, 0);
      } else if |s| > 0 {
        ContainsIff(s[1..], pat);
        if Contains(s[1..], pat) {
          var i :| OccursAt(s[1..], pat, i);
          assert s[i + 1..i + 1 + |pat|] == s[1..][i..i + |pat|];
          assert OccursAt(s, pat, i + 1);
        }
        if exists i :: OccursAt(s, pat, i) {
          var i :| OccursAt(s, pat, i);
          assert i != 0;
          assert s[1..][i - 1..i - 1 + |pat|] == s[i..i + |pat|];
          assert OccursAt(s[1..], pat, i - 1);
        }
      }
    }
  }

  /** `s.replace(/pat/g, rep)` for a literal pattern and a literal
      replacement: occurrences are found left to right and do not overlap. */
  function ReplaceAll(s: string, pat: string, rep: string): string
    requires |pat| > 0
    decreases |s|
  {
    if |s| < |pat| then s
    else if s[..|pat|] == pat then rep + ReplaceAll(s[|pat|..], pat, rep)
    else [s[0]] + ReplaceAll(s[1..], pat, rep)
  }

  /** Number of non-overlapping occurrences, counted as `ReplaceAll` finds them. */
  function Occurrences(s: string, pat: string): nat
    requires |pat| > 0
    decreases |s|
  {
    if |s| < |pat| then 0
    else if s[..|pat|] == pat then 1 + Occurrences(s[|pat|..], pat)
    else Occurrences(s[1..], pat)
  }

  /** Replacing a pattern that does not occur changes nothing. */
  lemma {:induction false} ReplaceAllAbsent(s: string, pat: string, rep: string)
    requires |pat| > 0 && !Contains(s, pat)
    ensures ReplaceAll(s, pat, rep) == s
    decreases |s|
  {
    if |s| >= |pat| {
      ReplaceAllAbsent(s[1..], pat, rep);
      assert s == [s[0]] + s[1..];
    }
  }

  /** Replacing a pattern by itself changes nothing. */
  lemma {:induction false} ReplaceAllSelf(s: string, pat: string)
    requires |pat| > 0
    ensures ReplaceAll(s, pat, pat) == s
    decreases |s|
  {
    if |s| >= |pat| {
      if s[..|pat|] == pat {
        ReplaceAllSelf(s[|pat|..], pat);
        assert s == s[..|pat|] + s[|pat|..];
      } else {
        ReplaceAllSelf(s[1..], pat);
        assert s == [s[0]] + s[1..];
      }
    }
  }

  /** Every occurrence is replaced: each one trades |pat| characters for |rep|. */
  lemma {:induction false} ReplaceAllLength(s: string, pat: string, rep: string)
    requires |pat| > 0
    ensures |ReplaceAll(s, pat, rep)| == |s| + Occurrences(s, pat) * (|rep| - |pat|)
    decreases |s|
  {
    if |s| >= |pat| {
      var d := |rep| - |pat|;
      if s[..|pat|] == pat {
        var rest := s[|pat|..];
        ReplaceAllLength(rest, pat, rep);
        var o := Occurrences(rest, pat);
        assert |ReplaceAll(s, pat, rep)| == |rep| + |ReplaceAll(rest, pat, rep)|;
        assert Occurrences(s, pat) == 1 + o;
        MulSucc(o, d);
      } else {
        ReplaceAllLength(s[1..], pat, rep);
        assert |ReplaceAll(s, pat, rep)| == 1 + |ReplaceAll(s[1..], pat, rep)|;
        assert Occurrences(s, pat) == Occurrences(s[1..], pat);
      }
    }
  }

  lemma MulSucc(o: int, d: int)
    ensures (1 + o) * d == d + o * d
  {
  }

  /** Occurrences are counted exactly when the pattern is present. */
  lemma {:induction false} OccurrencesPositive(s: string, pat: string)
    requires |pat| > 0
    ensures Occurrences(s, pat) > 0 <==> Contains(s, pat)
    decreases |s|
  {
    if |s| >= |pat| {
      if s[..|pat|] != pat {
        OccurrencesPositive(s[1..], pat);
      }
    }
  }

  /** A placeholder `{name}` whose name holds no brace. */
  function Brace(name: string): string {
    "{" + name + "}"
  }

  predicate PlainName(name: string) {
    '{' !in name && '}' !in name
  }

  /** A position where the pattern does not start is skipped over ... */
  lemma SkipMismatch(s: string, pat: string, rep: string)
    requires |pat| > 0 && s != [] && (|pat| > |s| || s[..|pat|] != pat)
    ensures Contains(s, pat) <==> Contains(s[1..], pat)
    ensures ReplaceAll(s, pat, rep) == [s[0]] + ReplaceAll(s[1..], pat, rep)
  {
  }

  /** ... in particular one whose character cannot start it ... */
  lemma SkipOne(s: string, pat: string, rep: string)
    requires |pat| > 0 && s != [] && s[0] != pat[0]
    ensures Contains(s, pat) <==> Contains(s[1..], pat)
    ensures ReplaceAll(s, pat, rep) == [s[0]] + ReplaceAll(s[1..], pat, rep)
  {
    if |pat| <= |s| {
      assert s[..|pat|][0] != pat[0];
    }
    SkipMismatch(s, pat, rep);
  }

  /** ... and so is a whole prefix of such characters, which is copied unchanged. */
  lemma {:induction false} SkipLeading(a: string, b: string, pat: string, rep: string)
    requires |pat| > 0 && pat[0] !in a
    ensures Contains(a + b, pat) <==> Contains(b, pat)
    ensures ReplaceAll(a + b, pat, rep) == a + ReplaceAll(b, pat, rep)
  {
    if a == [] {
      assert a + b == b;
    } else {
      var s := a + b;
      assert s[0] == a[0];
      assert s[1..] == a[1..] + b;
      SkipOne(s, pat, rep);
      SkipLeading(a[1..], b, pat, rep);
      assert a == [a[0]] + a[1..];
    }
  }

  /** Two different brace-delimited names never match at the same position. */
  lemma FrontMismatch(n: string, m: string, b: string)
    requires PlainName(n) && PlainName(m) && n != m
    ensures |Brace(m)| > |Brace(n) + b| || (Brace(n) + b)[..|Brace(m)|] != Brace(m)
  {
    var s := Brace(n) + b;
    var p := Brace(m);
    if |p| <= |s| {
      var k: nat;
      if |m| < |n| {
        k := |m| + 1;
        assert s[k] == n[|m|];
        assert p[k] == '}';
      } else if |m| > |n| {
        k := |n| + 1;
        assert p[k] == m[|n|];
        assert s[k] == '}';
      } else {
        var j :| 0 <= j < |n| && n[j] != m[j];
        k := j + 1;
        assert s[k] == n[j] && p[k] == m[j];
      }
      assert s[..|p|][k] != p[k];
    }
  }

  /** A different placeholder at the front is neither matched nor changed. */
  lemma OtherTagAtFront(n: string, m: string, b: string, rep: string)
    requires PlainName(n) && PlainName(m) && n != m
    ensures Contains(Brace(n) + b, Brace(m)) <==> Contains(b, Brace(m))
    ensures ReplaceAll(Brace(n) + b, Brace(m), rep) == Brace(n) + ReplaceAll(b, Brace(m), rep)
  {
    var s := Brace(n) + b;
    FrontMismatch(n, m, b);
    SkipMismatch(s, Brace(m), rep);
    assert s[1..] == (n + "}") + b;
    assert s == "{" + ((n + "}") + b);
    SkipLeading(n + "}", b, Brace(m), rep);
  }

  /** The placeholder at the front is matched and replaced. */
  lemma SameTagAtFront(n: string, b: string, rep: string)
    ensures Contains(Brace(n) + b, Brace(n))
    ensures ReplaceAll(Brace(n) + b, Brace(n), rep) == rep + ReplaceAll(b, Brace(n), rep)
  {
    var s := Brace(n) + b;
    assert s[..|Brace(n)|] == Brace(n);
    assert s[|Brace(n)|..] == b;
  }

  lemma EmptyHasNothing(pat: string, rep: string)
    requires |pat| > 0
    ensures !Contains("", pat) && ReplaceAll("", pat, rep) == ""
  {
  }

  /** `s.replace(/\n/g, ' ')`. */
  function SingleLine(s: string): (r: string)
    ensures |r| == |s|
    ensures forall i :: 0 <= i < |s| ==> r[i] == (if s[i] == '\n' then ' ' else s[i])
  {
    if s == [] then [] else [if s[0] == '\n' then ' ' else s[0]] + SingleLine(s[1..])
  }

  /** `xs.join(sep)`. */
  function Join(xs: seq<string>, sep: string): string {
    if xs == [] then ""
    else if |xs| == 1 then xs[0]
    else xs[0] + sep + Join(xs[1..], sep)
  }

  /** Joining one more element appends the separator and that element. */
  lemma {:induction false} JoinSnoc(xs: seq<string>, x: string, sep: string)
    ensures Join(xs + [x], sep) == if xs == [] then x else Join(xs, sep) + sep + x
  {
    if xs != [] {
      var ys := xs + [x];
      assert ys[1..] == xs[1..] + [x];
      if |xs| > 1 {
        JoinSnoc(xs[1..], x, sep);
      }
    }
  }

  /** `xs.join('')`. */
  function Concat(xs: seq<string>): string {
    if xs == [] then "" else xs[0] + Concat(xs[1..])
  }

  /** Text appended piece by piece is the same text as the pieces appended at once. */
  lemma AppendPieces(a: string, b: string, c: string, d: string)
    ensures a + (b + c + d) == a + b + c + d
  {
  }

  lemma AppendAssoc(a: string, b: string, c: string)
    ensures a + (b + c) == (a + b) + c
  {
  }

  lemma {:induction false} ConcatAppend(xs: seq<string>, ys: seq<string>)
    ensures Concat(xs + ys) == Concat(xs) + Concat(ys)
  {
    if xs == [] {
      assert xs + ys == ys;
    } else {
      ConcatAppend(xs[1..], ys);
      assert (xs + ys)[0] == xs[0] && (xs + ys)[1..] == xs[1..] + ys;
      AppendAssoc(xs[0], Concat(xs[1..]), Concat(ys));
    }
  }

  /** `s.repeat(n)`. */
  function Repeat(s: string, n: nat): (r: string)
    ensures |r| == n * |s|
  {
    if n == 0 then "" else s + Repeat(s, n - 1)
  }

  /** `s.repeat(n)` is `n` copies of `s`: its character `i` is character
      `i % |s|` of the piece. */
  lemma {:induction false} RepeatCopies(s: string, n: nat)
    ensures |s| > 0 ==> forall i :: 0 <= i < |Repeat(s, n)| ==> Repeat(s, n)[i] == s[i % |s|]
  {
    forall i | |s| > 0 && 0 <= i < |Repeat(s, n)| ensures Repeat(s, n)[i] == s[i % |s|] {
      RepeatAt(s, n, i);
    }
  }

  lemma {:induction false} RepeatAt(s: string, n: nat, i: nat)
    requires |s| > 0 && i < |Repeat(s, n)|
    ensures Repeat(s, n)[i] == s[i % |s|]
  {
    var rest := Repeat(s, n - 1);
    assert Repeat(s, n) == s + rest;
    if i < |s| {
      ModSmall(i, |s|);
    } else {
      RepeatAt(s, n - 1, i - |s|);
      ModShift(i, |s|);
    }
  }

  lemma ModSmall(i: nat, m: nat)
    requires i < m
    ensures i % m == i
  {
  }

  lemma MulGe(k: int, m: int)
    requires k >= 1 && m > 0
    ensures k * m >= m
  {
    if k > 1 { MulGe(k - 1, m); assert k * m == (k - 1) * m + m; }
  }

  /** The only multiple of `m` strictly between `-m` and `m` is 0. */
  lemma ZeroMultiple(k: int, m: int)
    requires m > 0 && -m < k * m < m
    ensures k == 0
  {
    if k >= 1 {
      MulGe(k, m);
      assert false;
    } else if k <= -1 {
      MulGe(-k, m);
      assert false;
    }
  }

  lemma ModShift(i: int, m: int)
    requires 0 < m <= i
    ensures (i - m) % m == i % m
  {
    var q1, q2 := i / m, (i - m) / m;
    var k := q1 - q2 - 1;
    assert k * m == q1 * m - q2 * m - m;
    ZeroMultiple(k, m);
  }

  function DigitChar(d: nat): char
    requires d < 10
  {
    ('0' as int + d) as char
  }

  /** Decimal rendering of a natural number, no leading zeros. */
  function NatToString(n: nat): (r: string)
    ensures |r| >= 1
    ensures forall i :: 0 <= i < |r| ==> '0' <= r[i] <= '9'
    ensures |r| > 1 ==> r[0] != '0'
  {
    if n < 10 then [DigitChar(n)] else NatToString(n / 10) + [DigitChar(n % 10)]
  }

  /** Reading decimal digits back (the partner of `NatToString`). */
  function DigitsValue(s: string): nat
    requires forall i :: 0 <= i < |s| ==> '0' <= s[i] <= '9'
  {
    if s == [] then 0 else 10 * DigitsValue(s[..|s| - 1]) + (s[|s| - 1] as int - '0' as int)
  }

  lemma {:induction false} NatToStringRoundTrip(n: nat)
    ensures DigitsValue(NatToString(n)) == n
  {
    if n >= 10 {
      NatToStringRoundTrip(n / 10);
      var s := NatToString(n);
      assert s[..|s| - 1] == NatToString(n / 10);
    }
  }

  /** `n.toString()` for an integer-valued number. */
  function IntToString(n: int): string {
    if n < 0 then "-" + NatToString(-n) else NatToString(n)
  }

  /** `n.toString().padStart(2, '0')`. */
  function Pad2(n: nat): string {
    if n < 10 then "0" + NatToString(n) else NatToString(n)
  }

  /** A day or month below 100 comes out as exactly two digits that read back as it. */
  lemma Pad2TwoDigits(n: nat)
    requires n < 100
    ensures |Pad2(n)| == 2 && '0' <= Pad2(n)[0] <= '9' && '0' <= Pad2(n)[1] <= '9'
    ensures 10 * (Pad2(n)[0] as int - '0' as int) + (Pad2(n)[1] as int - '0' as int) == n
  {
    if n >= 10 {
      NatToStringRoundTrip(n);
      assert NatToString(n) == NatToString(n / 10) + [DigitChar(n % 10)];
      assert |NatToString(n / 10)| == 1;
    }
  }
}
