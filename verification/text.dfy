/** The pieces of Rust's `str` API and of the regex crate's character classes
    that the log parsers rely on: whitespace and digit classes, `trim`,
    `split_whitespace`, `lines`, `contains`, `join(" ")`, `replace` and the
    `u32` parser. */
module Text {
  import opened Options

  /** One more than the largest `u32`. */
  const U32_LIMIT: nat := 0x1_0000_0000

  /** The Unicode White_Space property, which is what `char::is_whitespace`,
      `str::trim`, `str::split_whitespace` and the regex class `\s` all test. */
  predicate IsSpace(c: char) {
    || ('\t' <= c <= '\r')
    || c == ' '
    || c == '\U{0085}'
    || c == '\U{00A0}'
    || c == '\U{1680}'
    || ('\U{2000}' <= c <= '\U{200A}')
    || c == '\U{2028}'
    || c == '\U{2029}'
    || c == '\U{202F}'
    || c == '\U{205F}'
    || c == '\U{3000}'
  }

  /** An ASCII decimal digit. */
  predicate IsDigit(c: char) { '0' <= c <= '9' }

  predicate AllSpace(s: string) { forall k :: 0 <= k < |s| ==> IsSpace(s[k]) }
  predicate NoSpace(s: string) { forall k :: 0 <= k < |s| ==> !IsSpace(s[k]) }
  predicate AllDigits(s: string) { forall k :: 0 <= k < |s| ==> IsDigit(s[k]) }

  /** A non-empty whitespace-free word, the kind `split_whitespace` yields. */
  predicate IsWord(w: string) { |w| > 0 && NoSpace(w) }

  // ---------------------------------------------------------------------------
  // Spans: the longest prefix (or suffix) whose characters are in a class.
  // A greedy regex repetition of a class stops exactly there.

  /** The character classes the recognisers scan: `\s`, `\S` and `\d`. */
  datatype CharClass = Space | NonSpace | Digit

  predicate In(c: char, cls: CharClass) {
    match cls
    case Space => IsSpace(c)
    case NonSpace => !IsSpace(c)
    case Digit => IsDigit(c)
  }

  function Span(s: string, p: CharClass): (n: nat)
    ensures n <= |s|
    ensures forall k :: 0 <= k < n ==> In(s[k], p)
    ensures n < |s| ==> !In(s[n], p)
  {
    if |s| > 0 && In(s[0], p) then 1 + Span(s[1..], p) else 0
  }

  function SpanBack(s: string, p: CharClass): (n: nat)
    ensures n <= |s|
    ensures forall k :: |s| - n <= k < |s| ==> In(s[k], p)
    ensures n < |s| ==> !In(s[|s| - n - 1], p)
  {
    if |s| > 0 && In(s[|s| - 1], p) then 1 + SpanBack(s[..|s| - 1], p) else 0
  }

  /** A span over `a + b` where all of `a` is in the class runs into `b`. */
  lemma {:induction false} SpanAppend(a: string, b: string, p: CharClass)
    requires forall k :: 0 <= k < |a| ==> In(a[k], p)
    ensures Span(a + b, p) == |a| + Span(b, p)
  {
    if |a| > 0 {
      assert (a + b)[1..] == a[1..] + b;
      SpanAppend(a[1..], b, p);
    } else {
      assert a + b == b;
    }
  }

  /** A span stops at the first character outside the class. */
  lemma SpanStops(a: string, b: string, p: CharClass)
    requires forall k :: 0 <= k < |a| ==> In(a[k], p)
    requires |b| == 0 || !In(b[0], p)
    ensures Span(a + b, p) == |a|
  {
    SpanAppend(a, b, p);
  }

  /** A backward span over `a + b` where all of `b` is in the class stops at the end of `a`. */
  lemma {:induction false} SpanBackStops(a: string, b: string, p: CharClass)
    requires forall k :: 0 <= k < |b| ==> In(b[k], p)
    requires |a| == 0 || !In(a[|a| - 1], p)
    ensures SpanBack(a + b, p) == |b|
  {
    if |b| == 0 {
      assert a + b == a;
    } else {
      assert (a + b)[..|a + b| - 1] == a + b[..|b| - 1];
      SpanBackStops(a, b[..|b| - 1], p);
    }
  }

  /** `str::trim_start`. */
  function TrimStart(s: string): (r: string)
    ensures |r| <= |s| && r == s[|s| - |r|..]
    ensures AllSpace(s[..|s| - |r|])
    ensures |r| > 0 ==> !IsSpace(r[0])
  {
    s[Span(s, Space)..]
  }

  /** `str::trim_end`. */
  function TrimEnd(s: string): (r: string)
    ensures |r| <= |s| && r == s[..|r|]
    ensures AllSpace(s[|r|..])
    ensures |r| > 0 ==> !IsSpace(r[|r| - 1])
  {
    s[..|s| - SpanBack(s, Space)]
  }

  /** `str::trim`: both ends stripped of whitespace. */
  function Trim(s: string): (r: string)
    ensures |r| > 0 ==> !IsSpace(r[0]) && !IsSpace(r[|r| - 1])
    ensures |r| == 0 <==> AllSpace(s)
  {
    var t := TrimStart(s);
    assert |t| == 0 ==> s == s[..|s| - |t|];
    assert |t| > 0 ==> s[|s| - |t|] == t[0];
    TrimEnd(t)
  }

  /** A text with no whitespace at either end is its own trim. */
  lemma TrimBare(t: string)
    requires |t| > 0 && !IsSpace(t[0]) && !IsSpace(t[|t| - 1])
    ensures Trim(t) == t
  {
    assert Span(t, Space) == 0;
    assert t[0..] == t;
    assert SpanBack(t, Space) == 0;
    assert t[..|t|] == t;
  }

  /** Trimming removes exactly the padding around a text that has none of its own. */
  lemma TrimPadded(a: string, m: string, b: string)
    requires AllSpace(a) && AllSpace(b)
    requires |m| > 0 ==> !IsSpace(m[0]) && !IsSpace(m[|m| - 1])
    ensures Trim(a + m + b) == m
  {
    var s := a + m + b;
    if |m| > 0 {
      SpanStops(a, m + b, Space);
      assert s == a + (m + b);
      assert TrimStart(s) == m + b;
      SpanBackStops(m, b, Space);
      assert (m + b)[..|m|] == m;
    } else {
      assert s == a + b;
      assert AllSpace(s) by {
        forall k | 0 <= k < |s| ensures IsSpace(s[k]) {
          if k < |a| { assert s[k] == a[k]; } else { assert s[k] == b[k - |a|]; }
        }
      }
    }
  }

  // ---------------------------------------------------------------------------
  // Searching

  /** Position of the first `c` in `s` (Rust's `str::find` with a `char`). */
  function IndexOf(s: string, c: char): (r: Option<nat>)
    ensures r.None? <==> c !in s
    ensures r.Some? ==> r.value < |s| && s[r.value] == c && c !in s[..r.value]
  {
    if |s| == 0 then None
    else if s[0] == c then Some(0)
    else
      match IndexOf(s[1..], c)
      case None => None
      case Some(i) =>
        assert s[..i + 1] == [s[0]] + s[1..][..i];
        Some(i + 1)
  }

  /** The first occurrence is determined by its two defining facts. */
  lemma IndexOfAt(s: string, c: char, i: nat)
    requires i < |s| && s[i] == c && c !in s[..i]
    ensures IndexOf(s, c) == Some(i)
  {
    assert c in s;
  }

  /** The first `c` of `a + [c] + b` when `a` holds none. */
  lemma IndexOfFirst(a: string, c: char, b: string)
    requires c !in a
    ensures IndexOf(a + ([c] + b), c) == Some(|a|)
  {
    var s := a + ([c] + b);
    assert s[..|a|] == a;
    IndexOfAt(s, c, |a|);
  }

  /** `str::contains` with a string needle: `needle` occurs in `hay` at some offset. */
  predicate Contains(hay: string, needle: string) {
    exists i :: 0 <= i <= |hay| && needle <= hay[i..]
  }


  /** ASCII lowercase of one character. */
  function Lower(c: char): char {
    if 'A' <= c <= 'Z' then (c as int + 32) as char else c
  }

  /** `str::to_lowercase`, restricted to ASCII letters. */
  function LowerStr(s: string): (r: string)
    ensures |r| == |s|
    ensures forall k :: 0 <= k < |s| ==> r[k] == Lower(s[k])
  {
    seq(|s|, k requires 0 <= k < |s| => Lower(s[k]))
  }


  /** `str::replace` with single-character pattern and replacement. */
  function ReplaceChar(s: string, from: char, to: char): (r: string)
    ensures |r| == |s|
    ensures forall k :: 0 <= k < |s| ==> r[k] == (if s[k] == from then to else s[k])
  {
    seq(|s|, k requires 0 <= k < |s| => if s[k] == from then to else s[k])
  }

  // ---------------------------------------------------------------------------
  // Fields and lines

  /** `str::split_whitespace`: the maximal whitespace-free words of `s`, in order. */
  function SplitWhitespace(s: string): (ws: seq<string>)
    ensures |ws| == 0 <==> AllSpace(s)
    decreases |s|
  {
    var t := TrimStart(s);
    if |t| == 0 then
      assert s == s[..|s| - |t|];
      []
    else
      assert !AllSpace(s) by { assert s[|s| - |t|] == t[0]; }
      var n := Span(t, NonSpace);
      [t[..n]] + SplitWhitespace(t[n..])
  }

  /** Every piece `split_whitespace` yields is a non-empty word. */
  lemma {:induction false} SplitWhitespaceWords(s: string)
    ensures forall w :: w in SplitWhitespace(s) ==> IsWord(w)
    decreases |s|
  {
    var t := TrimStart(s);
    if |t| > 0 {
      var n := Span(t, NonSpace);
      assert n > 0 by { assert In(t[0], NonSpace); }
      assert IsWord(t[..n]) by {
        forall k | 0 <= k < n ensures !IsSpace(t[..n][k]) {
          assert In(t[k], NonSpace);
        }
      }
      SplitWhitespaceWords(t[n..]);
    }
  }

  /** `slice.join(" ")`. */
  function JoinSpace(ws: seq<string>): (r: string)
    ensures |ws| == 1 ==> r == ws[0]
    ensures |ws| > 0 && |ws[0]| > 0 ==> |r| > 0 && r[0] == ws[0][0]
  {
    if |ws| == 0 then ""
    else if |ws| == 1 then ws[0]
    else ws[0] + (" " + JoinSpace(ws[1..]))
  }

  /** Leading whitespace does not change the split. */
  lemma SplitSkipsPad(pad: string, x: string)
    requires AllSpace(pad)
    requires |x| == 0 || !IsSpace(x[0])
    ensures SplitWhitespace(pad + x) == SplitWhitespace(x)
  {
    SpanStops(pad, x, Space);
    assert (pad + x)[|pad|..] == x;
    assert Span(x, Space) == 0;
    assert TrimStart(pad + x) == TrimStart(x);
  }

  /** A leading word ended by whitespace (or by the end of the text) is split off whole. */
  lemma SplitFirstWord(w: string, rest: string)
    requires IsWord(w)
    requires |rest| == 0 || IsSpace(rest[0])
    ensures SplitWhitespace(w + rest) == [w] + SplitWhitespace(rest)
  {
    var j := w + rest;
    assert j[0] == w[0];
    assert TrimStart(j) == j;
    assert forall k :: 0 <= k < |w| ==> In(w[k], NonSpace) by {
      forall k | 0 <= k < |w| ensures In(w[k], NonSpace) {
        assert !IsSpace(w[k]);
      }
    }
    SpanStops(w, rest, NonSpace);
    assert j[..|w|] == w;
    assert j[|w|..] == rest;
  }

  lemma SplitOneWord(w: string)
    requires IsWord(w)
    ensures SplitWhitespace(w) == [w]
  {
    SplitFirstWord(w, "");
    assert w + "" == w;
  }

  /** A word, one blank, and text that splits into `tail`. */
  lemma SplitJoinGlue(w: string, jt: string, tail: seq<string>)
    requires IsWord(w) && |jt| > 0 && !IsSpace(jt[0])
    requires SplitWhitespace(jt) == tail
    ensures SplitWhitespace(w + (" " + jt)) == [w] + tail
  {
    SplitSkipsPad(" ", jt);
    SplitFirstWord(w, " " + jt);
  }

  /** One step of `SplitJoin`: a word in front of already-split words. */
  lemma SplitJoinStep(ws: seq<string>)
    requires |ws| > 1 && IsWord(ws[0]) && IsWord(ws[1])
    requires SplitWhitespace(JoinSpace(ws[1..])) == ws[1..]
    ensures SplitWhitespace(JoinSpace(ws)) == ws
  {
    var w := ws[0];
    var tail := ws[1..];
    var jt := JoinSpace(tail);
    assert JoinSpace(ws) == w + (" " + jt);
    assert jt[0] == tail[0][0];
    SplitJoinGlue(w, jt, tail);
    HeadTail(ws);
  }

  lemma HeadTail<T>(xs: seq<T>)
    requires |xs| > 0
    ensures [xs[0]] + xs[1..] == xs
  {
  }

  /** Splitting words joined by single spaces gives back the words. */
  lemma {:induction false} SplitJoin(ws: seq<string>)
    requires |ws| > 0
    requires forall k :: 0 <= k < |ws| ==> IsWord(ws[k])
    ensures SplitWhitespace(JoinSpace(ws)) == ws
  {
    if |ws| == 1 {
      SplitOneWord(ws[0]);
    } else {
      SplitJoin(ws[1..]);
      SplitJoinStep(ws);
    }
  }

  /** Words joined by single spaces: no whitespace at either end, and no
      whitespace inside other than the plain space. */
  predicate Spaced(s: string) {
    && |s| > 0 && !IsSpace(s[0]) && !IsSpace(s[|s| - 1])
    && forall k :: 0 <= k < |s| ==> s[k] == ' ' || !IsSpace(s[k])
  }

  /** `join(" ")` of words is spaced text. */
  lemma {:induction false} JoinSpaceSpaced(ws: seq<string>)
    requires |ws| > 0
    requires forall k :: 0 <= k < |ws| ==> IsWord(ws[k])
    ensures Spaced(JoinSpace(ws))
  {
    if |ws| > 1 {
      JoinSpaceSpaced(ws[1..]);
      var w, jt := ws[0], JoinSpace(ws[1..]);
      var s := w + (" " + jt);
      assert JoinSpace(ws) == s;
      forall k | 0 <= k < |s| ensures s[k] == ' ' || !IsSpace(s[k]) {
        if k < |w| {
          assert s[k] == w[k];
        } else if k > |w| {
          assert s[k] == jt[k - |w| - 1];
        }
      }
      assert s[|s| - 1] == jt[|jt| - 1];
    }
  }

  /** Spaced text is one line of its own. */
  lemma SpacedLine(s: string)
    requires Spaced(s)
    ensures IsLine(s) && Trim(s) == s
  {
    assert '\n' !in s by {
      forall k | 0 <= k < |s| ensures s[k] != '\n' {
        assert s[k] == ' ' || !IsSpace(s[k]);
      }
    }
    TrimBare(s);
  }

  /** The last whitespace-separated word, or `s` itself when there is none
      (`split_whitespace().last().unwrap_or(s)`). */
  function LastWord(s: string): (r: string)
    ensures !AllSpace(s) ==> IsWord(r)
  {
    var ws := SplitWhitespace(s);
    SplitWhitespaceWords(s);
    if |ws| == 0 then s else ws[|ws| - 1]
  }

  /** Drops one trailing carriage return. */
  function StripCr(l: string): (r: string)
    ensures r == l || r + "\r" == l
  {
    if |l| > 0 && l[|l| - 1] == '\r' then l[..|l| - 1] else l
  }

  /** `str::lines`: split at `\n`; a `\r` right before a `\n` is dropped too;
      a final line ending adds no empty line. */
  function Lines(s: string): (ls: seq<string>)
    ensures forall k :: 0 <= k < |ls| ==> '\n' !in ls[k]
    ensures |ls| == 0 <==> |s| == 0
    ensures |ls| <= |s|
    decreases |s|
  {
    if |s| == 0 then []
    else
      match IndexOf(s, '\n')
      case None => [s]
      case Some(i) =>
        assert '\n' !in StripCr(s[..i]) by {
          assert StripCr(s[..i]) == s[..i] || StripCr(s[..i]) == s[..i][..i - 1];
        }
        [StripCr(s[..i])] + Lines(s[i + 1..])
  }

  /** Each line followed by a line feed. */
  function Unlines(ls: seq<string>): (s: string)
  {
    if |ls| == 0 then "" else ls[0] + ("\n" + Unlines(ls[1..]))
  }

  /** How `Lines` reads a text whose first line break is at `i`. */
  lemma LinesAt(s: string, i: nat, l: string, rest: string)
    requires |s| > 0 && IndexOf(s, '\n') == Some(i)
    requires s[..i] == l && s[i + 1..] == rest
    requires |l| == 0 || l[|l| - 1] != '\r'
    ensures Lines(s) == [l] + Lines(rest)
  {
  }

  /** One line and its `\n` in front of more text. */
  lemma LinesCons(l: string, rest: string)
    requires '\n' !in l && (|l| == 0 || l[|l| - 1] != '\r')
    ensures Lines(l + ("\n" + rest)) == [l] + Lines(rest)
  {
    var s := l + ("\n" + rest);
    var i := |l|;
    assert s[..i] == l && s[i + 1..] == rest;
    IndexOfFirst(l, '\n', rest);
    LinesAt(s, i, l, rest);
  }

  /** A line as `lines` yields it from a `\n`-terminated text: no line feed,
      and no carriage return it would have dropped. */
  predicate IsLine(l: string) {
    '\n' !in l && (|l| == 0 || l[|l| - 1] != '\r')
  }

  lemma LinesUnlinesStep(ls: seq<string>)
    requires |ls| > 0 && IsLine(ls[0])
    requires Lines(Unlines(ls[1..])) == ls[1..]
    ensures Lines(Unlines(ls)) == ls
  {
    LinesCons(ls[0], Unlines(ls[1..]));
    HeadTail(ls);
  }

  /** `lines` undoes `Unlines` for lines that hold no line break of their own. */
  lemma {:induction false} LinesUnlines(ls: seq<string>)
    requires forall k :: 0 <= k < |ls| ==> IsLine(ls[k])
    ensures Lines(Unlines(ls)) == ls
  {
    if |ls| > 0 {
      LinesUnlines(ls[1..]);
      LinesUnlinesStep(ls);
    }
  }

  // ---------------------------------------------------------------------------
  // Numbers

  function DigitValue(c: char): nat
    requires IsDigit(c)
  {
    c as int - '0' as int
  }

  /** The number a run of decimal digits denotes. */
  function Value(ds: string): nat
    requires AllDigits(ds)
  {
    if |ds| == 0 then 0 else 10 * Value(ds[..|ds| - 1]) + DigitValue(ds[|ds| - 1])
  }

  /** `str::parse::<u32>`: an optional `+` then one or more ASCII digits whose
      value fits in 32 bits. */
  function ParseU32(s: string): (r: Option<nat>)
    ensures r.Some? ==> r.value < U32_LIMIT
    ensures r.Some? ==> |s| > 0 && (IsDigit(s[0]) || s[0] == '+')
    ensures |s| > 0 && AllDigits(s) ==> (r.Some? <==> Value(s) < U32_LIMIT)
    ensures r.Some? && AllDigits(s) ==> r.value == Value(s)
    ensures var ds := if |s| > 0 && s[0] == '+' then s[1..] else s;
      && (r.Some? <==> |ds| > 0 && AllDigits(ds) && Value(ds) < U32_LIMIT)
      && (r.Some? ==> r.value == Value(ds))
  {
    var ds := if |s| > 0 && s[0] == '+' then s[1..] else s;
    if |ds| == 0 || !AllDigits(ds) then None
    else if Value(ds) < U32_LIMIT then Some(Value(ds))
    else None
  }

  /** A digit run read as a `u32` field, 0 when it does not fit
      (`parse().unwrap_or(0)`). */
  function DigitsToU32(ds: string): (n: nat)
    ensures n < U32_LIMIT
    ensures |ds| > 0 && AllDigits(ds) ==> n == (if Value(ds) < U32_LIMIT then Value(ds) else 0)
  {
    ParseU32(ds).GetOr(0)
  }

  function DigitChar(d: nat): (c: char)
    requires d < 10
    ensures IsDigit(c) && DigitValue(c) == d
  {
    ('0' as int + d) as char
  }

  /** The decimal text of `n`, without leading zeros. */
  function ShowNat(n: nat): (s: string)
    ensures |s| > 0 && AllDigits(s)
    ensures Value(s) == n
    ensures |s| > 1 ==> s[0] != '0'
  {
    if n < 10 then [DigitChar(n)]
    else
      var p := ShowNat(n / 10);
      var s := p + [DigitChar(n % 10)];
      assert s[..|s| - 1] == p;
      s
  }

  /** Reading back the decimal text of a `u32` gives the number. */
  lemma ParseShowNat(n: nat)
    requires n < U32_LIMIT
    ensures ParseU32(ShowNat(n)) == Some(n)
  {
  }
}
