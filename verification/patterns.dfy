/** The three regular expressions of `parse_line` (src-tauri/src/parser.rs)
    written as the pieces a matching text is made of, and the proof that the
    recognisers of `Parser` accept exactly the texts that split into those
    pieces, returning the captures of one such split. */
module Patterns {
  import opened Options
  import opened Text
  import opened Parser
  import opened LogcatFormats

  /** `\s+`: a non-empty whitespace run. */
  predicate Gap(g: string) { |g| > 0 && AllSpace(g) }

  /** `\d+`: a non-empty ASCII digit run. */
  predicate Number(d: string) { |d| > 0 && AllDigits(d) }

  /** The pieces of `\s+(\d+)\s+(\d+)\s+([VDIWEFA])\s+([^:]+):\s*(.*)$`,
      the part both threadtime patterns share after the time stamp. */
  datatype TailPieces = TailPieces(
    pidGap: string, pid: string,
    tidGap: string, tid: string,
    levelGap: string, level: char,
    tagGap: string, tag: string,
    messageGap: string, message: string)

  predicate TailFits(t: TailPieces) {
    && Gap(t.pidGap) && Number(t.pid)
    && Gap(t.tidGap) && Number(t.tid)
    && Gap(t.levelGap) && IsLevelChar(t.level)
    && Gap(t.tagGap) && |t.tag| > 0 && ':' !in t.tag
    && AllSpace(t.messageGap) && '\n' !in t.message
  }

  function TailString(t: TailPieces): string {
    t.pidGap + (t.pid + (t.tidGap + (t.tid + (t.levelGap + ([t.level]
      + (t.tagGap + (t.tag + (":" + (t.messageGap + t.message)))))))))
  }

  function TailCaptures(t: TailPieces): Tail {
    Tail(t.pid, t.tid, t.level, t.tag, t.message)
  }

  /** The pieces of a whole line under one of the three patterns:
      `^(\d{2}-\d{2}\s+\d{2}:\d{2}:\d{2}\.\d{3})` + tail,
      `^(\d{2}:\d{2}:\d{2}\.\d{3})` + tail, and
      `^([VDIWEFA])/([^(]+)\(\s*(\d+)\):\s*(.*)$`. */
  datatype Pieces =
    | StampedPieces(date: string, dateGap: string, time: string, tail: TailPieces)
    | ClockPieces(time: string, tail: TailPieces)
    | BriefPieces(level: char, tag: string, pidGap: string, pid: string, messageGap: string, message: string)

  predicate Fits(p: Pieces) {
    match p
    case StampedPieces(date, gap, time, t) => IsDate(date) && Gap(gap) && IsClock(time) && TailFits(t)
    case ClockPieces(time, t) => IsClock(time) && TailFits(t)
    case BriefPieces(lc, tag, pidGap, pid, messageGap, m) =>
      && IsLevelChar(lc) && |tag| > 0 && '(' !in tag
      && AllSpace(pidGap) && Number(pid)
      && AllSpace(messageGap) && '\n' !in m
  }

  function LineString(p: Pieces): string {
    match p
    case StampedPieces(date, gap, time, t) => date + (gap + (time + TailString(t)))
    case ClockPieces(time, t) => time + TailString(t)
    case BriefPieces(lc, tag, pidGap, pid, messageGap, m) =>
      [lc] + ("/" + (tag + ("(" + (pidGap + (pid + ("):" + (messageGap + m)))))))
  }

  /** The capture groups of a split, as the recognisers report them. */
  function Captures(p: Pieces): Shape {
    match p
    case StampedPieces(date, gap, time, t) => Threadtime(date + gap + time, TailCaptures(t))
    case ClockPieces(time, t) => TimeOnly(time, TailCaptures(t))
    case BriefPieces(lc, tag, _, pid, _, m) => Brief(lc, tag, pid, m)
  }

  /** `s` is the text of a split that fits its pattern. */
  predicate SplitsAs(s: string, p: Pieces) {
    Fits(p) && LineString(p) == s
  }

  // ---------------------------------------------------------------------------
  // An accepted text splits into the pattern's pieces

  lemma MessageFieldSplit(s: string) returns (gap: string)
    requires MessageField(s).Some?
    ensures AllSpace(gap) && s == gap + MessageField(s).value
  {
    var w := Span(s, Space);
    gap := s[..w];
    assert s == gap + s[w..];
  }

  lemma DigitFieldSplit(s: string) returns (gap: string)
    requires DigitField(s).Some?
    ensures Gap(gap) && s == gap + (DigitField(s).value.0 + DigitField(s).value.1)
  {
    var w := Span(s, Space);
    var r := s[w..];
    var d := Span(r, Digit);
    gap := s[..w];
    assert r == r[..d] + r[d..];
    assert s == gap + r;
  }

  lemma LevelFieldSplit(s: string) returns (gap: string)
    requires LevelField(s).Some?
    ensures Gap(gap) && s == gap + ([LevelField(s).value.0] + LevelField(s).value.1)
  {
    var w := Span(s, Space);
    gap := s[..w];
    assert s == gap + ([s[w]] + s[w + 1..]);
  }

  /** The whitespace before a tag: the whole run, or all of it but the
      last blank when the colon follows the run directly. */
  /** Any prefix of a whitespace span is whitespace. */
  lemma SpanPrefix(s: string, n: nat)
    requires n <= Span(s, Space)
    ensures AllSpace(s[..n])
  {
    forall k | 0 <= k < n ensures IsSpace(s[..n][k]) {
      assert In(s[k], Space);
    }
  }

  /** Splitting off the last of `w` leading characters. */
  lemma SplitLast(s: string, w: nat, rest: string)
    requires 0 < w <= |s| && rest == s[w..]
    ensures s == s[..w - 1] + (s[w - 1..w] + rest)
  {
    assert s[..w] == s[..w - 1] + s[w - 1..w];
    assert s == s[..w] + rest;
  }

  /** The whitespace before a tag: the whole run, or all of it but the
      last blank when the colon follows the run directly. */
  lemma TagGap(s: string, w: nat, rest: string, c: nat, after: string) returns (gap: string)
    requires 0 < w == Span(s, Space) && rest == s[w..]
    requires c < |rest| && rest[c] == ':' && after == rest[c + 1..]
    requires c == 0 ==> w >= 2
    ensures Gap(gap)
    ensures s == gap + ((if c > 0 then rest[..c] else s[w - 1..w]) + (":" + after))
  {
    if c > 0 {
      gap := s[..w];
      SpanPrefix(s, w);
      assert rest == rest[..c] + (":" + after);
      assert s == gap + rest;
    } else {
      gap := s[..w - 1];
      SpanPrefix(s, w - 1);
      assert rest == ":" + after;
      SplitLast(s, w, rest);
    }
  }

  /** When the colon follows the whitespace directly, the tag is the last
      blank of the run, as the backtracking regex takes it. */
  lemma TagMessageSplit(s: string) returns (gap: string, ws: string)
    requires TagMessage(s).Some?
    ensures Gap(gap) && AllSpace(ws)
    ensures s == gap + (TagMessage(s).value.0 + (":" + (ws + TagMessage(s).value.1)))
  {
    var w := Span(s, Space);
    var rest := s[w..];
    var c := IndexOf(rest, ':').value;
    var after := rest[c + 1..];
    var tag := if c > 0 then rest[..c] else s[w - 1..w];
    assert TagMessage(s).value == (tag, MessageField(after).value);
    ws := MessageFieldSplit(after);
    gap := TagGap(s, w, rest, c, after);
  }

  lemma TailSplit(s: string) returns (t: TailPieces)
    requires MatchTail(s).Some?
    ensures TailFits(t) && TailString(t) == s && TailCaptures(t) == MatchTail(s).value
  {
    var f1 := DigitField(s).value;
    var g1 := DigitFieldSplit(s);
    var f2 := DigitField(f1.1).value;
    var g2 := DigitFieldSplit(f1.1);
    var f3 := LevelField(f2.1).value;
    var g3 := LevelFieldSplit(f2.1);
    var f4 := TagMessage(f3.1).value;
    var g4, ws := TagMessageSplit(f3.1);
    t := TailPieces(g1, f1.0, g2, f2.0, g3, f3.0, g4, f4.0, ws, f4.1);
  }

  /** Where a stamp's date, gap and clock sit in the text. */
  lemma StampSlices(s: string, w: nat, r: string)
    requires 5 + w <= |s| && r == s[5 + w..] && |r| >= 12
    ensures s == s[..5] + (s[5..5 + w] + (r[..12] + r[12..]))
    ensures s[..5 + w + 12] == s[..5] + s[5..5 + w] + r[..12]
  {
    assert r == r[..12] + r[12..];
    assert s == s[..5] + (s[5..5 + w] + r);
  }

  /** A date, a whitespace run, a clock and a fitting tail. */
  lemma StampedSplit(s: string, w: nat, r: string, t: TailPieces) returns (p: Pieces)
    requires |s| >= 5 && IsDate(s[..5]) && 0 < w == Span(s[5..], Space) && r == s[5 + w..]
    requires |r| >= 12 && IsClock(r[..12]) && TailFits(t) && TailString(t) == r[12..]
    ensures p == StampedPieces(s[..5], s[5..5 + w], r[..12], t) && SplitsAs(s, p)
    ensures s[..5 + w + 12] == s[..5] + s[5..5 + w] + r[..12]
  {
    SpanPrefix(s[5..], w);
    assert s[5..5 + w] == s[5..][..w];
    StampSlices(s, w, r);
    p := StampedPieces(s[..5], s[5..5 + w], r[..12], t);
  }

  lemma ThreadtimeSplit(s: string) returns (p: Pieces)
    requires MatchThreadtime(s).Some?
    ensures p.StampedPieces? && SplitsAs(s, p) && Captures(p) == MatchThreadtime(s).value
  {
    assert |s| >= 5 && IsDate(s[..5]);
    var w := Span(s[5..], Space);
    var r := s[5 + w..];
    assert w > 0 && |r| >= 12 && IsClock(r[..12]);
    var tail := r[12..];
    assert MatchTail(tail).Some?;
    assert MatchThreadtime(s).value == Threadtime(s[..5 + w + 12], MatchTail(tail).value);
    var t := TailSplit(tail);
    p := StampedSplit(s, w, r, t);
  }

  /** A clock and a fitting tail. */
  lemma ClockSplit(s: string, t: TailPieces) returns (p: Pieces)
    requires |s| >= 12 && IsClock(s[..12]) && TailFits(t) && TailString(t) == s[12..]
    ensures p == ClockPieces(s[..12], t) && SplitsAs(s, p)
  {
    p := ClockPieces(s[..12], t);
    assert s == s[..12] + s[12..];
  }

  lemma TimeOnlySplit(s: string) returns (p: Pieces)
    requires MatchTimeOnly(s).Some?
    ensures p.ClockPieces? && SplitsAs(s, p) && Captures(p) == MatchTimeOnly(s).value
  {
    var tail := s[12..];
    assert MatchTail(tail).Some? && MatchTimeOnly(s).value == TimeOnly(s[..12], MatchTail(tail).value);
    var t := TailSplit(tail);
    p := ClockSplit(s, t);
  }

  lemma ParenPidSplit(s: string) returns (gap: string)
    requires ParenPid(s).Some?
    ensures AllSpace(gap) && s == gap + (ParenPid(s).value.0 + ("):" + ParenPid(s).value.1))
  {
    var w := Span(s, Space);
    var r := s[w..];
    var d := Span(r, Digit);
    gap := s[..w];
    assert r == r[..d] + ("):" + r[d + 2..]);
    assert s == gap + r;
  }

  /** The level letter, the slash, the tag up to the opening parenthesis,
      and the text after it. */
  lemma BriefHead(s: string, r: string, c: nat, u: string)
    requires |s| >= 2 && s[1] == '/' && r == s[2..]
    requires c < |r| && r[c] == '(' && u == r[c + 1..]
    ensures s == [s[0]] + ("/" + (r[..c] + ("(" + u)))
  {
    assert r == r[..c] + ("(" + u);
    assert s == [s[0]] + ("/" + r);
  }

  lemma BriefAssemble(s: string, tag: string, u: string, pidGap: string, pid: string,
                       after: string, messageGap: string, m: string) returns (p: Pieces)
    requires |s| > 0 && IsLevelChar(s[0]) && s == [s[0]] + ("/" + (tag + ("(" + u)))
    requires |tag| > 0 && '(' !in tag
    requires AllSpace(pidGap) && Number(pid) && u == pidGap + (pid + ("):" + after))
    requires AllSpace(messageGap) && '\n' !in m && after == messageGap + m
    ensures p == BriefPieces(s[0], tag, pidGap, pid, messageGap, m) && SplitsAs(s, p)
  {
    p := BriefPieces(s[0], tag, pidGap, pid, messageGap, m);
  }

  /** A brief line whose parenthesis is not followed by `\s*(\d+)\):` is rejected. */
  lemma BriefNoPid(s: string, c: nat)
    requires |s| >= 2 && IsLevelChar(s[0]) && s[1] == '/' && IndexOf(s[2..], '(') == Some(c) && c > 0
    requires ParenPid(s[2..][c + 1..]).None?
    ensures MatchBrief(s).None?
  {
  }

  /** A brief line whose message holds a line feed is rejected. */
  lemma BriefNoMessage(s: string, c: nat, f: (string, string))
    requires |s| >= 2 && IsLevelChar(s[0]) && s[1] == '/' && IndexOf(s[2..], '(') == Some(c) && c > 0
    requires ParenPid(s[2..][c + 1..]) == Some(f) && MessageField(f.1).None?
    ensures MatchBrief(s).None?
  {
  }

  /** What `MatchBrief` checked on its way to a match. */
  lemma BriefFields(s: string) returns (c: nat, pid: string, after: string)
    requires MatchBrief(s).Some?
    ensures |s| >= 2 && s[1] == '/' && c < |s[2..]| && s[2..][c] == '(' && c > 0
    ensures ParenPid(s[2..][c + 1..]) == Some((pid, after)) && MessageField(after).Some?
    ensures MatchBrief(s).value == Brief(s[0], s[2..][..c], pid, MessageField(after).value)
  {
    var r := s[2..];
    assert |s| >= 2 && IsLevelChar(s[0]) && s[1] == '/';
    assert IndexOf(r, '(').Some?;
    c := IndexOf(r, '(').value;
    assert c > 0;
    if ParenPid(r[c + 1..]).None? {
      BriefNoPid(s, c);
      assert false;
    }
    var f := ParenPid(r[c + 1..]).value;
    if MessageField(f.1).None? {
      BriefNoMessage(s, c, f);
      assert false;
    }
    pid, after := f.0, f.1;
    MatchBriefWhen(s, r, c, pid, after, MessageField(after).value);
  }

  lemma BriefSplit(s: string) returns (p: Pieces)
    requires MatchBrief(s).Some?
    ensures p.BriefPieces? && SplitsAs(s, p) && Captures(p) == MatchBrief(s).value
  {
    var c, pid, after := BriefFields(s);
    var r := s[2..];
    var u := r[c + 1..];
    var pidGap := ParenPidSplit(u);
    var messageGap := MessageFieldSplit(after);
    BriefHead(s, r, c, u);
    p := BriefAssemble(s, r[..c], u, pidGap, pid, after, messageGap, MessageField(after).value);
  }

  // ---------------------------------------------------------------------------
  // A text made of the pattern's pieces is accepted

  lemma MessageFieldAccepts(gap: string, m: string)
    requires AllSpace(gap) && '\n' !in m
    ensures MessageField(gap + m).Some?
  {
    SpanAppend(gap, m, Space);
    var k := Span(m, Space);
    assert (gap + m)[|gap| + k..] == m[k..];
    assert '\n' !in m[k..] by {
      forall i | 0 <= i < |m| - k ensures m[k..][i] != '\n' {
        assert m[k..][i] == m[k + i];
      }
    }
  }

  lemma LevelFieldAccepts(gap: string, c: char, rest: string)
    requires Gap(gap) && IsLevelChar(c)
    ensures LevelField(gap + ([c] + rest)) == Some((c, rest))
  {
    LevelCharPlain(c);
    SpanStops(gap, [c] + rest, Space);
    var s := gap + ([c] + rest);
    assert s[|gap|] == c;
    assert s[|gap| + 1..] == rest;
  }

  lemma NoColonBefore(gap: string, tag: string)
    requires AllSpace(gap) && ':' !in tag
    ensures ':' !in gap + tag
  {
    var u := gap + tag;
    forall i | 0 <= i < |u| ensures u[i] != ':' {
      if i < |gap| { assert IsSpace(gap[i]); } else { assert u[i] == tag[i - |gap|]; }
    }
  }

  /** A whitespace run at the front of `u + ":" + x` stops at the colon at the latest. */
  lemma SpanBeforeColon(s: string, u: string, x: string)
    requires s == u + (":" + x) && |u| > 0 && IsSpace(u[0])
    ensures 0 < Span(s, Space) <= |u|
  {
    assert s[0] == u[0];
    assert s[|u|] == ':';
  }

  /** From any point before it, the first colon of `u + ":" + x` is the one after `u`. */
  lemma ColonAfterRun(s: string, u: string, x: string, w: nat)
    requires s == u + (":" + x) && ':' !in u && w <= |u|
    ensures IndexOf(s[w..], ':') == Some(|u| - w)
  {
    NoColonSuffix(u, w);
    DropFront(s, u, ":" + x, w);
    ColonAfter(u[w..], x);
  }

  lemma NoColonSuffix(u: string, w: nat)
    requires ':' !in u && w <= |u|
    ensures ':' !in u[w..]
  {
    forall k | 0 <= k < |u| - w ensures u[w..][k] != ':' {
      assert u[w..][k] == u[w + k];
    }
  }

  lemma DropFront(s: string, u: string, y: string, w: nat)
    requires s == u + y && w <= |u|
    ensures s[w..] == u[w..] + y
  {
  }

  lemma AfterColon(s: string, u: string, x: string, w: nat)
    requires s == u + (":" + x) && w <= |u|
    ensures s[w..][|u| - w + 1..] == x
  {
    assert s[w..][|u| - w + 1..] == s[|u| + 1..];
  }

  /** In a tag column the leading whitespace run stops at or before the
      colon, which is the first colon after the run. */
  lemma TagColumnSpan(gap: string, tag: string, x: string, s: string) returns (w: nat)
    requires Gap(gap) && |tag| > 0 && ':' !in tag && s == gap + (tag + (":" + x))
    ensures w == Span(s, Space) && 0 < w <= |gap| + |tag|
    ensures IndexOf(s[w..], ':') == Some(|gap| + |tag| - w)
    ensures s[w..][|gap| + |tag| - w + 1..] == x
  {
    var u := gap + tag;
    NoColonBefore(gap, tag);
    assert s == u + (":" + x);
    assert u[0] == gap[0];
    SpanBeforeColon(s, u, x);
    w := Span(s, Space);
    ColonAfterRun(s, u, x, w);
    AfterColon(s, u, x, w);
  }

  lemma TagMessageAccepts(gap: string, tag: string, ws: string, m: string)
    requires Gap(gap) && |tag| > 0 && ':' !in tag && AllSpace(ws) && '\n' !in m
    ensures TagMessage(gap + (tag + (":" + (ws + m)))).Some?
  {
    var s := gap + (tag + (":" + (ws + m)));
    var w := TagColumnSpan(gap, tag, ws + m, s);
    MessageFieldAccepts(ws, m);
  }

  /** `MatchTail` from the values of its four fields. */
  lemma MatchTailWhen(s: string, pid: string, r1: string, tid: string, r2: string, lc: char, r3: string)
    requires DigitField(s) == Some((pid, r1)) && DigitField(r1) == Some((tid, r2))
    requires LevelField(r2) == Some((lc, r3)) && TagMessage(r3).Some?
    ensures MatchTail(s) == Some(Tail(pid, tid, lc, TagMessage(r3).value.0, TagMessage(r3).value.1))
  {
  }

  lemma SpaceNotDigit(c: char)
    requires IsSpace(c)
    ensures !IsDigit(c)
  {
  }

  lemma TailAccepts(t: TailPieces)
    requires TailFits(t)
    ensures MatchTail(TailString(t)).Some?
    ensures MatchTail(TailString(t)).value.pid == t.pid
    ensures MatchTail(TailString(t)).value.tid == t.tid
    ensures MatchTail(TailString(t)).value.level == t.level
  {
    var r3 := t.tagGap + (t.tag + (":" + (t.messageGap + t.message)));
    var r2 := t.levelGap + ([t.level] + r3);
    var r1 := t.tidGap + (t.tid + r2);
    assert TailString(t) == t.pidGap + (t.pid + r1);
    assert r1[0] == t.tidGap[0] && r2[0] == t.levelGap[0];
    SpaceNotDigit(r1[0]);
    SpaceNotDigit(r2[0]);
    DigitFieldOf(t.pidGap, t.pid, r1);
    DigitFieldOf(t.tidGap, t.tid, r2);
    LevelFieldAccepts(t.levelGap, t.level, r3);
    TagMessageAccepts(t.tagGap, t.tag, t.messageGap, t.message);
    MatchTailWhen(TailString(t), t.pid, r1, t.tid, r2, t.level, r3);
  }

  lemma ThreadtimeAccepts(p: Pieces)
    requires p.StampedPieces? && Fits(p)
    ensures MatchThreadtime(LineString(p)).Some?
  {
    var s := LineString(p);
    var rest := p.time + TailString(p.tail);
    assert s == p.date + (p.dateGap + rest);
    assert s[..5] == p.date;
    assert s[5..] == p.dateGap + rest;
    SpanStops(p.dateGap, rest, Space);
    assert s[5 + |p.dateGap|..] == rest;
    assert rest[..12] == p.time;
    assert rest[12..] == TailString(p.tail);
    TailAccepts(p.tail);
  }

  lemma TimeOnlyAccepts(p: Pieces)
    requires p.ClockPieces? && Fits(p)
    ensures MatchTimeOnly(LineString(p)).Some?
  {
    var s := LineString(p);
    assert s[..12] == p.time;
    assert s[12..] == TailString(p.tail);
    TailAccepts(p.tail);
  }

  /** What follows the opening parenthesis of a brief line made of the pattern's pieces. */
  lemma BriefPidAccepts(pidGap: string, pid: string, messageGap: string, m: string)
    requires AllSpace(pidGap) && Number(pid) && AllSpace(messageGap) && '\n' !in m
    ensures ParenPid(pidGap + (pid + ("):" + (messageGap + m)))) == Some((pid, messageGap + m))
    ensures MessageField(messageGap + m).Some?
  {
    ParenPidOf(pidGap, pid, messageGap + m);
    MessageFieldAccepts(messageGap, m);
  }

  lemma BriefTextAccepts(lc: char, tag: string, pidGap: string, pid: string, messageGap: string, m: string)
    requires IsLevelChar(lc) && |tag| > 0 && '(' !in tag
    requires AllSpace(pidGap) && Number(pid) && AllSpace(messageGap) && '\n' !in m
    ensures MatchBrief([lc] + ("/" + (tag + ("(" + (pidGap + (pid + ("):" + (messageGap + m)))))))).Some?
  {
    var after := messageGap + m;
    var u := pidGap + (pid + ("):" + after));
    var s := [lc] + ("/" + (tag + ("(" + u)));
    var r := tag + ("(" + u);
    BriefPidAccepts(pidGap, pid, messageGap, m);
    BriefLayout(lc, tag, u, s, r, |tag|);
    MatchBriefWhen(s, r, |tag|, pid, after, MessageField(after).value);
  }

  lemma BriefAccepts(p: Pieces)
    requires p.BriefPieces? && Fits(p)
    ensures MatchBrief(LineString(p)).Some?
  {
    BriefTextAccepts(p.level, p.tag, p.pidGap, p.pid, p.messageGap, p.message);
  }

  // ---------------------------------------------------------------------------
  // The recognisers, pattern by pattern

  /** `LOGCAT_REGEX`: the threadtime recogniser accepts exactly the texts that
      split into the pattern's pieces, and reports the captures of such a split. */
  lemma ThreadtimeExactly(s: string)
    ensures MatchThreadtime(s).Some? <==> exists p: Pieces :: p.StampedPieces? && SplitsAs(s, p)
    ensures MatchThreadtime(s).Some? ==>
      exists p: Pieces :: p.StampedPieces? && SplitsAs(s, p) && Captures(p) == MatchThreadtime(s).value
  {
    if MatchThreadtime(s).Some? {
      var p := ThreadtimeSplit(s);
    }
    if exists p: Pieces :: p.StampedPieces? && SplitsAs(s, p) {
      var p: Pieces :| p.StampedPieces? && SplitsAs(s, p);
      ThreadtimeAccepts(p);
    }
  }

  /** `LOGCAT_ALT_REGEX`: the same for the time-only pattern. */
  lemma TimeOnlyExactly(s: string)
    ensures MatchTimeOnly(s).Some? <==> exists p: Pieces :: p.ClockPieces? && SplitsAs(s, p)
    ensures MatchTimeOnly(s).Some? ==>
      exists p: Pieces :: p.ClockPieces? && SplitsAs(s, p) && Captures(p) == MatchTimeOnly(s).value
  {
    if MatchTimeOnly(s).Some? {
      var p := TimeOnlySplit(s);
    }
    if exists p: Pieces :: p.ClockPieces? && SplitsAs(s, p) {
      var p: Pieces :| p.ClockPieces? && SplitsAs(s, p);
      TimeOnlyAccepts(p);
    }
  }

  /** `LOGCAT_BRIEF_REGEX`: the same for the brief pattern. */
  lemma BriefExactly(s: string)
    ensures MatchBrief(s).Some? <==> exists p: Pieces :: p.BriefPieces? && SplitsAs(s, p)
    ensures MatchBrief(s).Some? ==>
      exists p: Pieces :: p.BriefPieces? && SplitsAs(s, p) && Captures(p) == MatchBrief(s).value
  {
    if MatchBrief(s).Some? {
      var p := BriefSplit(s);
    }
    if exists p: Pieces :: p.BriefPieces? && SplitsAs(s, p) {
      var p: Pieces :| p.BriefPieces? && SplitsAs(s, p);
      BriefAccepts(p);
    }
  }

  /** The three patterns together: a text is recognised exactly when it
      splits under one of them, and the captures come from such a split. */
  lemma RecogniseExactly(s: string)
    ensures Recognise(s).Some? <==> exists p :: SplitsAs(s, p)
    ensures Recognise(s).Some? ==> exists p :: SplitsAs(s, p) && Captures(p) == Recognise(s).value
  {
    ThreadtimeExactly(s);
    TimeOnlyExactly(s);
    BriefExactly(s);
    if exists p :: SplitsAs(s, p) {
      var p :| SplitsAs(s, p);
      assert p.StampedPieces? || p.ClockPieces? || p.BriefPieces?;
    }
  }

  /** Every split starts with a digit or a level letter, never with the dash
      of a `--------- beginning of` marker. */
  lemma SplitStart(s: string, p: Pieces)
    requires SplitsAs(s, p)
    ensures |s| > 0 && s[0] != '-'
  {
    match p
    case StampedPieces(date, _, _, _) => assert s[0] == date[0];
    case ClockPieces(time, _) => assert s[0] == time[0];
    case BriefPieces(lc, _, _, _, _, _) => LevelCharPlain(lc);
  }

  /** `parse_line` returns an entry exactly when the trimmed line splits
      under one of the three patterns, and the entry is built from the
      captures of such a split. */
  lemma ParseLineExactly(q: LogParser, line: string, now: Clock)
    ensures ParseLine(q, line, now).1.Some? <==> exists p :: SplitsAs(Trim(line), p)
    ensures ParseLine(q, line, now).1.Some? ==>
      exists p :: SplitsAs(Trim(line), p)
               && ParseLine(q, line, now).1.value == BuildEntry(q.nextId, Captures(p), Trim(line), now)
  {
    var t := Trim(line);
    RecogniseExactly(t);
    if exists p :: SplitsAs(t, p) {
      var p :| SplitsAs(t, p);
      SplitStart(t, p);
      NotMarker(t);
      ParseLineOfTrim(q, line, now, t, Recognise(t).value);
    }
  }
}
