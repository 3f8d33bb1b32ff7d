/** The line layouts `adb logcat` writes, and the proof that the parser reads
    each of them back into the fields they were written from
    (src-tauri/src/parser.rs, the three patterns and their tests). */
module LogcatFormats {
  import opened Options
  import opened Text
  import opened Parser

  /** A tag as it can appear before the colon: no colon, not blank-edged. */
  predicate IsTag(t: string) {
    |t| > 0 && ':' !in t && !IsSpace(t[0]) && !IsSpace(t[|t| - 1])
  }

  /** A brief-format tag: no opening parenthesis, not blank-edged. */
  predicate IsBriefTag(t: string) {
    |t| > 0 && '(' !in t && !IsSpace(t[0]) && !IsSpace(t[|t| - 1])
  }

  /** A one-line message without surrounding whitespace. */
  predicate IsMessage(m: string) {
    '\n' !in m && (|m| == 0 || (!IsSpace(m[0]) && !IsSpace(m[|m| - 1])))
  }

  /** The columns of a threadtime line after its time stamp: pid and tid
      right-aligned in whitespace, the level letter, the tag padded to its
      column, the message. */
  datatype Columns = Columns(
    pidGap: string, pid: string,
    tidGap: string, tid: string,
    level: LogLevel,
    tag: string, tagPad: string,
    message: string)

  predicate WellFormed(c: Columns) {
    && |c.pidGap| > 0 && AllSpace(c.pidGap)
    && |c.pid| > 0 && AllDigits(c.pid)
    && |c.tidGap| > 0 && AllSpace(c.tidGap)
    && |c.tid| > 0 && AllDigits(c.tid)
    && IsTag(c.tag) && AllSpace(c.tagPad)
    && IsMessage(c.message)
  }

  /** `": msg"`, or just `":"` for an empty message (the trailing blank logcat
      prints then is removed by the line trim). */
  function MessageText(m: string): string {
    if |m| == 0 then "" else " " + m
  }

  function TailText(c: Columns): string {
    c.pidGap + (c.pid + (c.tidGap + (c.tid + (" " + ([LevelChar(c.level)]
      + (" " + (c.tag + (c.tagPad + (":" + MessageText(c.message))))))))))
  }

  /** `MM-DD HH:MM:SS.mmm  PID  TID L TAG: message`. */
  function ThreadtimeLine(date: string, time: string, c: Columns): string {
    date + (" " + (time + TailText(c)))
  }

  /** `HH:MM:SS.mmm  PID  TID L TAG: message`. */
  function TimeOnlyLine(time: string, c: Columns): string {
    time + TailText(c)
  }

  /** `L/TAG( PID): message`. */
  function BriefLine(level: LogLevel, tag: string, pidPad: string, pid: string, m: string): string {
    [LevelChar(level)] + ("/" + (tag + ("(" + (pidPad + (pid + ("):" + MessageText(m)))))))
  }

  // ---------------------------------------------------------------------------
  // Field by field

  lemma MessageFieldOf(m: string)
    requires IsMessage(m)
    ensures MessageField(MessageText(m)) == Some(m)
  {
    if |m| > 0 {
      SpanStops(" ", m, Space);
      assert (" " + m)[1..] == m;
    }
  }

  lemma DigitFieldOf(gap: string, ds: string, rest: string)
    requires |gap| > 0 && AllSpace(gap)
    requires |ds| > 0 && AllDigits(ds)
    requires |rest| == 0 || !IsDigit(rest[0])
    ensures DigitField(gap + (ds + rest)) == Some((ds, rest))
  {
    assert !IsSpace(ds[0]);
    SpanStops(gap, ds + rest, Space);
    assert (gap + (ds + rest))[|gap|..] == ds + rest;
    SpanStops(ds, rest, Digit);
    assert (ds + rest)[..|ds|] == ds;
    assert (ds + rest)[|ds|..] == rest;
  }

  lemma LevelFieldOf(c: char, rest: string)
    requires IsLevelChar(c)
    ensures LevelField(" " + ([c] + rest)) == Some((c, rest))
  {
    SpanStops(" ", [c] + rest, Space);
    assert (" " + ([c] + rest))[1] == c;
    assert (" " + ([c] + rest))[2..] == rest;
  }

  /** How `TagMessage` reads a text whose single leading blank is followed
      by a tag that ends at the first colon. */
  lemma TagMessageWhen(s: string, rest: string, c: nat, m: string)
    requires Span(s, Space) == 1 && s[1..] == rest
    requires IndexOf(rest, ':') == Some(c) && c > 0
    requires MessageField(rest[c + 1..]) == Some(m)
    ensures TagMessage(s) == Some((rest[..c], m))
  {
  }

  /** A single blank in front of a field that starts with a non-blank. */
  lemma OneBlank(rest: string)
    requires |rest| > 0 && !IsSpace(rest[0])
    ensures Span(" " + rest, Space) == 1 && (" " + rest)[1..] == rest
  {
    SpanStops(" ", rest, Space);
  }

  lemma NoColon(tag: string, pad: string)
    requires IsTag(tag) && AllSpace(pad)
    ensures ':' !in tag + pad
  {
    assert ':' !in pad;
  }

  lemma ColonAfter(a: string, msg: string)
    requires ':' !in a
    ensures IndexOf(a + (":" + msg), ':') == Some(|a|)
  {
    IndexOfFirst(a, ':', msg);
  }

  lemma Regroup(a: string, b: string, c: string, d: string)
    ensures a + (b + (c + d)) == (a + b) + (c + d)
  {
  }

  /** The tag column's first colon is the one after the padding. */
  lemma TagColon(tag: string, pad: string, msg: string, c: nat)
    requires ':' !in tag + pad && c == |tag| + |pad|
    ensures IndexOf(tag + (pad + (":" + msg)), ':') == Some(c)
  {
    Regroup(tag, pad, ":", msg);
    ColonAfter(tag + pad, msg);
  }

  lemma TagSlices(tag: string, pad: string, msg: string, rest: string, c: nat)
    requires rest == tag + (pad + (":" + msg)) && c == |tag| + |pad|
    ensures rest[..c] == tag + pad && rest[c + 1..] == msg
  {
    assert rest == (tag + pad) + (":" + msg);
  }

  /** `TagMessage` on a tag column, from the few facts it depends on. */
  lemma TagMessageCore(tagPad: string, msg: string, m: string, rest: string, c: nat)
    requires Span(" " + rest, Space) == 1 && (" " + rest)[1..] == rest
    requires IndexOf(rest, ':') == Some(c) && c > 0
    requires rest[..c] == tagPad && rest[c + 1..] == msg
    requires MessageField(msg) == Some(m)
    ensures TagMessage(" " + rest) == Some((tagPad, m))
  {
    TagMessageWhen(" " + rest, rest, c, m);
  }

  lemma TagMessageOf(tag: string, pad: string, m: string)
    requires IsTag(tag) && AllSpace(pad) && IsMessage(m)
    ensures TagMessage(" " + (tag + (pad + (":" + MessageText(m))))) == Some((tag + pad, m))
  {
    var msg := MessageText(m);
    var rest := tag + (pad + (":" + msg));
    var c := |tag| + |pad|;
    NoColon(tag, pad);
    TagColon(tag, pad, msg, c);
    OneBlank(rest);
    MessageFieldOf(m);
    TagSlices(tag, pad, msg, rest, c);
    TagMessageCore(tag + pad, msg, m, rest, c);
  }

  lemma MatchTailOf(c: Columns)
    requires WellFormed(c)
    ensures MatchTail(TailText(c)) == Some(Tail(c.pid, c.tid, LevelChar(c.level), c.tag + c.tagPad, c.message))
  {
    var lc := LevelChar(c.level);
    var r3 := " " + (c.tag + (c.tagPad + (":" + MessageText(c.message))));
    var r2 := " " + ([lc] + r3);
    var r1 := c.tidGap + (c.tid + r2);
    assert TailText(c) == c.pidGap + (c.pid + r1);
    assert !IsDigit(c.tidGap[0]);
    DigitFieldOf(c.pidGap, c.pid, r1);
    DigitFieldOf(c.tidGap, c.tid, r2);
    LevelFieldOf(lc, r3);
    TagMessageOf(c.tag, c.tagPad, c.message);
  }

  // ---------------------------------------------------------------------------
  // Whole lines

  /** The captures a well-formed threadtime tail yields: the tag capture
      still holds the padding that `trim` removes later. */
  function TailOf(c: Columns): Tail {
    Tail(c.pid, c.tid, LevelChar(c.level), c.tag + c.tagPad, c.message)
  }

  /** A line with no whitespace at either end that cannot start a
      `--------- beginning of` marker. */
  predicate Bare(line: string) {
    |line| > 0 && !IsSpace(line[0]) && !IsSpace(line[|line| - 1]) && line[0] != '-'
  }

  /** A bare line is its own trim, and padding around it is removed. */
  lemma TrimLine(lead: string, line: string, trail: string)
    requires AllSpace(lead) && AllSpace(trail) && Bare(line)
    ensures Trim(lead + line + trail) == line
  {
    TrimPadded(lead, line, trail);
  }

  /** The padding after a tag is removed by the tag's trim. */
  lemma TrimTag(tag: string, pad: string)
    requires IsTag(tag) || IsBriefTag(tag)
    requires AllSpace(pad)
    ensures Trim(tag + pad) == tag
  {
    TrimPadded("", tag, pad);
    assert "" + tag + pad == tag + pad;
  }

  /** The time stamp capture `MM-DD HH:MM:SS.mmm` keeps only its time part. */
  lemma LastWordOfStamp(date: string, time: string)
    requires IsDate(date) && IsClock(time)
    ensures LastWord(date + " " + time) == time
  {
    var ws := [date, time];
    assert JoinSpace(ws) == date + " " + time;
    SplitJoin(ws);
  }

  lemma NotMarker(line: string)
    requires |line| > 0 && line[0] != '-'
    ensures !(BEGIN_MARKER <= line)
  {
    assert BEGIN_MARKER[0] == '-';
  }

  /** `parse_line` on any line whose trim is recognised. */
  lemma ParseLineOfTrim(p: LogParser, x: string, now: Clock, t: string, shape: Shape)
    requires Trim(x) == t && |t| > 0 && !(BEGIN_MARKER <= t)
    requires Recognise(t) == Some(shape)
    ensures ParseLine(p, x, now) == (LogParser(p.nextId + 1), Some(BuildEntry(p.nextId, shape, t, now)))
  {
  }

  /** A padded line whose trim is recognised becomes the next entry. */
  lemma ParseLineWhen(p: LogParser, lead: string, line: string, trail: string, now: Clock, shape: Shape)
    requires AllSpace(lead) && AllSpace(trail) && Bare(line)
    requires Recognise(line) == Some(shape)
    ensures ParseLine(p, lead + line + trail, now)
         == (LogParser(p.nextId + 1), Some(BuildEntry(p.nextId, shape, line, now)))
  {
    TrimLine(lead, line, trail);
    NotMarker(line);
    ParseLineOfTrim(p, lead + line + trail, now, line, shape);
  }

  lemma LastOfTail(c: Columns)
    requires WellFormed(c)
    ensures |TailText(c)| > 0 && !IsSpace(TailText(c)[|TailText(c)| - 1])
  {
    var m := MessageText(c.message);
    var t := TailText(c);
    assert t == (c.pidGap + (c.pid + (c.tidGap + (c.tid + (" " + ([LevelChar(c.level)]
      + (" " + (c.tag + (c.tagPad)))))))) + ":") + m;
    if |c.message| == 0 {
      assert t[|t| - 1] == ':';
    } else {
      assert t[|t| - 1] == c.message[|c.message| - 1];
    }
  }

  /** A stamped line is bare when its tail ends in a non-blank. */
  lemma BareStamped(head: string, t: string)
    requires |head| > 0 && IsDigit(head[0])
    requires |t| > 0 && !IsSpace(t[|t| - 1])
    ensures Bare(head + t)
  {
    var s := head + t;
    assert s[0] == head[0];
    assert s[|s| - 1] == t[|t| - 1];
  }

  /** How `MatchThreadtime` reads a stamp with a single blank between date and time. */
  lemma MatchThreadtimeWhen(s: string, r: string, tl: Tail)
    requires |s| >= 18 && IsDate(s[..5]) && Span(s[5..], Space) == 1
    requires r == s[6..] && IsClock(r[..12]) && MatchTail(r[12..]) == Some(tl)
    ensures MatchThreadtime(s) == Some(Threadtime(s[..18], tl))
  {
  }

  /** Where the pieces of `date + " " + time + t` sit. */
  lemma StampLayout(date: string, time: string, t: string)
    requires IsDate(date) && IsClock(time)
    ensures var s := date + (" " + (time + t));
      && |s| >= 18 && s[..5] == date && Span(s[5..], Space) == 1
      && s[6..][..12] == time && s[6..][12..] == t && s[..18] == date + " " + time
  {
    var s := date + (" " + (time + t));
    assert s[5..] == " " + (time + t);
    assert !IsSpace(time[0]);
    SpanStops(" ", time + t, Space);
    var r := s[6..];
    assert r == time + t;
    assert r[..12] == time;
    assert r[12..] == t;
    assert s[..18] == date + " " + time;
  }

  lemma RecogniseThreadtimeOf(date: string, time: string, t: string, tl: Tail)
    requires IsDate(date) && IsClock(time) && MatchTail(t) == Some(tl)
    ensures Recognise(date + (" " + (time + t))) == Some(Threadtime(date + " " + time, tl))
  {
    var s := date + (" " + (time + t));
    StampLayout(date, time, t);
    MatchThreadtimeWhen(s, s[6..], tl);
  }

  lemma MatchTimeOnlyWhen(s: string, tl: Tail)
    requires |s| >= 12 && IsClock(s[..12]) && MatchTail(s[12..]) == Some(tl)
    ensures MatchTimeOnly(s) == Some(TimeOnly(s[..12], tl))
  {
  }

  /** A line whose third character is a colon has no date in front. */
  lemma NoDate(s: string)
    requires |s| > 2 && s[2] == ':'
    ensures MatchThreadtime(s).None?
  {
    if |s| >= 5 {
      assert s[..5][2] == ':';
    }
  }

  lemma SplitAt12(time: string, t: string, s: string)
    requires |time| == 12 && s == time + t
    ensures s[..12] == time && s[12..] == t && s[2] == time[2]
  {
  }

  lemma RecogniseTimeOnlyOf(time: string, t: string, tl: Tail)
    requires IsClock(time) && MatchTail(t) == Some(tl)
    ensures Recognise(time + t) == Some(TimeOnly(time, tl))
  {
    var s := time + t;
    SplitAt12(time, t, s);
    NoDate(s);
    MatchTimeOnlyWhen(s, tl);
  }

  /** A line that does not start with a digit has no time stamp, so only
      the brief pattern can match it. */
  lemma RecogniseUnstamped(s: string)
    requires |s| > 0 && !IsDigit(s[0])
    ensures Recognise(s) == MatchBrief(s)
  {
    assert |s| < 5 || !IsDate(s[..5]);
    assert MatchThreadtime(s).None?;
    assert |s| < 12 || !IsClock(s[..12]);
    assert MatchTimeOnly(s).None?;
  }

  lemma MatchBriefWhen(s: string, r: string, c: nat, pid: string, after: string, m: string)
    requires |s| >= 2 && IsLevelChar(s[0]) && s[1] == '/' && s[2..] == r
    requires IndexOf(r, '(') == Some(c) && c > 0
    requires ParenPid(r[c + 1..]) == Some((pid, after))
    requires MessageField(after) == Some(m)
    ensures MatchBrief(s) == Some(Brief(s[0], r[..c], pid, m))
  {
  }

  /** How `ParenPid` reads a padded digit run closed by `):`. */
  lemma ParenPidWhen(s: string, w: nat, r: string, d: nat, after: string)
    requires w <= |s| && Span(s, Space) == w && s[w..] == r
    requires Span(r, Digit) == d && d > 0 && |r| >= d + 2
    requires r[d] == ')' && r[d + 1] == ':' && r[d + 2..] == after
    ensures ParenPid(s) == Some((r[..d], after))
  {
  }

  lemma PidClose(pid: string, msg: string, u: string, d: nat)
    requires u == pid + ("):" + msg) && d == |pid|
    ensures |u| >= d + 2 && u[..d] == pid && u[d] == ')' && u[d + 1] == ':' && u[d + 2..] == msg
  {
    assert u == (pid + "):") + msg;
  }

  lemma ParenPidOf(pidPad: string, pid: string, msg: string)
    requires AllSpace(pidPad) && |pid| > 0 && AllDigits(pid)
    ensures ParenPid(pidPad + (pid + ("):" + msg))) == Some((pid, msg))
  {
    var tail := "):" + msg;
    var u := pid + tail;
    var s := pidPad + u;
    var w := |pidPad|;
    var d := |pid|;
    assert !IsSpace(u[0]) by { assert u[0] == pid[0]; }
    SpanStops(pidPad, u, Space);
    assert s[w..] == u;
    SpanStops(pid, tail, Digit);
    PidClose(pid, msg, u, d);
    ParenPidWhen(s, w, u, d, msg);
  }

  /** Level letters are neither digits nor blanks nor dashes. */
  lemma LevelCharPlain(c: char)
    requires IsLevelChar(c)
    ensures !IsDigit(c) && !IsSpace(c) && c != '-'
  {
    assert c == 'V' || c == 'D' || c == 'I' || c == 'W' || c == 'E' || c == 'F' || c == 'A';
  }

  /** Where the pieces of `L/TAG(...` sit. */
  lemma BriefLayout(lc: char, tag: string, u: string, s: string, r: string, c: nat)
    requires s == [lc] + ("/" + (tag + ("(" + u))) && r == tag + ("(" + u) && c == |tag|
    requires '(' !in tag
    ensures |s| >= 2 && s[0] == lc && s[1] == '/' && s[2..] == r
    ensures IndexOf(r, '(') == Some(c) && r[..c] == tag && r[c + 1..] == u
  {
    assert s[2..] == r;
    assert r[..c] == tag;
    IndexOfAt(r, '(', c);
  }

  lemma RecogniseBriefOf(lc: char, tag: string, u: string, pid: string, after: string, m: string)
    requires IsLevelChar(lc) && IsBriefTag(tag)
    requires ParenPid(u) == Some((pid, after))
    requires MessageField(after) == Some(m)
    ensures Recognise([lc] + ("/" + (tag + ("(" + u)))) == Some(Brief(lc, tag, pid, m))
  {
    var s := [lc] + ("/" + (tag + ("(" + u)));
    var r := tag + ("(" + u);
    var c := |tag|;
    BriefLayout(lc, tag, u, s, r, c);
    MatchBriefWhen(s, r, c, pid, after, m);
    LevelCharPlain(lc);
    RecogniseUnstamped(s);
  }

  lemma ThreadtimeLineFacts(date: string, time: string, c: Columns)
    requires IsDate(date) && IsClock(time) && WellFormed(c)
    ensures Bare(ThreadtimeLine(date, time, c))
    ensures Recognise(ThreadtimeLine(date, time, c)) == Some(Threadtime(date + " " + time, TailOf(c)))
  {
    var t := TailText(c);
    LastOfTail(c);
    assert ThreadtimeLine(date, time, c) == (date + " " + time) + t;
    BareStamped(date + " " + time, t);
    MatchTailOf(c);
    RecogniseThreadtimeOf(date, time, t, TailOf(c));
  }

  lemma TimeOnlyLineFacts(time: string, c: Columns)
    requires IsClock(time) && WellFormed(c)
    ensures Bare(TimeOnlyLine(time, c))
    ensures Recognise(TimeOnlyLine(time, c)) == Some(TimeOnly(time, TailOf(c)))
  {
    LastOfTail(c);
    BareStamped(time, TailText(c));
    MatchTailOf(c);
    RecogniseTimeOnlyOf(time, TailText(c), TailOf(c));
  }

  lemma BriefLineBare(level: LogLevel, tag: string, pidPad: string, pid: string, m: string)
    requires IsMessage(m)
    ensures Bare(BriefLine(level, tag, pidPad, pid, m))
  {
    var line := BriefLine(level, tag, pidPad, pid, m);
    var head := [LevelChar(level)] + ("/" + (tag + ("(" + (pidPad + (pid + "):")))));
    assert line == head + MessageText(m);
    if |m| == 0 {
      assert line[|line| - 1] == ':';
    } else {
      assert line[|line| - 1] == m[|m| - 1];
    }
    LevelCharPlain(LevelChar(level));
  }

  lemma BriefLineFacts(level: LogLevel, tag: string, pidPad: string, pid: string, m: string)
    requires IsBriefTag(tag) && AllSpace(pidPad) && |pid| > 0 && AllDigits(pid) && IsMessage(m)
    ensures Bare(BriefLine(level, tag, pidPad, pid, m))
    ensures Recognise(BriefLine(level, tag, pidPad, pid, m)) == Some(Brief(LevelChar(level), tag, pid, m))
  {
    BriefLineBare(level, tag, pidPad, pid, m);
    var u := pidPad + (pid + ("):" + MessageText(m)));
    ParenPidOf(pidPad, pid, MessageText(m));
    MessageFieldOf(m);
    RecogniseBriefOf(LevelChar(level), tag, u, pid, MessageText(m), m);
  }

  /** The entry built from a threadtime match, field by field. */
  lemma BuildThreadtime(id: nat, date: string, time: string, tl: Tail, level: LogLevel, tag: string, raw: string, now: Clock)
    requires IsDate(date) && IsClock(time)
    requires tl.level == LevelChar(level) && Trim(tl.tag) == tag
    ensures BuildEntry(id, Threadtime(date + " " + time, tl), raw, now)
         == LogEntry(id, None, time, Some(now.year + "-" + (date + " " + time)), Some(EpochMillis(now)),
                     DigitsToU32(tl.pid), DigitsToU32(tl.tid), level, tag, tl.message, None, None, Some(raw))
  {
    LastWordOfStamp(date, time);
  }

  /** The entry built from a brief match, field by field. */
  lemma BuildBrief(id: nat, level: LogLevel, tag: string, pid: string, m: string, raw: string, now: Clock)
    requires IsBriefTag(tag)
    ensures BuildEntry(id, Brief(LevelChar(level), tag, pid, m), raw, now)
         == LogEntry(id, None, now.time, Some(now.year + "-" + now.monthDay + " " + now.time), Some(EpochMillis(now)),
                     DigitsToU32(pid), 0, level, tag, m, None, None, Some(raw))
  {
    TrimBare(tag);
  }

  /** A threadtime line parses into exactly the fields it was written from;
      a pid or tid column too large for `u32` reads as 0. The whitespace
      around the line, in the pid and tid gaps and after the tag is free;
      the blank between date and time, those on each side of the level
      letter and the one after the colon are single. */
  lemma ParseThreadtimeLine(p: LogParser, lead: string, date: string, time: string, c: Columns, trail: string, now: Clock)
    requires IsDate(date) && IsClock(time) && WellFormed(c)
    requires AllSpace(lead) && AllSpace(trail)
    ensures ParseLine(p, lead + ThreadtimeLine(date, time, c) + trail, now)
         == (LogParser(p.nextId + 1),
             Some(LogEntry(p.nextId, None, time, Some(now.year + "-" + (date + " " + time)), Some(EpochMillis(now)),
                           DigitsToU32(c.pid), DigitsToU32(c.tid), c.level, c.tag, c.message,
                           None, None, Some(ThreadtimeLine(date, time, c)))))
  {
    var line := ThreadtimeLine(date, time, c);
    TrimTag(c.tag, c.tagPad);
    ThreadtimeLineFacts(date, time, c);
    ParseLineWhen(p, lead, line, trail, now, Threadtime(date + " " + time, TailOf(c)));
    BuildThreadtime(p.nextId, date, time, TailOf(c), c.level, c.tag, line, now);
  }

  /** A threadtime line without the date parses the same way; its date and
      year come from the clock. */
  lemma ParseTimeOnlyLine(p: LogParser, lead: string, time: string, c: Columns, trail: string, now: Clock)
    requires IsClock(time) && WellFormed(c)
    requires AllSpace(lead) && AllSpace(trail)
    ensures ParseLine(p, lead + TimeOnlyLine(time, c) + trail, now)
         == (LogParser(p.nextId + 1),
             Some(LogEntry(p.nextId, None, time, Some(now.year + "-" + now.monthDay + " " + time), Some(EpochMillis(now)),
                           DigitsToU32(c.pid), DigitsToU32(c.tid), c.level, c.tag, c.message,
                           None, None, Some(TimeOnlyLine(time, c)))))
  {
    TrimTag(c.tag, c.tagPad);
    TimeOnlyLineFacts(time, c);
    ParseLineWhen(p, lead, TimeOnlyLine(time, c), trail, now, TimeOnly(time, TailOf(c)));
  }

  /** A brief line parses into its level, tag, pid and message; it carries
      no thread id, so `tid` is 0, and its time comes from the clock. */
  lemma ParseBriefLine(p: LogParser, lead: string, level: LogLevel, tag: string, pidPad: string, pid: string, m: string, trail: string, now: Clock)
    requires IsBriefTag(tag) && AllSpace(pidPad) && |pid| > 0 && AllDigits(pid) && IsMessage(m)
    requires AllSpace(lead) && AllSpace(trail)
    ensures ParseLine(p, lead + BriefLine(level, tag, pidPad, pid, m) + trail, now)
         == (LogParser(p.nextId + 1),
             Some(LogEntry(p.nextId, None, now.time, Some(now.year + "-" + now.monthDay + " " + now.time), Some(EpochMillis(now)),
                           DigitsToU32(pid), 0, level, tag, m,
                           None, None, Some(BriefLine(level, tag, pidPad, pid, m)))))
  {
    var line := BriefLine(level, tag, pidPad, pid, m);
    BriefLineFacts(level, tag, pidPad, pid, m);
    ParseLineWhen(p, lead, line, trail, now, Brief(LevelChar(level), tag, pid, m));
    BuildBrief(p.nextId, level, tag, pid, m, line, now);
  }
}
