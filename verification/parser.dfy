/** Parsing of `adb logcat` output lines into log entries
    (src-tauri/src/parser.rs). The three line shapes the parser accepts are
    recognised character by character, with the same greedy choices the
    regex crate makes for the fixed patterns. */
module Parser {
  import opened Options
  import opened Text

  // ---------------------------------------------------------------------------
  // Data model

  /** Android log priorities, lowest first. */
  datatype LogLevel = V | D | I | W | E | A

  /** `LogLevel::from_char`: the six level letters, with `F` (fatal) folded into `A`. */
  function LevelFromChar(c: char): (r: Option<LogLevel>)
    ensures r.Some? <==> c in "VDIWEAF"
    ensures c == 'V' ==> r == Some(V)
    ensures c == 'D' ==> r == Some(D)
    ensures c == 'I' ==> r == Some(I)
    ensures c == 'W' ==> r == Some(W)
    ensures c == 'E' ==> r == Some(E)
    ensures c == 'A' || c == 'F' ==> r == Some(A)
  {
    match c
    case 'V' => Some(V)
    case 'D' => Some(D)
    case 'I' => Some(I)
    case 'W' => Some(W)
    case 'E' => Some(E)
    case 'A' => Some(A)
    case 'F' => Some(A)
    case _ => None
  }

  /** The letter logcat prints for a level; `LevelFromChar` reads it back. */
  function LevelChar(l: LogLevel): (c: char)
    ensures LevelFromChar(c) == Some(l)
    ensures c != 'F'
  {
    match l
    case V => 'V'
    case D => 'D'
    case I => 'I'
    case W => 'W'
    case E => 'E'
    case A => 'A'
  }

  /** A parsed log line. `id` is a `u64`, `pid`/`tid` are `u32`. */
  datatype LogEntry = LogEntry(
    id: nat,
    deviceId: Option<string>,
    timestamp: string,
    dateTime: Option<string>,
    epoch: Option<nat>,
    pid: nat,
    tid: nat,
    level: LogLevel,
    tag: string,
    message: string,
    packageName: Option<string>,
    processName: Option<string>,
    raw: Option<string>)

  /** One reading of the local wall clock, already formatted the way the
      parser formats it: `%Y`, `%m-%d`, `%H:%M:%S%.3f`, and the signed
      milliseconds since the epoch. */
  datatype Clock = Clock(year: string, monthDay: string, time: string, millis: int)

  /** `timestamp_millis() as u64`: the signed value reinterpreted as unsigned. */
  function EpochMillis(now: Clock): (m: nat)
    ensures m < 0x1_0000_0000_0000_0000
    ensures 0 <= now.millis < 0x1_0000_0000_0000_0000 ==> m == now.millis
  {
    now.millis % 0x1_0000_0000_0000_0000
  }

  /** The parser's only state: the id the next parsed entry receives. */
  datatype LogParser = LogParser(nextId: nat)

  /** `LogParser::new`. */
  function NewParser(): (p: LogParser)
    ensures p.nextId == 0
  {
    LogParser(0)
  }

  /** `LogParser::reset`. */
  function Reset(p: LogParser): (r: LogParser)
    ensures r.nextId == 0
    ensures r == NewParser()
  {
    LogParser(0)
  }

  // ---------------------------------------------------------------------------
  // Recognisers for the fixed line patterns

  /** The text of the marker lines logcat prints between buffers. */
  const BEGIN_MARKER: string := "--------- beginning of"

  /** The regex class `[VDIWEFA]`. */
  predicate IsLevelChar(c: char) { c in "VDIWEFA" }

  /** `\d{2}-\d{2}`. */
  predicate IsDate(t: string) {
    |t| == 5 && IsDigit(t[0]) && IsDigit(t[1]) && t[2] == '-' && IsDigit(t[3]) && IsDigit(t[4])
  }

  /** `\d{2}:\d{2}:\d{2}\.\d{3}`. */
  predicate IsClock(t: string) {
    && |t| == 12
    && IsDigit(t[0]) && IsDigit(t[1]) && t[2] == ':'
    && IsDigit(t[3]) && IsDigit(t[4]) && t[5] == ':'
    && IsDigit(t[6]) && IsDigit(t[7]) && t[8] == '.'
    && IsDigit(t[9]) && IsDigit(t[10]) && IsDigit(t[11])
  }

  /** Captures shared by both threadtime patterns, after the time stamp:
      `\s+(\d+)\s+(\d+)\s+([VDIWEFA])\s+([^:]+):\s*(.*)$`. */
  datatype Tail = Tail(pid: string, tid: string, level: char, tag: string, message: string)

  /** Which pattern matched, with its captures. */
  datatype Shape =
    | Threadtime(stamp: string, tail: Tail)
    | TimeOnly(time: string, tail: Tail)
    | Brief(level: char, tag: string, pid: string, message: string)

  /** `\s*(.*)$`: leading whitespace is skipped and the rest, which `.` must
      cover up to the end of the text, may hold no line feed. */
  function MessageField(s: string): (r: Option<string>)
    ensures r.Some? ==> '\n' !in r.value && r.value == TrimStart(s)
    ensures r.None? ==> '\n' in s
  {
    var m := TrimStart(s);
    if '\n' in m then None else Some(m)
  }

  /** `\s+(\d+)`: the digit run and the text after it. */
  function DigitField(s: string): (r: Option<(string, string)>)
    ensures r.Some? ==> |r.value.0| > 0 && AllDigits(r.value.0)
    ensures r.Some? ==> |r.value.1| == 0 || !IsDigit(r.value.1[0])
    ensures r.Some? ==> |r.value.0| + |r.value.1| < |s|
  {
    var w := Span(s, Space);
    var r := s[w..];
    var d := Span(r, Digit);
    if w == 0 || d == 0 then None
    else Some((r[..d], r[d..]))
  }

  /** `\s+([VDIWEFA])`. */
  function LevelField(s: string): (r: Option<(char, string)>)
    ensures r.Some? ==> IsLevelChar(r.value.0) && |r.value.1| < |s|
  {
    var w := Span(s, Space);
    if w == 0 || w == |s| || !IsLevelChar(s[w]) then None
    else Some((s[w], s[w + 1..]))
  }

  /** `\s+([^:]+):\s*(.*)$`. The tag capture runs up to the first colon; when
      the colon follows the whitespace directly, the whitespace run gives up
      its last character to the tag capture, so at least two are needed. */
  function TagMessage(s: string): (r: Option<(string, string)>)
    ensures r.Some? ==> |r.value.0| > 0 && ':' !in r.value.0 && '\n' !in r.value.1
    ensures r.Some? ==> |r.value.1| == 0 || !IsSpace(r.value.1[0])
  {
    var w := Span(s, Space);
    var rest := s[w..];
    if w == 0 then None
    else
      match IndexOf(rest, ':')
      case None => None
      case Some(c) =>
        if c == 0 && w < 2 then None
        else
          var tag := if c > 0 then rest[..c] else s[w - 1..w];
          match MessageField(rest[c + 1..])
          case None => None
          case Some(m) => Some((tag, m))
  }

  function MatchTail(s: string): (r: Option<Tail>)
    ensures r.Some? ==> |r.value.pid| > 0 && AllDigits(r.value.pid)
    ensures r.Some? ==> |r.value.tid| > 0 && AllDigits(r.value.tid)
    ensures r.Some? ==> IsLevelChar(r.value.level) && ':' !in r.value.tag && '\n' !in r.value.message
    ensures r.Some? ==> |r.value.message| == 0 || !IsSpace(r.value.message[0])
  {
    match DigitField(s)
    case None => None
    case Some((pid, r1)) =>
      match DigitField(r1)
      case None => None
      case Some((tid, r2)) =>
        match LevelField(r2)
        case None => None
        case Some((lc, r3)) =>
          match TagMessage(r3)
          case None => None
          case Some((tag, m)) => Some(Tail(pid, tid, lc, tag, m))
  }

  /** `^(\d{2}-\d{2}\s+\d{2}:\d{2}:\d{2}\.\d{3})` followed by the tail. */
  function MatchThreadtime(s: string): (r: Option<Shape>)
    ensures r.Some? ==> r.value.Threadtime?
    ensures r.Some? ==> |r.value.tail.message| == 0 || !IsSpace(r.value.tail.message[0])
  {
    if |s| < 5 || !IsDate(s[..5]) then None
    else
      var w := Span(s[5..], Space);
      var r := s[5 + w..];
      if w == 0 || |r| < 12 || !IsClock(r[..12]) then None
      else
        match MatchTail(r[12..])
        case None => None
        case Some(t) => Some(Threadtime(s[..5 + w + 12], t))
  }

  /** `^(\d{2}:\d{2}:\d{2}\.\d{3})` followed by the tail. */
  function MatchTimeOnly(s: string): (r: Option<Shape>)
    ensures r.Some? ==> r.value.TimeOnly?
    ensures r.Some? ==> |r.value.tail.message| == 0 || !IsSpace(r.value.tail.message[0])
  {
    if |s| < 12 || !IsClock(s[..12]) then None
    else
      match MatchTail(s[12..])
      case None => None
      case Some(t) => Some(TimeOnly(s[..12], t))
  }

  /** `\s*(\d+)\):`, read just after the opening parenthesis: the digit run
      and the text after the colon. */
  function ParenPid(s: string): (r: Option<(string, string)>)
    ensures r.Some? ==> |r.value.0| > 0 && AllDigits(r.value.0)
  {
    var w := Span(s, Space);
    var r := s[w..];
    var d := Span(r, Digit);
    if d == 0 || |r| < d + 2 || r[d] != ')' || r[d + 1] != ':' then None
    else Some((r[..d], r[d + 2..]))
  }

  /** `^([VDIWEFA])/([^(]+)\(\s*(\d+)\):\s*(.*)$`. */
  function MatchBrief(s: string): (r: Option<Shape>)
    ensures r.Some? ==> r.value.Brief? && IsLevelChar(r.value.level) && |r.value.tag| > 0
    ensures r.Some? ==> |r.value.pid| > 0 && AllDigits(r.value.pid) && '\n' !in r.value.message
    ensures r.Some? ==> |r.value.message| == 0 || !IsSpace(r.value.message[0])
  {
    if |s| < 2 || !IsLevelChar(s[0]) || s[1] != '/' then None
    else
      var r := s[2..];
      match IndexOf(r, '(')
      case None => None
      case Some(c) =>
        if c == 0 then None
        else
          match ParenPid(r[c + 1..])
          case None => None
          case Some((pid, after)) =>
            match MessageField(after)
            case None => None
            case Some(m) => Some(Brief(s[0], r[..c], pid, m))
  }

  /** The three patterns, tried in the order the parser tries them. */
  function Recognise(t: string): Option<Shape> {
    var std := MatchThreadtime(t);
    if std.Some? then std
    else
      var alt := MatchTimeOnly(t);
      if alt.Some? then alt else MatchBrief(t)
  }

  // ---------------------------------------------------------------------------
  // Building entries

  /** A level capture read with `from_char(..).unwrap_or(D)`. */
  function LevelOf(c: char): LogLevel {
    LevelFromChar(c).GetOr(D)
  }

  /** The entry a recognised line becomes. */
  function BuildEntry(id: nat, shape: Shape, raw: string, now: Clock): (e: LogEntry)
    ensures e.id == id && e.raw == Some(raw) && e.epoch == Some(EpochMillis(now))
    ensures e.deviceId.None? && e.packageName.None? && e.processName.None?
    ensures e.pid < U32_LIMIT && e.tid < U32_LIMIT
    ensures shape.Brief? ==> e.tid == 0
  {
    match shape
    case Threadtime(stamp, t) =>
      LogEntry(id, None, LastWord(stamp), Some(now.year + "-" + stamp), Some(EpochMillis(now)),
               DigitsToU32(t.pid), DigitsToU32(t.tid), LevelOf(t.level), Trim(t.tag), t.message,
               None, None, Some(raw))
    case TimeOnly(time, t) =>
      LogEntry(id, None, time, Some(now.year + "-" + now.monthDay + " " + time), Some(EpochMillis(now)),
               DigitsToU32(t.pid), DigitsToU32(t.tid), LevelOf(t.level), Trim(t.tag), t.message,
               None, None, Some(raw))
    case Brief(lc, tag, pid, m) =>
      LogEntry(id, None, now.time, Some(now.year + "-" + now.monthDay + " " + now.time), Some(EpochMillis(now)),
               DigitsToU32(pid), 0, LevelOf(lc), Trim(tag), m,
               None, None, Some(raw))
  }

  /** Whether `parse_line` accepts a line; this depends on the line alone. */
  predicate Parses(line: string) {
    var t := Trim(line);
    |t| > 0 && !(BEGIN_MARKER <= t) && Recognise(t).Some?
  }

  /** `LogParser::parse_line`: the parser state after the call and the entry,
      if the trimmed line has one of the three shapes. */
  function ParseLine(p: LogParser, line: string, now: Clock): (res: (LogParser, Option<LogEntry>))
    ensures res.1.Some? <==> Parses(line)
    ensures res.1.None? ==> res.0 == p
    ensures res.1.Some? ==> res.0.nextId == p.nextId + 1 && res.1.value.id == p.nextId
    ensures AllSpace(line) ==> res.1.None?
    ensures BEGIN_MARKER <= Trim(line) ==> res.1.None?
    ensures res.1.Some? ==>
      var e := res.1.value;
      && e.raw == Some(Trim(line))
      && e.deviceId.None? && e.packageName.None? && e.processName.None?
      && e.pid < U32_LIMIT && e.tid < U32_LIMIT
      && e.epoch == Some(EpochMillis(now))
      && '\n' !in e.message
      && (|e.message| == 0 || !IsSpace(e.message[0]))
  {
    var t := Trim(line);
    if |t| == 0 || BEGIN_MARKER <= t then (p, None)
    else
      match Recognise(t)
      case None => (p, None)
      case Some(shape) => (LogParser(p.nextId + 1), Some(BuildEntry(p.nextId, shape, t, now)))
  }

  /** The trimmed line, when `parse_line` accepts it. */
  function AcceptedLine(line: string): (r: Option<string>)
    ensures r.Some? <==> Parses(line)
  {
    if Parses(line) then Some(Trim(line)) else None
  }

  function RawLines(es: seq<LogEntry>): (r: seq<string>)
    ensures |r| == |es|
  {
    if |es| == 0 then [] else [es[0].raw.GetOr("")] + RawLines(es[1..])
  }

  lemma RawLinesPrepend(e: Option<LogEntry>, es: seq<LogEntry>)
    ensures RawLines(e.ToSeq() + es) == (match e case Some(x) => [x.raw.GetOr("")] case None => []) + RawLines(es)
  {
    if e.Some? {
      assert (e.ToSeq() + es)[1..] == es;
    } else {
      assert e.ToSeq() + es == es;
    }
  }

  /** `parse_lines` over already split lines: line `k + i` is parsed with the
      clock reading `clock(k + i)`. */
  function ParseAll(p: LogParser, lines: seq<string>, clock: nat -> Clock, k: nat): (res: (LogParser, seq<LogEntry>))
    ensures |res.1| <= |lines|
    ensures res.0.nextId == p.nextId + |res.1|
    ensures forall i :: 0 <= i < |res.1| ==> res.1[i].id == p.nextId + i
    decreases |lines|
  {
    if |lines| == 0 then (p, [])
    else
      var (p1, e) := ParseLine(p, lines[0], clock(k));
      var (p2, es) := ParseAll(p1, lines[1..], clock, k + 1);
      (p2, e.ToSeq() + es)
  }

  /** The entries come from the accepted lines, one each, in line order. */
  lemma {:induction false} ParseAllKeepsLineOrder(p: LogParser, lines: seq<string>, clock: nat -> Clock, k: nat)
    ensures RawLines(ParseAll(p, lines, clock, k).1) == FilterMap(AcceptedLine, lines)
    decreases |lines|
  {
    if |lines| > 0 {
      var (p1, e) := ParseLine(p, lines[0], clock(k));
      ParseAllKeepsLineOrder(p1, lines[1..], clock, k + 1);
      RawLinesPrepend(e, ParseAll(p1, lines[1..], clock, k + 1).1);
    }
  }

  /** The positions from `from` on that hold `true`, in increasing order. */
  function TruePositions(bs: seq<bool>, from: nat): (js: seq<nat>)
    requires from <= |bs|
    ensures forall i :: 0 <= i < |js| ==> from <= js[i] < |bs| && bs[js[i]]
    decreases |bs| - from
  {
    if from == |bs| then []
    else (if bs[from] then [from] else []) + TruePositions(bs, from + 1)
  }

  /** The positions are listed in strictly increasing order. */
  lemma {:induction false} TruePositionsIncrease(bs: seq<bool>, from: nat)
    requires from <= |bs|
    ensures forall i, i' :: 0 <= i < i' < |TruePositions(bs, from)| ==> TruePositions(bs, from)[i] < TruePositions(bs, from)[i']
    decreases |bs| - from
  {
    if from < |bs| {
      TruePositionsIncrease(bs, from + 1);
      var js' := TruePositions(bs, from + 1);
      var js := TruePositions(bs, from);
      if bs[from] {
        assert js == [from] + js';
        forall i, i' | 0 <= i < i' < |js| ensures js[i] < js[i'] {
          assert js[i'] == js'[i' - 1] && js'[i' - 1] >= from + 1;
          if i > 0 {
            assert js[i] == js'[i - 1];
            assert js'[i - 1] < js'[i' - 1];
          }
        }
      } else {
        assert js == js';
      }
    }
  }

  /** Every position from `from` on that holds `true` is listed. */
  lemma {:induction false} TruePositionsComplete(bs: seq<bool>, from: nat, j: nat)
    requires from <= j < |bs| && bs[j]
    ensures j in TruePositions(bs, from)
    decreases j - from
  {
    if from < j {
      TruePositionsComplete(bs, from + 1, j);
      assert TruePositions(bs, from) == (if bs[from] then [from] else []) + TruePositions(bs, from + 1);
    }
  }

  /** Whether `parse_line` accepts each line. */
  function Accepts(lines: seq<string>): (bs: seq<bool>)
    ensures |bs| == |lines| && forall j :: 0 <= j < |lines| ==> bs[j] == Parses(lines[j])
  {
    seq(|lines|, j requires 0 <= j < |lines| => Parses(lines[j]))
  }

  /** The positions of the lines `parse_line` accepts, in increasing order:
      every accepted line, and only those. */
  function AcceptedIndices(lines: seq<string>): (js: seq<nat>)
    ensures forall i :: 0 <= i < |js| ==> js[i] < |lines| && Parses(lines[js[i]])
    ensures forall i, i' :: 0 <= i < i' < |js| ==> js[i] < js[i']
    ensures forall j :: 0 <= j < |lines| && Parses(lines[j]) ==> j in js
  {
    var bs := Accepts(lines);
    TruePositionsIncrease(bs, 0);
    forall j | 0 <= j < |lines| && Parses(lines[j]) ensures j in TruePositions(bs, 0) {
      TruePositionsComplete(bs, 0, j);
    }
    TruePositions(bs, 0)
  }

  /** `ParseAll` from line `from` on, with line `j` read at clock reading `j`,
      gives one entry per accepted line. */
  lemma {:induction false} ParseAllFromLength(p: LogParser, lines: seq<string>, clock: nat -> Clock, from: nat)
    requires from <= |lines|
    ensures |ParseAll(p, lines[from..], clock, from).1| == |TruePositions(Accepts(lines), from)|
    decreases |lines| - from
  {
    if from < |lines| {
      var (p1, e) := ParseLine(p, lines[from], clock(from));
      ParseAllFromLength(p1, lines, clock, from + 1);
      ParseAllUnfold(p, lines, clock, from);
      assert TruePositions(Accepts(lines), from)
          == (if Accepts(lines)[from] then [from] else []) + TruePositions(Accepts(lines), from + 1);
    } else {
      assert lines[from..] == [];
    }
  }

  /** Entry `i` of `ParseAll` from line `from` on is what `parse_line` returns
      for the `i`-th accepted line, called with next id `nextId + i`. */
  lemma {:induction false} ParseAllFromAt(p: LogParser, lines: seq<string>, clock: nat -> Clock, from: nat, i: nat)
    requires from < |lines|
    requires i < |ParseAll(p, lines[from..], clock, from).1|
    ensures i < |TruePositions(Accepts(lines), from)|
    ensures Some(ParseAll(p, lines[from..], clock, from).1[i])
         == ParseLine(LogParser(ParseAll(p, lines[from..], clock, from).1[i].id), lines[TruePositions(Accepts(lines), from)[i]],
                      clock(TruePositions(Accepts(lines), from)[i])).1
    decreases |lines| - from
  {
    ParseAllFromLength(p, lines, clock, from);
    var b := Accepts(lines)[from];
    if b && i == 0 {
      FirstEntry(p, lines, clock, from);
    } else {
      var (p1, e) := ParseLine(p, lines[from], clock(from));
      ParseAllUnfold(p, lines, clock, from);
      FirstLine(p, lines, clock, from);
      assert TruePositions(Accepts(lines), from) == (if b then [from] else []) + TruePositions(Accepts(lines), from + 1);
      var o := |e.ToSeq()|;
      if from + 1 == |lines| {
        assert false;
      }
      var k: nat := i - o;
      ParseAllFromAt(p1, lines, clock, from + 1, k);
      DropHead(e.ToSeq(), ParseAll(p1, lines[from + 1..], clock, from + 1).1);
      DropHead(if b then [from] else [], TruePositions(Accepts(lines), from + 1));
      var es, es' := ParseAll(p, lines[from..], clock, from).1, ParseAll(p1, lines[from + 1..], clock, from + 1).1;
      var js, js' := TruePositions(Accepts(lines), from), TruePositions(Accepts(lines), from + 1);
      ShiftEntry(es, es', js, js', o, i, k, lines, clock);
    }
  }

  /** An accepted line `from` gives the first entry of `ParseAll` from it. */
  lemma FirstEntry(p: LogParser, lines: seq<string>, clock: nat -> Clock, from: nat)
    requires from < |lines| && Accepts(lines)[from]
    ensures 0 < |ParseAll(p, lines[from..], clock, from).1| && 0 < |TruePositions(Accepts(lines), from)|
    ensures Some(ParseAll(p, lines[from..], clock, from).1[0])
         == ParseLine(LogParser(ParseAll(p, lines[from..], clock, from).1[0].id), lines[TruePositions(Accepts(lines), from)[0]],
                      clock(TruePositions(Accepts(lines), from)[0])).1
  {
    var (p1, e) := ParseLine(p, lines[from], clock(from));
    ParseAllUnfold(p, lines, clock, from);
    FirstLine(p, lines, clock, from);
    assert TruePositions(Accepts(lines), from) == [from] + TruePositions(Accepts(lines), from + 1);
    assert p == LogParser(ParseAll(p, lines[from..], clock, from).1[0].id);
    assert ParseAll(p, lines[from..], clock, from).1[0] == e.value && TruePositions(Accepts(lines), from)[0] == from;
  }

  /** Past a head of `o` entries and `o` positions, entry `i` and position
      `i` are entry and position `i - o` of the rest, so a fact about what
      `parse_line` returns for the one is one about the other. */
  lemma ShiftEntry(es: seq<LogEntry>, es': seq<LogEntry>, js: seq<nat>, js': seq<nat>, o: nat,
                   i: nat, k: nat, lines: seq<string>, clock: nat -> Clock)
    requires |es| - |es'| == |js| - |js'| == o
    requires es[o..] == es' && js[o..] == js'
    requires k == i - o && k < |es'| && k < |js'|
    requires i < |js| && js[i] < |lines|
    requires Some(es'[k]) == ParseLine(LogParser(es'[k].id), lines[js'[k]], clock(js'[k])).1
    ensures Some(es[i]) == ParseLine(LogParser(es[i].id), lines[js[i]], clock(js[i])).1
  {
    assert es[i] == es'[k] && js[i] == js'[k];
  }

  /** What the parse of line `from` contributes: an entry exactly when the
      line is accepted, and one id. */
  lemma FirstLine(p: LogParser, lines: seq<string>, clock: nat -> Clock, from: nat)
    requires from < |lines|
    ensures var (p1, e) := ParseLine(p, lines[from], clock(from));
      && (e.Some? <==> Accepts(lines)[from])
      && p1.nextId == p.nextId + |e.ToSeq()|
  {
  }

  /** Dropping the head of `head + rest` leaves `rest`. */
  lemma DropHead<T>(head: seq<T>, rest: seq<T>)
    ensures (head + rest)[|head|..] == rest
  {
  }

  /** `ParseAll` from line `from` is the parse of that line, then the rest. */
  lemma ParseAllUnfold(p: LogParser, lines: seq<string>, clock: nat -> Clock, from: nat)
    requires from < |lines|
    ensures var (p1, e) := ParseLine(p, lines[from], clock(from));
      ParseAll(p, lines[from..], clock, from).1 == e.ToSeq() + ParseAll(p1, lines[from + 1..], clock, from + 1).1
  {
    assert lines[from..][1..] == lines[from + 1..];
  }

  /** `LogParser::parse_lines`. */
  function ParseLines(p: LogParser, text: string, clock: nat -> Clock): (res: (LogParser, seq<LogEntry>))
    ensures |res.1| <= |Lines(text)|
    ensures res.0.nextId == p.nextId + |res.1|
    ensures forall i :: 0 <= i < |res.1| ==> res.1[i].id == p.nextId + i
    ensures RawLines(res.1) == FilterMap(AcceptedLine, Lines(text))
  {
    ParseAllKeepsLineOrder(p, Lines(text), clock, 0);
    ParseAll(p, Lines(text), clock, 0)
  }

  /** Entry `i` of `parse_lines` is exactly what `parse_line` returns for the
      `i`-th accepted line, called with next id `nextId + i` at that line's
      clock reading. */
  lemma ParseLinesEntries(p: LogParser, text: string, clock: nat -> Clock)
    ensures var es := ParseLines(p, text, clock).1;
            var js := AcceptedIndices(Lines(text));
      && |es| == |js|
      && forall i :: 0 <= i < |es| ==>
           Some(es[i]) == ParseLine(LogParser(p.nextId + i), Lines(text)[js[i]], clock(js[i])).1
  {
    var lines := Lines(text);
    assert lines[0..] == lines;
    ParseAllFromLength(p, lines, clock, 0);
    forall i | 0 <= i < |ParseAll(p, lines, clock, 0).1|
      ensures Some(ParseAll(p, lines, clock, 0).1[i])
           == ParseLine(LogParser(p.nextId + i), lines[AcceptedIndices(lines)[i]], clock(AcceptedIndices(lines)[i])).1
    {
      ParseAllEntry(p, lines, clock, i);
    }
  }

  /** Entry `i` of `ParseAll` over all the lines, with its id written out. */
  lemma ParseAllEntry(p: LogParser, lines: seq<string>, clock: nat -> Clock, i: nat)
    requires i < |ParseAll(p, lines, clock, 0).1|
    ensures i < |AcceptedIndices(lines)|
    ensures Some(ParseAll(p, lines, clock, 0).1[i])
         == ParseLine(LogParser(p.nextId + i), lines[AcceptedIndices(lines)[i]], clock(AcceptedIndices(lines)[i])).1
  {
    assert lines[0..] == lines;
    ParseAllFromLength(p, lines, clock, 0);
    ParseAllFromAt(p, lines, clock, 0, i);
    var id := ParseAll(p, lines, clock, 0).1[i].id;
    assert id == p.nextId + i;
    assert LogParser(id) == LogParser(p.nextId + i);
  }
}
