/** The log filter of the viewer (src-tauri/src/filter.rs): a configuration,
    the search pattern compiled from it, and the predicate that decides which
    entries are shown. */
module Filter {
  import opened Options
  import opened Text
  import opened Parser

  // ---------------------------------------------------------------------------
  // Configuration

  /** What the user asked to see. `pid` is a `u32`. */
  datatype FilterConfig = FilterConfig(
    levels: seq<LogLevel>,
    tags: seq<string>,
    packageName: Option<string>,
    pid: Option<nat>,
    searchText: string,
    isRegex: bool,
    isCaseSensitive: bool)

  /** The six levels, in the order the default configuration lists them. */
  lemma EveryLevel(l: LogLevel)
    ensures l in [V, D, I, W, E, A]
  {
  }

  /** `FilterConfig::default`: all six levels and no other constraint. */
  function DefaultConfig(): (c: FilterConfig)
    ensures forall l: LogLevel :: l in c.levels
    ensures |c.tags| == 0 && c.packageName.None? && c.pid.None?
    ensures |c.searchText| == 0 && !c.isRegex && !c.isCaseSensitive
  {
    var c := FilterConfig([V, D, I, W, E, A], [], None, None, "", false, false);
    assert forall l: LogLevel :: l in c.levels by {
      forall l: LogLevel ensures l in c.levels {
        EveryLevel(l);
      }
    }
    c
  }

  // ---------------------------------------------------------------------------
  // The search pattern

  /** The part of the `regex` crate the filter relies on: whether a pattern
      source compiles, and whether a compiled pattern matches somewhere in a
      text. */
  datatype RegexEngine = RegexEngine(compiles: string -> bool, isMatch: (string, string) -> bool)

  /** A compiled search. An escaped search text is a literal pattern, so it is
      kept as the text and its case flag; a user pattern is kept as the source
      handed to the regex compiler. */
  datatype SearchRegex = Literal(needle: string, caseSensitive: bool) | Pattern(source: string)

  /** The inline flag that turns on case-insensitive matching. */
  const CASE_INSENSITIVE: string := "(?i)"

  /** The source handed to `Regex::new` in regex mode. */
  function PatternSource(c: FilterConfig): (src: string)
    ensures c.isCaseSensitive ==> src == c.searchText
    ensures !c.isCaseSensitive ==> |src| == 4 + |c.searchText| && src[..4] == CASE_INSENSITIVE && src[4..] == c.searchText
  {
    if c.isCaseSensitive then c.searchText else CASE_INSENSITIVE + c.searchText
  }

  /** `compile_search_regex`: nothing for an empty search text; the literal
      search otherwise, unless the text is a user pattern, which is kept only
      when it compiles. */
  function CompileSearchRegex(c: FilterConfig, engine: RegexEngine): (r: Option<SearchRegex>)
    ensures |c.searchText| == 0 ==> r.None?
    ensures |c.searchText| > 0 && !c.isRegex ==> r == Some(Literal(c.searchText, c.isCaseSensitive))
    ensures |c.searchText| > 0 && c.isRegex ==> (r.Some? <==> engine.compiles(PatternSource(c)))
    ensures r.Some? && c.isRegex ==> r.value == Pattern(PatternSource(c))
  {
    if |c.searchText| == 0 then None
    else if !c.isRegex then Some(Literal(c.searchText, c.isCaseSensitive))
    else if engine.compiles(PatternSource(c)) then Some(Pattern(PatternSource(c)))
    else None
  }

  /** `regex.is_match(target)`. */
  predicate SearchHits(re: SearchRegex, engine: RegexEngine, target: string) {
    match re
    case Literal(n, true) => Contains(target, n)
    case Literal(n, false) => Contains(LowerStr(target), LowerStr(n))
    case Pattern(src) => engine.isMatch(src, target)
  }

  /** The needle occurs at offset `i` of the text, letter case ignored. */
  predicate FoldedAt(t: string, n: string, i: nat)
    requires i + |n| <= |t|
  {
    forall k :: 0 <= k < |n| ==> Lower(t[i + k]) == Lower(n[k])
  }

  /** What an escaped, case-insensitive pattern matches: a position where the
      text agrees with the search text up to letter case. */
  lemma LiteralFoldedSearch(n: string, engine: RegexEngine, t: string)
    ensures SearchHits(Literal(n, false), engine, t)
        <==> exists i: nat :: i + |n| <= |t| && FoldedAt(t, n, i)
  {
    var lt, ln := LowerStr(t), LowerStr(n);
    if SearchHits(Literal(n, false), engine, t) {
      var i :| 0 <= i <= |lt| && ln <= lt[i..];
      assert FoldedAt(t, n, i) by {
        forall k | 0 <= k < |n| ensures Lower(t[i + k]) == Lower(n[k]) {
          assert ln[k] == lt[i..][k];
        }
      }
    }
    if exists i: nat :: i + |n| <= |t| && FoldedAt(t, n, i) {
      var i: nat :| i + |n| <= |t| && FoldedAt(t, n, i);
      assert ln <= lt[i..] by {
        forall k | 0 <= k < |ln| ensures ln[k] == lt[i..][k] {
          assert Lower(t[i + k]) == Lower(n[k]);
        }
      }
    }
  }

  // ---------------------------------------------------------------------------
  // The filter

  /** `LogFilter`: the configuration and the search compiled from it. */
  datatype LogFilter = LogFilter(config: FilterConfig, compiled: Option<SearchRegex>)

  /** `LogFilter::new`. */
  function New(c: FilterConfig, engine: RegexEngine): (f: LogFilter)
    ensures f.config == c
    ensures f.compiled.None? <==> |c.searchText| == 0 || (c.isRegex && !engine.compiles(PatternSource(c)))
  {
    LogFilter(c, CompileSearchRegex(c, engine))
  }

  /** `LogFilter::default`. */
  function DefaultFilter(engine: RegexEngine): (f: LogFilter)
    ensures f.config == DefaultConfig() && f.compiled.None?
  {
    New(DefaultConfig(), engine)
  }

  /** `update_config`: recompiles the search and replaces the configuration. */
  function UpdateConfig(f: LogFilter, c: FilterConfig, engine: RegexEngine): (g: LogFilter)
    ensures g.config == c
    ensures g.compiled == CompileSearchRegex(c, engine)
  {
    LogFilter(c, CompileSearchRegex(c, engine))
  }

  /** The text the search runs over: `format!("{} {}", tag, message)`. */
  function SearchTarget(e: LogEntry): (t: string)
    ensures |t| == |e.tag| + 1 + |e.message|
    ensures t[..|e.tag|] == e.tag && t[|e.tag|] == ' ' && t[|e.tag| + 1..] == e.message
  {
    e.tag + " " + e.message
  }

  /** The tag check: some configured tag, lowercased, occurs in the
      lowercased entry tag. */
  function AnyTagIn(tags: seq<string>, tagLower: string): (r: bool)
    ensures r <==> exists k :: 0 <= k < |tags| && Contains(tagLower, LowerStr(tags[k]))
  {
    if |tags| == 0 then false
    else if Contains(tagLower, LowerStr(tags[0])) then true
    else
      var r := AnyTagIn(tags[1..], tagLower);
      assert r ==> exists k :: 0 <= k < |tags| && Contains(tagLower, LowerStr(tags[k])) by {
        if r {
          var j :| 0 <= j < |tags[1..]| && Contains(tagLower, LowerStr(tags[1..][j]));
          assert tags[1..][j] == tags[j + 1];
        }
      }
      assert (exists k :: 0 <= k < |tags| && Contains(tagLower, LowerStr(tags[k]))) ==> r by {
        if exists k :: 0 <= k < |tags| && Contains(tagLower, LowerStr(tags[k])) {
          var k :| 0 <= k < |tags| && Contains(tagLower, LowerStr(tags[k]));
          assert k > 0 && tags[1..][k - 1] == tags[k];
        }
      }
      r
  }

  /** `LogFilter::matches`: the level, tag, package, pid and search checks in
      the order `matches` runs them, each one able to reject the entry. */
  function Matches(f: LogFilter, e: LogEntry, engine: RegexEngine): (ok: bool)
    ensures ok ==> e.level in f.config.levels
    ensures ok && f.config.pid.Some? ==> e.pid == f.config.pid.value
  {
    var c := f.config;
    if e.level !in c.levels then false
    else if |c.tags| > 0 && !AnyTagIn(c.tags, LowerStr(e.tag)) then false
    else if c.packageName.Some? && !Contains(LowerStr(e.tag), LowerStr(c.packageName.value)) then false
    else if c.pid.Some? && e.pid != c.pid.value then false
    else if f.compiled.Some? && !SearchHits(f.compiled.value, engine, SearchTarget(e)) then false
    else true
  }

  /** The five conditions of a match, each stated on its own. */
  predicate Admits(f: LogFilter, e: LogEntry, engine: RegexEngine) {
    var c := f.config;
    && e.level in c.levels
    && (|c.tags| == 0 || exists k :: 0 <= k < |c.tags| && Contains(LowerStr(e.tag), LowerStr(c.tags[k])))
    && (c.packageName.None? || Contains(LowerStr(e.tag), LowerStr(c.packageName.value)))
    && (c.pid.None? || e.pid == c.pid.value)
    && (f.compiled.None? || SearchHits(f.compiled.value, engine, SearchTarget(e)))
  }

  /** An entry matches exactly when it meets all five conditions. */
  lemma MatchesAdmits(f: LogFilter, e: LogEntry, engine: RegexEngine)
    ensures Matches(f, e, engine) <==> Admits(f, e, engine)
  {
  }

  /** The package check reads the entry's tag: the entry's own package and
      process names play no part in a match. */
  lemma PackageReadsTag(f: LogFilter, e: LogEntry, engine: RegexEngine, pkg: Option<string>, proc: Option<string>)
    ensures Matches(f, e.(packageName := pkg, processName := proc), engine) == Matches(f, e, engine)
  {
  }

  /** A filter built from a configuration whose search text is empty, or whose
      pattern does not compile, behaves as if there were no search text. */
  lemma SearchFailsOpen(c: FilterConfig, e: LogEntry, engine: RegexEngine)
    requires |c.searchText| == 0 || (c.isRegex && !engine.compiles(PatternSource(c)))
    ensures Matches(New(c, engine), e, engine) == Matches(New(c.(searchText := ""), engine), e, engine)
  {
  }

  /** Outside regex mode the search is a substring test over `tag message`,
      exact when the search is case-sensitive and letter case ignored
      otherwise. */
  lemma LiteralSearch(c: FilterConfig, e: LogEntry, engine: RegexEngine)
    requires !c.isRegex && |c.searchText| > 0
    requires Matches(New(c.(searchText := ""), engine), e, engine)
    ensures c.isCaseSensitive ==>
      (Matches(New(c, engine), e, engine) <==> Contains(SearchTarget(e), c.searchText))
    ensures !c.isCaseSensitive ==>
      (Matches(New(c, engine), e, engine) <==> Contains(LowerStr(SearchTarget(e)), LowerStr(c.searchText)))
  {
  }

  /** `update_config(c)` leaves the filter `new(c)` would build, whatever the
      filter was before. */
  lemma UpdateConfigIsNew(f: LogFilter, c: FilterConfig, engine: RegexEngine)
    ensures UpdateConfig(f, c, engine) == New(c, engine)
  {
  }

  /** The default filter lets every entry through. */
  lemma DefaultMatchesAll(e: LogEntry, engine: RegexEngine)
    ensures Matches(DefaultFilter(engine), e, engine)
  {
    assert e.level in DefaultConfig().levels;
  }

  // ---------------------------------------------------------------------------
  // Filtering a list

  /** `filter_logs`: the entries that match, in their original order. */
  function FilterLogs(f: LogFilter, logs: seq<LogEntry>, engine: RegexEngine): (r: seq<LogEntry>)
    ensures |r| <= |logs|
    ensures forall k :: 0 <= k < |r| ==> Matches(f, r[k], engine)
  {
    if |logs| == 0 then []
    else (if Matches(f, logs[0], engine) then [logs[0]] else []) + FilterLogs(f, logs[1..], engine)
  }

  /** `a` can be obtained from `b` by deleting elements. */
  ghost predicate IsSubsequence<T>(a: seq<T>, b: seq<T>)
    decreases |b|
  {
    if |b| == 0 then |a| == 0
    else (|a| > 0 && a[0] == b[0] && IsSubsequence(a[1..], b[1..])) || IsSubsequence(a, b[1..])
  }

  /** The filtered list is a subsequence of the input: order is kept. */
  lemma {:induction false} FilterLogsSubsequence(f: LogFilter, logs: seq<LogEntry>, engine: RegexEngine)
    ensures IsSubsequence(FilterLogs(f, logs, engine), logs)
  {
    if |logs| > 0 {
      FilterLogsSubsequence(f, logs[1..], engine);
      var r := FilterLogs(f, logs, engine);
      if Matches(f, logs[0], engine) {
        assert r[0] == logs[0] && r[1..] == FilterLogs(f, logs[1..], engine);
      } else {
        assert r == FilterLogs(f, logs[1..], engine);
      }
    }
  }

  /** Every matching entry is kept as often as it occurs, and no other entry is. */
  lemma {:induction false} FilterLogsCounts(f: LogFilter, logs: seq<LogEntry>, engine: RegexEngine, e: LogEntry)
    ensures multiset(FilterLogs(f, logs, engine))[e] == if Matches(f, e, engine) then multiset(logs)[e] else 0
  {
    if |logs| > 0 {
      FilterLogsCounts(f, logs[1..], engine, e);
      HeadTail(logs);
      assert multiset(logs) == multiset([logs[0]]) + multiset(logs[1..]) by {
        assert logs == [logs[0]] + logs[1..];
      }
    }
  }

  /** Filtering works entry by entry, so it distributes over concatenation. */
  lemma {:induction false} FilterLogsAppend(f: LogFilter, xs: seq<LogEntry>, ys: seq<LogEntry>, engine: RegexEngine)
    ensures FilterLogs(f, xs + ys, engine) == FilterLogs(f, xs, engine) + FilterLogs(f, ys, engine)
  {
    if |xs| == 0 {
      assert xs + ys == ys;
    } else {
      var zs := xs + ys;
      assert zs[0] == xs[0] && zs[1..] == xs[1..] + ys;
      FilterLogsAppend(f, xs[1..], ys, engine);
      var h := if Matches(f, xs[0], engine) then [xs[0]] else [];
      assert FilterLogs(f, zs, engine) == h + FilterLogs(f, zs[1..], engine);
      assert FilterLogs(f, xs, engine) == h + FilterLogs(f, xs[1..], engine);
      var a, b := FilterLogs(f, xs[1..], engine), FilterLogs(f, ys, engine);
      assert h + (a + b) == (h + a) + b;
    }
  }

  /** A list whose entries all match passes through unchanged. */
  lemma {:induction false} FilterLogsKeepsMatching(f: LogFilter, logs: seq<LogEntry>, engine: RegexEngine)
    requires forall k :: 0 <= k < |logs| ==> Matches(f, logs[k], engine)
    ensures FilterLogs(f, logs, engine) == logs
  {
    if |logs| > 0 {
      FilterLogsKeepsMatching(f, logs[1..], engine);
      HeadTail(logs);
    }
  }

  /** Filtering twice with the same filter is filtering once. */
  lemma FilterLogsIdempotent(f: LogFilter, logs: seq<LogEntry>, engine: RegexEngine)
    ensures FilterLogs(f, FilterLogs(f, logs, engine), engine) == FilterLogs(f, logs, engine)
  {
    FilterLogsKeepsMatching(f, FilterLogs(f, logs, engine), engine);
  }

  /** The default filter returns its input unchanged. */
  lemma DefaultFilterKeepsAll(logs: seq<LogEntry>, engine: RegexEngine)
    ensures FilterLogs(DefaultFilter(engine), logs, engine) == logs
  {
    forall k | 0 <= k < |logs| ensures Matches(DefaultFilter(engine), logs[k], engine) {
      DefaultMatchesAll(logs[k], engine);
    }
    FilterLogsKeepsMatching(DefaultFilter(engine), logs, engine);
  }

  // ---------------------------------------------------------------------------
  // The examples of `filter.rs`'s unit tests

  /** The entry `create_test_entry` builds for the filter examples. */
  function SampleEntry(level: LogLevel, tag: string, message: string): (e: LogEntry)
    ensures e.level == level && e.tag == tag && e.message == message && e.pid == 1234
  {
    LogEntry(0, None, "12:00:00.000", None, None, 1234, 5678, level, tag, message, None, None, None)
  }

  /** Only the listed levels pass. */
  lemma LevelFilterExample(engine: RegexEngine)
    ensures Matches(New(DefaultConfig().(levels := [E, W]), engine), SampleEntry(E, "Test", "Error message"), engine)
    ensures !Matches(New(DefaultConfig().(levels := [E, W]), engine), SampleEntry(D, "Test", "Debug message"), engine)
  {
  }

  /** A configured tag must occur in the entry's tag. */
  lemma TagFilterExample(engine: RegexEngine)
    ensures Matches(New(DefaultConfig().(tags := ["MainActivity"]), engine), SampleEntry(D, "MainActivity", "test"), engine)
    ensures !Matches(New(DefaultConfig().(tags := ["MainActivity"]), engine), SampleEntry(D, "OtherActivity", "test"), engine)
  {
    var n, yes, no := LowerStr("MainActivity"), LowerStr("MainActivity"), LowerStr("OtherActivity");
    assert n <= yes[0..];
    assert n[0] == 'm';
    assert no[0] == 'o' && no[1] == 't';
    assert !Contains(no, n) by {
      forall i | 0 <= i <= |no| ensures !(n <= no[i..]) {
        if i + |n| <= |no| {
          assert no[i..][0] == no[i];
        }
      }
    }
  }
}
