# Logcat viewer backend, modelled in Dafny

The desktop logcat viewer streams `adb logcat` output from an Android
device. It turns every line into a structured log entry and tags each entry
with the process that wrote it. A user-configured filter then decides which
entries are shown. This project models the pure core of that backend and
proves properties about it:

- **the log parser** (`src-tauri/src/parser.rs`): the six log levels; the
  parser state, which is the next entry id; and `parse_line`. That function
  trims the line, drops blank lines and the `--------- beginning of` markers,
  then tries the threadtime, time-only and brief layouts in that order.
  `parse_lines` applies it to every line of a text. The three regular
  expressions are modelled as recognisers that read the line character by
  character, with the same greedy choices the regex crate makes.
- **the line patterns** (`Patterns`): the three regular expressions written
  as the pieces a matching line is made of. Each recogniser accepts exactly
  the texts that split into its pattern's pieces, and reports the captures
  of such a split. So `parse_line` returns an entry exactly when the trimmed
  line matches one of the three patterns.
- **the logcat line layouts** (`LogcatFormats`): how `adb logcat` writes each
  of the three layouts, and proofs that a written line parses back into the
  fields it was written from. Some spacing in a written line is fixed: one
  blank between date and time, one on each side of the level letter, and
  one between the colon and a non-empty message.
  Other whitespace may vary: around the line, in the gaps before the pid and
  the tid, after the tag, and before the pid of a brief line. The parser
  accepts more lines than these, for example wider gaps around the time or
  the level letter, or the fatal letter `F`, which no written line uses.
- **the filter** (`src-tauri/src/filter.rs`): the default configuration; the
  compilation of the search text; `LogFilter::new`, `update_config`,
  `matches` and `filter_logs`; and the default filter.
- **the ADB bridge's parsing** (`src-tauri/src/adb.rs`):
  - `DeviceState::from_str`;
  - the `adb devices -l` parser, including the `model:`/`device:` parts and
    the emulator and name fallbacks;
  - the `ps` parser, including its package-name guess;
  - the pid → process cache, built at start-up and extended by the periodic
    refresh;
  - the rule by which the logcat reader fills in an entry's process and
    package names from that cache.

Shared text handling lives in `Text`, following Rust's semantics:
- `trim` and `split_whitespace` use Unicode `White_Space`;
- `lines` splits at `\n` and drops a `\r` before it;
- `parse::<u32>` accepts an optional `+`;
- `join(" ")`.

`Options` holds the `Option` type and `filter_map`.

Modelling decisions:
- **Regex engine.** The regex crate is not modelled. A `RegexEngine` value
  says whether a pattern compiles and whether a compiled pattern matches a
  text. In the non-regex mode the escaped search text is a literal,
  modelled as an occurrence test: exact when case-sensitive, while the
  case-insensitive search folds ASCII letters only (see "## Left out").
  The escaped literal is taken to compile.
- **Clock.** The local clock is a parameter, `Clock`. It gives the
  formatted year, month-day and time, and the signed epoch milliseconds.
  `parse_lines` takes one reading per line.
- **Integer widths.** `u32` pids are bounded explicitly. A pid or tid column
  that does not fit in a `u32` reads as 0, as `parse().unwrap_or(0)` does.
  The epoch cast `as u64` is written out as a reduction modulo 2^64.

One place where comment and code disagree: the comment at
`src-tauri/src/parser.rs:173-174` speaks of returning unmatched lines as
"Unknown"-tagged debug entries, but the code returns `None`. The model
follows the code. `Patterns.ParseLineExactly` states that a line is accepted
exactly when its trimmed text matches one of the three patterns.

## Model

| member | source | states |
|---|---|---|
| Parser.LevelFromChar | src-tauri/src/parser.rs:17-27 | V, D, I, W and E each read as their own level, A and the fatal letter F both read as Assert, and no other character is a level |
| Parser.LevelChar | src-tauri/src/parser.rs:7-27 | every level has a letter, not F, that `from_char` reads back as that level |
| Parser.EpochMillis | src-tauri/src/parser.rs:110 | the epoch stamp is below 2^64 and equals the clock's milliseconds whenever those are non-negative and fit |
| Parser.NewParser | src-tauri/src/parser.rs:82-84 | a new parser hands out id 0 first |
| Parser.Reset | src-tauri/src/parser.rs:186-188 | after a reset the parser is indistinguishable from a new one |
| Parser.ParseLine | src-tauri/src/parser.rs:87-176 | an entry comes back exactly when one of the three recognisers accepts the trimmed line, which is not a buffer marker; blank lines and buffer markers give none; a rejected line leaves the counter alone; an accepted one gets the current id and advances the counter by one; the entry keeps the trimmed line as `raw`, has u32 pid and tid, no device, package or process yet, the clock's epoch, and a one-line message that does not start with whitespace |
| Parser.ParseAll | src-tauri/src/parser.rs:179-183 | at most one entry per line; the ids are consecutive from the parser's next id, and the counter ends just past the last one |
| Parser.ParseAllKeepsLineOrder | src-tauri/src/parser.rs:179-183 | the entries' raw texts are the accepted lines, trimmed, in line order, one per accepted line |
| Parser.ParseLines | src-tauri/src/parser.rs:179-183 | `parse_lines` over the text's lines: consecutive ids, one entry per accepted line, in order |
| Parser.AcceptedIndices | src-tauri/src/parser.rs:179-183 | the positions of the lines `parse_line` accepts, in strictly increasing order: every accepted line is listed, and only those |
| Parser.ParseLinesEntries | src-tauri/src/parser.rs:179-183 | entry `i` of `parse_lines` is exactly what `parse_line` returns for the `i`-th accepted line, called with next id `nextId + i` and that line's clock reading; there are as many entries as accepted lines |
| Patterns.ThreadtimeExactly | src-tauri/src/parser.rs:56-60 | the threadtime recogniser accepts a text exactly when it splits into: a two-digit month and day joined by `-`; non-empty whitespace; an `HH:MM:SS.mmm` clock; non-empty whitespace before each of a digit run (pid), a digit run (tid), a level letter of `VDIWEFA` and the tag; a non-empty tag without a colon; a colon; any whitespace; a message without a line feed. The time stamp, pid, tid, level, tag and message it reports are those of such a split |
| Patterns.TimeOnlyExactly | src-tauri/src/parser.rs:62-67 | the time-only recogniser accepts a text exactly when it splits into an `HH:MM:SS.mmm` clock followed by the same pieces as in the threadtime pattern; it reports the captures of such a split |
| Patterns.BriefExactly | src-tauri/src/parser.rs:69-74 | the brief recogniser accepts a text exactly when it splits into: a level letter; `/`; a non-empty tag without `(`; `(`; any whitespace; a digit run (pid); `):`; any whitespace; a message without a line feed. It reports the level, tag, pid and message of such a split |
| Patterns.RecogniseExactly | src-tauri/src/parser.rs:100-150 | the three recognisers together accept a text exactly when it splits under one of the three patterns, and the captures they report are those of such a split |
| Patterns.ParseLineExactly | src-tauri/src/parser.rs:87-176 | `parse_line` returns an entry exactly when the trimmed line splits under one of the three patterns, and that entry is built from the captures of such a split |
| LogcatFormats.ParseThreadtimeLine | src-tauri/src/parser.rs:56-60 | a `MM-DD HH:MM:SS.mmm PID TID L TAG: msg` line parses into its own pid, tid, level, tag and message; any whitespace may lead and trail the line, the gaps before the pid and before the tid are any non-empty whitespace, and any whitespace may pad the tag before its colon; exactly one blank sits between date and time, on each side of the level letter and so before the tag, and between the colon and a non-empty message; the time part becomes the timestamp, the clock's year is prefixed to the date, and a pid or tid above u32 reads as 0 |
| LogcatFormats.ParseTimeOnlyLine | src-tauri/src/parser.rs:63-67 | a threadtime line without its date, with the same padding, parses into its own fields, with the date taken from the clock |
| LogcatFormats.ParseBriefLine | src-tauri/src/parser.rs:70-74 | an `L/TAG( PID): msg` line parses into its own level, tag, pid and message, with tid 0 and the time taken from the clock; any whitespace may lead and trail the line and pad the pid inside the parentheses; exactly one blank sits between `):` and a non-empty message |
| Filter.DefaultConfig | src-tauri/src/filter.rs:22-41 | the default configuration admits every level and sets no tag, package, pid or search constraint |
| Filter.PatternSource | src-tauri/src/filter.rs:64-74 | the regex source is the search text, behind the `(?i)` flag unless the search is case-sensitive |
| Filter.CompileSearchRegex | src-tauri/src/filter.rs:59-77 | no search for an empty text; a literal search in non-regex mode; in regex mode a search exactly when the pattern compiles |
| Filter.LiteralFoldedSearch | src-tauri/src/filter.rs:67-73 | an escaped case-insensitive search hits exactly when the text has a position where the needle occurs with letter case ignored |
| Filter.New | src-tauri/src/filter.rs:50-56 | the filter keeps the configuration and has no compiled search exactly when the text is empty or the regex does not compile |
| Filter.DefaultFilter | src-tauri/src/filter.rs:142-146 | the default filter holds the default configuration and no search |
| Filter.UpdateConfig | src-tauri/src/filter.rs:80-83 | the configuration is replaced and the search recompiled from it |
| Filter.UpdateConfigIsNew | src-tauri/src/filter.rs:80-83 | updating any filter gives the filter `new` builds from the same configuration |
| Filter.SearchTarget | src-tauri/src/filter.rs:119 | the search runs over the tag, one space, then the message |
| Filter.AnyTagIn | src-tauri/src/filter.rs:93-101 | the tag check passes exactly when some configured tag, lowercased, occurs in the lowercased entry tag |
| Filter.Matches | src-tauri/src/filter.rs:86-126 | a matching entry has one of the configured levels and, when a pid is configured, that pid |
| Filter.MatchesAdmits | src-tauri/src/filter.rs:86-126 | an entry matches exactly when all five checks hold: level, tags, package against the tag, pid and search |
| Filter.PackageReadsTag | src-tauri/src/filter.rs:104-108 | the package check reads the entry's tag, so its own package and process names never change the outcome |
| Filter.SearchFailsOpen | src-tauri/src/filter.rs:59-77 | an empty search text, or a regex that does not compile, filters exactly as no search at all |
| Filter.LiteralSearch | src-tauri/src/filter.rs:64-73 | outside regex mode, an entry passing the other checks matches exactly when the search text occurs in `tag message`; case is ignored unless case-sensitive |
| Filter.DefaultMatchesAll | src-tauri/src/filter.rs:142-146 | the default filter lets every entry through |
| Filter.FilterLogs | src-tauri/src/filter.rs:129-134 | no more entries come out than went in, and every one that does matches |
| Filter.FilterLogsSubsequence | src-tauri/src/filter.rs:129-134 | the result is the input with entries deleted, in the original order |
| Filter.FilterLogsCounts | src-tauri/src/filter.rs:129-134 | every matching entry is kept as often as it occurs and no other entry is kept |
| Filter.FilterLogsAppend | src-tauri/src/filter.rs:129-134 | filtering two lists joined is joining the two filtered lists |
| Filter.FilterLogsKeepsMatching | src-tauri/src/filter.rs:129-134 | a list whose entries all match is returned unchanged |
| Filter.FilterLogsIdempotent | src-tauri/src/filter.rs:129-134 | filtering the filtered list again changes nothing |
| Filter.DefaultFilterKeepsAll | src-tauri/src/filter.rs:142-146 | the default filter returns its input unchanged |
| Filter.LevelFilterExample | src-tauri/src/filter.rs:166-178 | with levels E and W only, an error entry matches and a debug entry does not |
| Filter.TagFilterExample | src-tauri/src/filter.rs:181-193 | with tag `MainActivity`, an entry tagged `MainActivity` matches and one tagged `OtherActivity` does not |
| Adb.StateFromStr | src-tauri/src/adb.rs:36-43 | the trimmed, lowercased word `device`, `offline` or `unauthorized` gives that state; anything else means no device |
| Adb.StateLabel | src-tauri/src/adb.rs:26-33 | each state's serialised name is read back by `from_str` as that state |
| Adb.StateIgnoresPadding | src-tauri/src/adb.rs:37 | whitespace around the state word does not change the state |
| Adb.LastWithPrefix | src-tauri/src/adb.rs:123-130 | a value is found exactly when some part carries the key, and the value is what follows the key in such a part |
| Adb.LastWithPrefixSkips | src-tauri/src/adb.rs:123-130 | parts after the last keyed part do not change the value: the last occurrence wins |
| Adb.ModelOf | src-tauri/src/adb.rs:123-126 | the model is empty when no `model:` part exists; otherwise it is the value of the last `model:` part with every underscore turned into a space |
| Adb.Fallbacks | src-tauri/src/adb.rs:135-146 | a missing name becomes `Emulator (<id>)` for emulators and the model otherwise, and a missing model becomes the name; an emulator always ends with a name and a model; the name is empty exactly when the model is |
| Adb.DeviceOfParts | src-tauri/src/adb.rs:116-154 | the device keeps the first part as id, reads its state from the second, and is an emulator exactly when the id says so; its name and model are the fallbacks applied to the last `device:` value (empty when there is none) and the model from the `model:` parts |
| Adb.ParseDeviceLine | src-tauri/src/adb.rs:106-154 | a line gives a device exactly when it has at least two whitespace-separated parts; blank lines give none |
| Adb.ParseDevicesOutput | src-tauri/src/adb.rs:101-158 | fewer devices than lines, since the first line is a header |
| Adb.DeviceLineRoundTrip | src-tauri/src/adb.rs:111-154 | a device line printed from an id, a state word, a model and a name, with any other properties around them, parses back into that device |
| Adb.DevicesOutputSkipsHeader | src-tauri/src/adb.rs:104 | the first line is skipped whatever it holds, and each other line is read on its own, in order |
| Adb.PackageGuess | src-tauri/src/adb.rs:196-200 | a process name is taken as its package exactly when it contains a dot |
| Adb.ParseProcessLine | src-tauri/src/adb.rs:184-207 | a line with two or more parts gives a process exactly when its first part parses as a u32; the name is the other parts joined by single spaces, and the package is the guess from that name |
| Adb.ParseProcessesOutput | src-tauri/src/adb.rs:179-211 | fewer processes than lines, since the first line is a header |
| Adb.ProcessLineRoundTrip | src-tauri/src/adb.rs:189-206 | a `ps` line printed from a u32 pid and a name's words parses back into that pid, the words joined, and the package guessed from them |
| Adb.ProcessesOutputSkipsHeader | src-tauri/src/adb.rs:182 | the first line is skipped and each other line is read on its own, in order |
| Adb.InsertAll | src-tauri/src/adb.rs:228-230 | after inserting processes the cache knows exactly its old pids and the processes' pids |
| Adb.InsertAllKeeps | src-tauri/src/adb.rs:228-230 | a pid no inserted process has keeps its cached names |
| Adb.InsertAllLastWins | src-tauri/src/adb.rs:228-230 | for a pid listed several times, the last process listed decides the cached names |
| Adb.LoadCache | src-tauri/src/adb.rs:226-232 | the start-up cache knows exactly the listed pids |
| Adb.RefreshCache | src-tauri/src/adb.rs:253-265 | after a refresh the cache knows exactly the pids it knew before and the pids of the new `ps` output, so it never forgets one |
| Adb.Enrich | src-tauri/src/adb.rs:294-297 | a cached pid sets the process name and overwrites the package name, even with none; an uncached pid leaves the entry as it is; nothing else changes |
| Adb.EnrichIdempotent | src-tauri/src/adb.rs:294-297 | enriching twice with the same cache is enriching once |
| Adb.ReadLine | src-tauri/src/adb.rs:290-297 | the reader emits an entry exactly for the lines the parser accepts, and that entry is the parsed entry enriched from the cache; it has the next id and the trimmed line, a process name exactly when its pid is cached, and no package for an uncached pid |
| Adb.MatchesEnriched | src-tauri/src/adb.rs:294-297 | enrichment changes nothing the filter looks at |
| Adb.FilterCommutesWithEnrich | src-tauri/src/adb.rs:294-297 | filtering enriched entries gives the enriched filtered entries |
| Text.ParseU32 | src-tauri/src/adb.rs:194 | after one optional leading `+`, a text parses exactly when it is a non-empty run of ASCII digits whose value fits in 32 bits, and then to that value; any other text is rejected |
| Text.DigitsToU32 | src-tauri/src/parser.rs:111-112 | a digit column reads as its value when that fits in a u32, and as 0 otherwise |
| Text.ParseShowNat | src-tauri/src/adb.rs:194 | the decimal text of a u32 parses back to it |
| Text.SplitJoin | src-tauri/src/adb.rs:195 | splitting words joined by single spaces gives the words back |
| Text.LinesUnlines | src-tauri/src/adb.rs:104 | `lines` gives back the lines of a text whose lines end in line feeds |

## Left out

- I/O and processes: running `adb` (`check_adb`, `get_devices`, `get_processes`, `clear_logcat`), spawning `logcat`, and reading its output stream. The parsers get the text those commands print.
- Concurrency: the tokio tasks, the channel to the front end, the `RwLock`, and the 5-second refresh timer. `ReadLine` reads the cache as one value; the interleaving of refreshes with reads is not modelled.
- Commands and wiring: `commands.rs`, `main.rs`, and the `config()` accessor, which only returns the configuration.
- Regex mode: the `regex` crate is not part of this model. `RegexEngine` stands for it. So the regex test (`src-tauri/src/filter.rs:212-225`) cannot be restated.
- Escaped literal pattern size: the crate could in principle reject an escaped literal for size. The model treats the escaped literal as always compiling.
- Case folding: `to_lowercase` and `(?i)` fold Unicode letters. `Text.LowerStr` folds ASCII letters only.
- Filter.AnyTagIn: the model's tag match misses tags that differ from a configured tag only in the case of non-ASCII letters, because it folds ASCII letters only.
- Filter.LiteralSearch: the model's case-insensitive search misses texts that differ from the search text only in the case of non-ASCII letters, because it folds ASCII letters only.
- The regex `\d`: read as an ASCII digit. The crate's `\d` also accepts other Unicode decimal digits. Rust therefore accepts a line whose date, time, pid or tid uses such digits; a pid or tid written that way reads as 0, because `parse().unwrap_or(0)` rejects it (`src-tauri/src/parser.rs:111-112`, `159`). The model returns no entry for such a line. With ASCII digits the results agree.
- Patterns.ThreadtimeExactly, Patterns.TimeOnlyExactly, Patterns.BriefExactly, Patterns.RecogniseExactly, Patterns.ParseLineExactly: a text can split in more than one way, for example when blanks could belong to the gap or to the start of the tag or message. These lemmas say the reported captures come from one of the splits, not which one the regex crate's leftmost-first rule picks. The recognisers give every whitespace run as many characters as it can take, as that rule does, and `Parser.ParseLine` states one consequence: the entry's message never starts with whitespace.
- Filter.FilterLogs: states that every kept entry matches but not that it comes from the input. That is stated by `Filter.FilterLogsSubsequence` and `Filter.FilterLogsCounts`.
- Search-text example: the case-insensitive example at `src-tauri/src/filter.rs:196-209` is not restated as a concrete lemma. `Filter.LiteralSearch` and `Filter.LiteralFoldedSearch` cover it for all inputs.
- Test helper fields: the filter tests' `create_test_entry` leaves out five fields of `LogEntry`. The model's `SampleEntry` sets them to none.
- Parser.ParseLine: the `u64` id counter is unbounded, so `next_id += 1` overflow is not modelled.
- Clock formatting: the formatting of `chrono::Local::now()` is not modelled. The clock is a parameter with the formatted parts.
