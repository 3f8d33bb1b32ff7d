/** The pure parts of the ADB bridge (src-tauri/src/adb.rs): reading the
    output of `adb devices -l` and of `ps -A -o PID,NAME`, the process cache
    built from the latter, and the enrichment of each parsed log entry with
    the cached process and package names. */
module Adb {
  import opened Options
  import opened Text
  import opened Parser
  import Filter

  // ---------------------------------------------------------------------------
  // Device state

  /** `DeviceState`; the Rust `Device` variant is called `Ready` here, so
      that it does not clash with the `Device` record. */
  datatype DeviceState = Ready | Offline | Unauthorized | NoDevice

  /** `DeviceState::from_str`: the trimmed, lowercased word picks the state;
      every other word means no usable device. */
  function StateFromStr(s: string): (st: DeviceState)
    ensures st == Ready <==> LowerStr(Trim(s)) == "device"
    ensures st == Offline <==> LowerStr(Trim(s)) == "offline"
    ensures st == Unauthorized <==> LowerStr(Trim(s)) == "unauthorized"
  {
    var w := LowerStr(Trim(s));
    if w == "device" then Ready
    else if w == "offline" then Offline
    else if w == "unauthorized" then Unauthorized
    else NoDevice
  }

  /** The name a state is serialised under (`rename_all = "lowercase"`, with
      `NoDevice` renamed to `no device`); reading it back gives the state. */
  function StateLabel(st: DeviceState): (word: string)
    ensures StateFromStr(word) == st
  {
    match st
    case Ready => ReadsBack("device", Ready); "device"
    case Offline => ReadsBack("offline", Offline); "offline"
    case Unauthorized => ReadsBack("unauthorized", Unauthorized); "unauthorized"
    case NoDevice => ReadsBack("no device", NoDevice); "no device"
  }

  /** A label read back through `StateFromStr` gives the state it names. */
  lemma ReadsBack(w: string, st: DeviceState)
    requires |w| > 0 && w[0] != ' ' && w[|w| - 1] != ' '
    requires forall k :: 0 <= k < |w| ==> IsLabelChar(w[k])
    requires st == Ready <==> w == "device"
    requires st == Offline <==> w == "offline"
    requires st == Unauthorized <==> w == "unauthorized"
    ensures StateFromStr(w) == st
  {
    LabelReads(w);
  }

  /** A lowercase ASCII letter or a plain space. */
  predicate IsLabelChar(c: char) {
    'a' <= c <= 'z' || c == ' '
  }

  /** A label of lowercase letters and inner spaces is read as itself. */
  lemma LabelReads(w: string)
    requires |w| > 0 && w[0] != ' ' && w[|w| - 1] != ' '
    requires forall k :: 0 <= k < |w| ==> IsLabelChar(w[k])
    ensures LowerStr(Trim(w)) == w
  {
    assert IsLabelChar(w[0]) && IsLabelChar(w[|w| - 1]);
    TrimBare(w);
    LowerKeeps(w);
  }

  /** Text without capital ASCII letters is its own lowercase. */
  lemma LowerKeeps(w: string)
    requires forall k :: 0 <= k < |w| ==> IsLabelChar(w[k])
    ensures LowerStr(w) == w
  {
    assert forall k :: 0 <= k < |w| ==> LowerStr(w)[k] == w[k];
  }

  /** The state depends on the trimmed word alone. */
  lemma StateOfTrim(s: string, t: string)
    requires Trim(s) == Trim(t)
    ensures StateFromStr(s) == StateFromStr(t)
  {
  }

  /** Whitespace around the state word does not matter. */
  lemma StateIgnoresPadding(a: string, w: string, b: string)
    requires AllSpace(a) && AllSpace(b)
    requires |w| > 0 ==> !IsSpace(w[0]) && !IsSpace(w[|w| - 1])
    ensures StateFromStr(a + w + b) == StateFromStr(w)
  {
    TrimPadded(a, w, b);
    if |w| > 0 {
      TrimBare(w);
    } else {
      assert AllSpace(w);
    }
    StateOfTrim(a + w + b, w);
  }

  // ---------------------------------------------------------------------------
  // `adb devices -l`

  /** One attached device. */
  datatype Device = Device(id: string, name: string, model: string, state: DeviceState, isEmulator: bool)

  /** The position of the last part that starts with `prefix`. */
  function LastIndex(parts: seq<string>, prefix: string): (r: Option<nat>)
    ensures r.None? ==> forall k :: 0 <= k < |parts| ==> !(prefix <= parts[k])
    ensures r.Some? ==> r.value < |parts| && prefix <= parts[r.value]
    ensures r.Some? ==> forall j :: r.value < j < |parts| ==> !(prefix <= parts[j])
    decreases |parts|
  {
    if |parts| == 0 then None
    else if prefix <= parts[|parts| - 1] then Some(|parts| - 1)
    else
      var init := parts[..|parts| - 1];
      assert forall k :: 0 <= k < |init| ==> init[k] == parts[k];
      LastIndex(init, prefix)
  }

  /** What follows `prefix` in the last part that starts with it: the value
      `parse_devices_output`'s loop over the parts leaves behind. */
  function LastWithPrefix(parts: seq<string>, prefix: string): (r: Option<string>)
    ensures r.None? <==> forall k :: 0 <= k < |parts| ==> !(prefix <= parts[k])
    ensures r.Some? ==> exists k :: 0 <= k < |parts| && parts[k] == prefix + r.value
                                 && forall j :: k < j < |parts| ==> !(prefix <= parts[j])
  {
    match LastIndex(parts, prefix)
    case None => None
    case Some(i) =>
      assert parts[i] == prefix + parts[i][|prefix|..];
      Some(parts[i][|prefix|..])
  }

  /** An unmarked last part is passed over. */
  lemma LastWithPrefixStep(parts: seq<string>, prefix: string)
    requires |parts| > 0 && !(prefix <= parts[|parts| - 1])
    ensures LastWithPrefix(parts, prefix) == LastWithPrefix(parts[..|parts| - 1], prefix)
  {
  }

  /** Parts after the last marked one do not change the result. */
  lemma {:induction false} LastWithPrefixSkips(xs: seq<string>, ys: seq<string>, prefix: string)
    requires forall k :: 0 <= k < |ys| ==> !(prefix <= ys[k])
    ensures LastWithPrefix(xs + ys, prefix) == LastWithPrefix(xs, prefix)
    decreases |ys|
  {
    if |ys| == 0 {
      assert xs + ys == xs;
    } else {
      var n := |ys| - 1;
      var zs := xs + ys;
      var m := |zs| - 1;
      assert zs[..m] == xs + ys[..n];
      assert zs[m] == ys[n];
      LastWithPrefixStep(zs, prefix);
      assert forall k :: 0 <= k < n ==> ys[..n][k] == ys[k];
      LastWithPrefixSkips(xs, ys[..n], prefix);
    }
  }

  const EMULATOR_PREFIX: string := "emulator-"
  const LOCALHOST: string := "localhost"
  const MODEL_KEY: string := "model:"
  const DEVICE_KEY: string := "device:"

  /** `parse_devices_output`'s emulator test on a device id. */
  predicate IsEmulatorId(id: string) {
    EMULATOR_PREFIX <= id || Contains(id, LOCALHOST)
  }

  /** The model reported in the extra parts, underscores shown as spaces. */
  function ModelOf(extra: seq<string>): (m: string)
    ensures LastWithPrefix(extra, MODEL_KEY).None? ==> m == ""
    ensures LastWithPrefix(extra, MODEL_KEY).Some? ==> '_' !in m && |m| == |LastWithPrefix(extra, MODEL_KEY).value|
    ensures LastWithPrefix(extra, MODEL_KEY).Some? ==> m == ReplaceChar(LastWithPrefix(extra, MODEL_KEY).value, '_', ' ')
  {
    match LastWithPrefix(extra, MODEL_KEY)
    case Some(v) => ReplaceChar(v, '_', ' ')
    case None => ""
  }

  /** The fallbacks for a missing name and model. */
  function Fallbacks(id: string, name: string, model: string, emulator: bool): (nm: (string, string))
    ensures |name| > 0 ==> nm.0 == name
    ensures |name| == 0 ==> nm.0 == if emulator then "Emulator (" + id + ")" else model
    ensures |model| > 0 ==> nm.1 == model
    ensures |model| == 0 ==> nm.1 == nm.0
    ensures emulator ==> |nm.0| > 0 && |nm.1| > 0
    ensures |nm.0| == 0 <==> |nm.1| == 0
  {
    var n := if |name| > 0 then name else if emulator then "Emulator (" + id + ")" else model;
    (n, if |model| > 0 then model else n)
  }

  /** The device a line with at least two parts describes. */
  function DeviceOfParts(parts: seq<string>): (d: Device)
    requires |parts| >= 2
    ensures d.id == parts[0] && d.state == StateFromStr(parts[1])
    ensures d.isEmulator <==> IsEmulatorId(parts[0])
    ensures d.isEmulator ==> |d.name| > 0 && |d.model| > 0
    ensures (d.name, d.model) == Fallbacks(parts[0], LastWithPrefix(parts[2..], DEVICE_KEY).GetOr(""), ModelOf(parts[2..]), d.isEmulator)
  {
    var id := parts[0];
    var emulator := IsEmulatorId(id);
    var nm := Fallbacks(id, LastWithPrefix(parts[2..], DEVICE_KEY).GetOr(""), ModelOf(parts[2..]), emulator);
    Device(id, nm.0, nm.1, StateFromStr(parts[1]), emulator)
  }

  /** One line of `adb devices -l`: nothing for a blank line or a line with
      fewer than two parts. */
  function ParseDeviceLine(line: string): (r: Option<Device>)
    ensures r.Some? <==> |SplitWhitespace(Trim(line))| >= 2
    ensures AllSpace(line) ==> r.None?
    ensures r.Some? ==> r.value == DeviceOfParts(SplitWhitespace(Trim(line)))
  {
    var t := Trim(line);
    if |t| == 0 then None
    else
      var parts := SplitWhitespace(t);
      if |parts| < 2 then None else Some(DeviceOfParts(parts))
  }

  /** The lines after the first (`lines().skip(1)`). */
  function SkipHeader(ls: seq<string>): (r: seq<string>)
    ensures |ls| > 0 ==> r == ls[1..]
    ensures |ls| == 0 ==> r == []
  {
    if |ls| == 0 then [] else ls[1..]
  }

  /** `parse_devices_output`. */
  function ParseDevicesOutput(output: string): (ds: seq<Device>)
    ensures |ds| < |Lines(output)| || |ds| == 0
  {
    FilterMap(ParseDeviceLine, SkipHeader(Lines(output)))
  }

  /** The text a model is written as in a single part: spaces as underscores. */
  predicate IsModelText(m: string) {
    && |m| > 0 && '_' !in m
    && forall k :: 0 <= k < |m| ==> m[k] == ' ' || !IsSpace(m[k])
  }

  /** The parts of a device line as `adb devices -l` prints them: id, state,
      other properties, model, device name, and further properties. */
  function DeviceParts(id: string, state: string, before: seq<string>, model: string, name: string, after: seq<string>): (parts: seq<string>)
    ensures |parts| == 4 + |before| + |after|
  {
    [id, state] + before + [MODEL_KEY + ReplaceChar(model, ' ', '_'), DEVICE_KEY + name] + after
  }

  /** The two keys never mark the same part. */
  lemma KeysDiffer(v: string)
    ensures !(DEVICE_KEY <= MODEL_KEY + v) && !(MODEL_KEY <= DEVICE_KEY + v)
  {
    assert (MODEL_KEY + v)[0] == 'm';
    assert (DEVICE_KEY + v)[0] == 'd';
  }

  /** Writing a model with underscores and reading it back gives the model. */
  lemma ModelUnderscores(model: string)
    requires '_' !in model
    ensures ReplaceChar(ReplaceChar(model, ' ', '_'), '_', ' ') == model
  {
  }

  /** A marked last part decides the result. */
  lemma LastWithPrefixHit(parts: seq<string>, prefix: string)
    requires |parts| > 0 && prefix <= parts[|parts| - 1]
    ensures LastWithPrefix(parts, prefix) == Some(parts[|parts| - 1][|prefix|..])
  {
  }

  /** The model part is found, written back with spaces. */
  lemma FindsModel(before: seq<string>, m: string, d: string, after: seq<string>, model: string)
    requires '_' !in model && m == MODEL_KEY + ReplaceChar(model, ' ', '_')
    requires !(MODEL_KEY <= d)
    requires forall k :: 0 <= k < |after| ==> !(MODEL_KEY <= after[k])
    ensures ModelOf(before + [m, d] + after) == model
  {
    var xs := before + [m, d];
    var ys := before + [m];
    LastWithPrefixSkips(xs, after, MODEL_KEY);
    assert xs[..|xs| - 1] == ys && xs[|xs| - 1] == d;
    LastWithPrefixStep(xs, MODEL_KEY);
    assert ys[|ys| - 1] == m;
    LastWithPrefixHit(ys, MODEL_KEY);
    assert m[|MODEL_KEY|..] == ReplaceChar(model, ' ', '_');
    ModelUnderscores(model);
  }

  /** The device-name part is found. */
  lemma FindsName(before: seq<string>, m: string, d: string, after: seq<string>, name: string)
    requires d == DEVICE_KEY + name
    requires forall k :: 0 <= k < |after| ==> !(DEVICE_KEY <= after[k])
    ensures LastWithPrefix(before + [m, d] + after, DEVICE_KEY) == Some(name)
  {
    var xs := before + [m, d];
    LastWithPrefixSkips(xs, after, DEVICE_KEY);
    assert xs[|xs| - 1] == d;
    LastWithPrefixHit(xs, DEVICE_KEY);
    assert d[|DEVICE_KEY|..] == name;
  }

  /** The model and name parts are found wherever the other properties sit. */
  lemma FindsModelAndName(before: seq<string>, model: string, name: string, after: seq<string>)
    requires '_' !in model
    requires forall k :: 0 <= k < |after| ==> !(MODEL_KEY <= after[k]) && !(DEVICE_KEY <= after[k])
    ensures ModelOf(before + [MODEL_KEY + ReplaceChar(model, ' ', '_'), DEVICE_KEY + name] + after) == model
    ensures LastWithPrefix(before + [MODEL_KEY + ReplaceChar(model, ' ', '_'), DEVICE_KEY + name] + after, DEVICE_KEY) == Some(name)
  {
    var m, d := MODEL_KEY + ReplaceChar(model, ' ', '_'), DEVICE_KEY + name;
    KeysDiffer(name);
    FindsModel(before, m, d, after, model);
    FindsName(before, m, d, after, name);
  }

  /** A device line built from its fields reads back as that device. */
  lemma DevicePartsRoundTrip(id: string, state: string, before: seq<string>, model: string, name: string, after: seq<string>)
    requires IsModelText(model)
    requires |name| > 0
    requires forall k :: 0 <= k < |after| ==> !(MODEL_KEY <= after[k]) && !(DEVICE_KEY <= after[k])
    ensures DeviceOfParts(DeviceParts(id, state, before, model, name, after))
         == Device(id, name, model, StateFromStr(state), IsEmulatorId(id))
  {
    var parts := DeviceParts(id, state, before, model, name, after);
    assert parts[2..] == before + [MODEL_KEY + ReplaceChar(model, ' ', '_'), DEVICE_KEY + name] + after;
    FindsModelAndName(before, model, name, after);
  }

  /** The model, written with underscores, is one word. */
  lemma ModelTokenIsWord(model: string)
    requires IsModelText(model)
    ensures IsWord(MODEL_KEY + ReplaceChar(model, ' ', '_'))
  {
    var w := MODEL_KEY + ReplaceChar(model, ' ', '_');
    forall k | 0 <= k < |w| ensures !IsSpace(w[k]) {
      if k >= |MODEL_KEY| {
        assert w[k] == ReplaceChar(model, ' ', '_')[k - |MODEL_KEY|];
      }
    }
  }

  /** Printing the parts of a device line separated by spaces and parsing the
      line gives the device back. */
  lemma DeviceLineRoundTrip(id: string, state: string, before: seq<string>, model: string, name: string, after: seq<string>)
    requires IsWord(id) && IsWord(state) && IsModelText(model) && IsWord(name)
    requires forall k :: 0 <= k < |before| ==> IsWord(before[k])
    requires forall k :: 0 <= k < |after| ==> IsWord(after[k]) && !(MODEL_KEY <= after[k]) && !(DEVICE_KEY <= after[k])
    ensures ParseDeviceLine(JoinSpace(DeviceParts(id, state, before, model, name, after)))
         == Some(Device(id, name, model, StateFromStr(state), IsEmulatorId(id)))
  {
    var parts := DeviceParts(id, state, before, model, name, after);
    ModelTokenIsWord(model);
    assert IsWord(DEVICE_KEY + name) by {
      forall k | 0 <= k < |DEVICE_KEY + name| ensures !IsSpace((DEVICE_KEY + name)[k]) {
        if k >= |DEVICE_KEY| {
          assert (DEVICE_KEY + name)[k] == name[k - |DEVICE_KEY|];
        }
      }
    }
    assert forall k :: 0 <= k < |parts| ==> IsWord(parts[k]) by {
      forall k | 0 <= k < |parts| ensures IsWord(parts[k]) {
        if 2 <= k < 2 + |before| {
          assert parts[k] == before[k - 2];
        } else if k >= 4 + |before| {
          assert parts[k] == after[k - 4 - |before|];
        }
      }
    }
    var line := JoinSpace(parts);
    JoinSpaceSpaced(parts);
    SpacedLine(line);
    SplitJoin(parts);
    DevicePartsRoundTrip(id, state, before, model, name, after);
  }

  /** The header line is skipped and every other line is read on its own, in
      order. */
  lemma DevicesOutputSkipsHeader(header: string, ls: seq<string>)
    requires IsLine(header)
    requires forall k :: 0 <= k < |ls| ==> IsLine(ls[k])
    ensures ParseDevicesOutput(Unlines([header] + ls)) == FilterMap(ParseDeviceLine, ls)
  {
    HeaderLines(header, ls);
  }

  // ---------------------------------------------------------------------------
  // `ps -A -o PID,NAME`

  /** One running process. `pid` is a `u32`. */
  datatype ProcessInfo = ProcessInfo(pid: nat, name: string, packageName: Option<string>)

  /** The package guess: a process name with a dot is taken to be a package. */
  function PackageGuess(name: string): (p: Option<string>)
    ensures p.Some? <==> '.' in name
    ensures p.Some? ==> p.value == name
  {
    if '.' in name then Some(name) else None
  }

  /** One line of `ps` output: a `u32` pid and the rest of the line, its
      parts joined by single spaces, as the name. */
  function ParseProcessLine(line: string): (r: Option<ProcessInfo>)
    ensures r.Some? ==> |SplitWhitespace(Trim(line))| >= 2
    ensures AllSpace(line) ==> r.None?
    ensures |SplitWhitespace(Trim(line))| >= 2 ==>
      (r.Some? <==> ParseU32(SplitWhitespace(Trim(line))[0]).Some?)
    ensures r.Some? ==>
      && Some(r.value.pid) == ParseU32(SplitWhitespace(Trim(line))[0])
      && r.value.pid < U32_LIMIT
      && r.value.name == JoinSpace(SplitWhitespace(Trim(line))[1..])
      && r.value.packageName == PackageGuess(r.value.name)
  {
    var t := Trim(line);
    if |t| == 0 then None
    else
      var parts := SplitWhitespace(t);
      if |parts| < 2 then None
      else
        match ParseU32(parts[0])
        case None => None
        case Some(pid) =>
          var name := JoinSpace(parts[1..]);
          Some(ProcessInfo(pid, name, PackageGuess(name)))
  }

  /** `parse_processes_output`. */
  function ParseProcessesOutput(output: string): (ps: seq<ProcessInfo>)
    ensures |ps| < |Lines(output)| || |ps| == 0
  {
    FilterMap(ParseProcessLine, SkipHeader(Lines(output)))
  }

  /** The `ps` line for a pid and a name given as its words. */
  function ProcessLine(pid: nat, words: seq<string>): string {
    JoinSpace([ShowNat(pid)] + words)
  }

  /** Printing a process as `ps` does and parsing the line gives it back. */
  lemma ProcessLineRoundTrip(pid: nat, words: seq<string>)
    requires pid < U32_LIMIT
    requires |words| > 0 && forall k :: 0 <= k < |words| ==> IsWord(words[k])
    ensures ParseProcessLine(ProcessLine(pid, words))
         == Some(ProcessInfo(pid, JoinSpace(words), PackageGuess(JoinSpace(words))))
  {
    var parts := [ShowNat(pid)] + words;
    assert IsWord(ShowNat(pid)) by {
      forall k | 0 <= k < |ShowNat(pid)| ensures !IsSpace(ShowNat(pid)[k]) {
        assert IsDigit(ShowNat(pid)[k]);
      }
    }
    assert forall k :: 0 <= k < |parts| ==> IsWord(parts[k]) by {
      forall k | 0 <= k < |parts| ensures IsWord(parts[k]) {
        if k > 0 {
          assert parts[k] == words[k - 1];
        }
      }
    }
    JoinSpaceSpaced(parts);
    SpacedLine(ProcessLine(pid, words));
    SplitJoin(parts);
    ParseShowNat(pid);
    assert parts[1..] == words;
  }

  /** The header line is skipped and every other line is read on its own, in
      order. */
  lemma ProcessesOutputSkipsHeader(header: string, ls: seq<string>)
    requires IsLine(header)
    requires forall k :: 0 <= k < |ls| ==> IsLine(ls[k])
    ensures ParseProcessesOutput(Unlines([header] + ls)) == FilterMap(ParseProcessLine, ls)
  {
    HeaderLines(header, ls);
  }

  /** Splitting the joined text and skipping the header gives back the
      other lines. */
  lemma HeaderLines(header: string, ls: seq<string>)
    requires IsLine(header)
    requires forall k :: 0 <= k < |ls| ==> IsLine(ls[k])
    ensures SkipHeader(Lines(Unlines([header] + ls))) == ls
  {
    var all := [header] + ls;
    ConsLines(header, ls);
    LinesUnlines(all);
    assert all[1..] == ls;
  }

  lemma ConsLines(header: string, ls: seq<string>)
    requires IsLine(header)
    requires forall k :: 0 <= k < |ls| ==> IsLine(ls[k])
    ensures forall k :: 0 <= k < |[header] + ls| ==> IsLine(([header] + ls)[k])
  {
    var all := [header] + ls;
    forall k | 0 <= k < |all| ensures IsLine(all[k]) {
      if k > 0 {
        assert all[k] == ls[k - 1];
      }
    }
  }

  // ---------------------------------------------------------------------------
  // The process cache and entry enrichment

  /** `HashMap<u32, (String, Option<String>)>`: pid to process and package name. */
  type ProcessCache = map<nat, (string, Option<string>)>

  /** Inserts the processes in order; a later process replaces an earlier
      one with the same pid. */
  function InsertAll(cache: ProcessCache, ps: seq<ProcessInfo>): (c: ProcessCache)
    ensures forall pid :: pid in c <==> pid in cache || exists k :: 0 <= k < |ps| && ps[k].pid == pid
    decreases |ps|
  {
    if |ps| == 0 then cache
    else
      var p := ps[0];
      var c := InsertAll(cache[p.pid := (p.name, p.packageName)], ps[1..]);
      assert forall k :: 1 <= k < |ps| ==> ps[1..][k - 1] == ps[k];
      c
  }

  /** A pid no inserted process has keeps its cached names. */
  lemma {:induction false} InsertAllKeeps(cache: ProcessCache, ps: seq<ProcessInfo>, pid: nat)
    requires pid in cache && NoPid(ps, pid)
    ensures InsertAll(cache, ps)[pid] == cache[pid]
    decreases |ps|
  {
    if |ps| > 0 {
      var p := ps[0];
      assert NoPid(ps[1..], pid) by {
        forall j | 0 <= j < |ps[1..]| ensures ps[1..][j].pid != pid {
          assert ps[1..][j] == ps[j + 1];
        }
      }
      InsertAllKeeps(cache[p.pid := (p.name, p.packageName)], ps[1..], pid);
    }
  }

  /** The last process with a pid decides what the cache holds for it. */
  lemma {:induction false} InsertAllLastWins(cache: ProcessCache, ps: seq<ProcessInfo>, k: nat)
    requires k < |ps| && LastWithPid(ps, k)
    ensures InsertAll(cache, ps)[ps[k].pid] == (ps[k].name, ps[k].packageName)
    decreases |ps|
  {
    var p := ps[0];
    var next := cache[p.pid := (p.name, p.packageName)];
    if k == 0 {
      assert NoPid(ps[1..], p.pid) by {
        forall j | 0 <= j < |ps[1..]| ensures ps[1..][j].pid != p.pid {
          assert ps[1..][j] == ps[j + 1];
        }
      }
      InsertAllKeeps(next, ps[1..], p.pid);
    } else {
      assert ps[1..][k - 1] == ps[k];
      assert LastWithPid(ps[1..], k - 1) by {
        forall j | k - 1 < j < |ps[1..]| ensures ps[1..][j].pid != ps[1..][k - 1].pid {
          assert ps[1..][j] == ps[j + 1];
        }
      }
      InsertAllLastWins(next, ps[1..], k - 1);
    }
  }

  /** No process in `ps` has this pid. */
  predicate NoPid(ps: seq<ProcessInfo>, pid: nat) {
    forall j :: 0 <= j < |ps| ==> ps[j].pid != pid
  }

  /** `ps[k]` is the last process in `ps` with its pid. */
  predicate LastWithPid(ps: seq<ProcessInfo>, k: nat)
    requires k < |ps|
  {
    forall j :: k < j < |ps| ==> ps[j].pid != ps[k].pid
  }

  /** The cache `start_logcat` loads from the first process list. */
  function LoadCache(ps: seq<ProcessInfo>): (c: ProcessCache)
    ensures forall pid :: pid in c <==> exists k :: 0 <= k < |ps| && ps[k].pid == pid
  {
    InsertAll(map[], ps)
  }

  /** The periodic refresh: the new `ps` output is parsed line by line as
      `parse_processes_output` does and inserted over the old cache, which
      never loses a pid. */
  function RefreshCache(cache: ProcessCache, output: string): (c: ProcessCache)
    ensures cache.Keys <= c.Keys
    ensures c.Keys == cache.Keys + (set q | q in ParseProcessesOutput(output) :: q.pid)
  {
    InsertAllKeys(cache, ParseProcessesOutput(output));
    InsertAll(cache, ParseProcessesOutput(output))
  }

  /** The pids a cache knows after an insertion: its own and the inserted ones. */
  lemma InsertAllKeys(cache: ProcessCache, ps: seq<ProcessInfo>)
    ensures InsertAll(cache, ps).Keys == cache.Keys + (set q | q in ps :: q.pid)
  {
    var c := InsertAll(cache, ps);
    forall pid | pid in (set q | q in ps :: q.pid) ensures pid in c {
      var q :| q in ps && q.pid == pid;
      var k :| 0 <= k < |ps| && ps[k] == q;
    }
    forall pid | pid in c && pid !in cache ensures pid in (set q | q in ps :: q.pid) {
      var k :| 0 <= k < |ps| && ps[k].pid == pid;
      assert ps[k] in ps;
    }
  }

  /** The enrichment of a parsed entry: a cached pid overwrites the process
      and package names; any other entry passes unchanged. */
  function Enrich(e: LogEntry, cache: ProcessCache): (r: LogEntry)
    ensures e.pid in cache ==> r.processName == Some(cache[e.pid].0) && r.packageName == cache[e.pid].1
    ensures e.pid !in cache ==> r == e
    ensures r.(processName := e.processName, packageName := e.packageName) == e
  {
    if e.pid in cache then
      e.(processName := Some(cache[e.pid].0), packageName := cache[e.pid].1)
    else e
  }

  /** Enriching twice with the same cache is enriching once. */
  lemma EnrichIdempotent(e: LogEntry, cache: ProcessCache)
    ensures Enrich(Enrich(e, cache), cache) == Enrich(e, cache)
  {
  }

  /** What the reader task does with one logcat line: parse it, then enrich
      the entry from the cache. */
  function ReadLine(p: LogParser, line: string, now: Clock, cache: ProcessCache): (res: (LogParser, Option<LogEntry>))
    ensures res.0 == ParseLine(p, line, now).0
    ensures res.1.Some? <==> Parses(line)
    ensures res.1.Some? ==>
      && res.1.value.id == p.nextId
      && res.1.value.raw == Some(Trim(line))
      && (res.1.value.processName.Some? <==> res.1.value.pid in cache)
      && (res.1.value.pid !in cache ==> res.1.value.packageName.None?)
    ensures res.1.Some? ==> res.1.value == Enrich(ParseLine(p, line, now).1.value, cache)
  {
    var (p1, e) := ParseLine(p, line, now);
    match e
    case None => (p1, None)
    case Some(x) => (p1, Some(Enrich(x, cache)))
  }

  /** Enrichment of every entry of a list. */
  function EnrichAll(es: seq<LogEntry>, cache: ProcessCache): (rs: seq<LogEntry>)
    ensures |rs| == |es|
    ensures forall k :: 0 <= k < |es| ==> rs[k] == Enrich(es[k], cache)
  {
    if |es| == 0 then [] else [Enrich(es[0], cache)] + EnrichAll(es[1..], cache)
  }

  /** Enrichment changes nothing the filter reads. */
  lemma MatchesEnriched(f: Filter.LogFilter, e: LogEntry, cache: ProcessCache, engine: Filter.RegexEngine)
    ensures Filter.Matches(f, Enrich(e, cache), engine) == Filter.Matches(f, e, engine)
  {
    var r := Enrich(e, cache);
    Filter.PackageReadsTag(f, e, engine, r.packageName, r.processName);
    assert r == e.(packageName := r.packageName, processName := r.processName);
  }

  /** One step of `FilterCommutesWithEnrich`. */
  lemma CommuteStep(f: Filter.LogFilter, es: seq<LogEntry>, cache: ProcessCache, engine: Filter.RegexEngine)
    requires |es| > 0
    requires Filter.FilterLogs(f, EnrichAll(es[1..], cache), engine) == EnrichAll(Filter.FilterLogs(f, es[1..], engine), cache)
    ensures Filter.FilterLogs(f, EnrichAll(es, cache), engine) == EnrichAll(Filter.FilterLogs(f, es, engine), cache)
  {
    var e := es[0];
    MatchesEnriched(f, e, cache, engine);
    var rs := EnrichAll(es, cache);
    assert rs[0] == Enrich(e, cache) && rs[1..] == EnrichAll(es[1..], cache);
    var tail := Filter.FilterLogs(f, es[1..], engine);
    if Filter.Matches(f, e, engine) {
      assert Filter.FilterLogs(f, es, engine) == [e] + tail;
      assert EnrichAll([e] + tail, cache) == [Enrich(e, cache)] + EnrichAll(tail, cache);
    } else {
      assert Filter.FilterLogs(f, es, engine) == tail;
    }
  }

  /** The filter never looks at the names enrichment sets, so filtering
      before or after enrichment keeps the same entries. */
  lemma {:induction false} FilterCommutesWithEnrich(f: Filter.LogFilter, es: seq<LogEntry>, cache: ProcessCache, engine: Filter.RegexEngine)
    ensures Filter.FilterLogs(f, EnrichAll(es, cache), engine) == EnrichAll(Filter.FilterLogs(f, es, engine), cache)
  {
    if |es| > 0 {
      FilterCommutesWithEnrich(f, es[1..], cache, engine);
      CommuteStep(f, es, cache, engine);
    }
  }
}
