/** The configuration code of the driver, on character buffers and the global settings. */
module Config {
  import opened Machine
  import opened Text
  import opened ListSpec
  import opened ConfigSpec
  import C = ConfigTheorems
  import V = Vm
  import B = Balloon
  import T = TargetTheorems

  const LINE_MAX_CHAR := 1024
  const HOST_INFO_POLL_TIME_DEFAULT := 1000
  const INIT_SEM_WAIT_TIMEOUT_DEFAULT := 600000
  const BALLOON_ENABLE_DEFAULT := 1
  const BALLOON_TARGET_USED_PERCENT := 130
  const BALLOON_TARGET_MAX_TOTAL_PERCENT := 50
  const MIN_POLL_TIME := 100
  const MAX_POLL_TIME := 6000
  const MIN_TIMEOUT := 10000
  const MAX_TIMEOUT := 3600000
  const MAX_USED_PERCENT := 10000
  const MAX_PERCENT := 100
  const BALLOON_TARGET_PERCENT_MIN := 120

  /** A text that can be held in a buffer: no NUL in it. */
  predicate IsText(s: string) { forall i | 0 <= i < |s| :: s[i] != '\0' }

  /** The buffer holds the text `s` from `p` on, up to a NUL. */
  ghost predicate Holds(a: array<char>, p: nat, s: string)
    reads a
  {
    && p + |s| < a.Length
    && (forall j | p <= j < p + |s| :: a[j] == s[j - p] != '\0')
    && a[p + |s|] == '\0'
  }

  /** `fgets` into a cleared buffer. */
  method ReadInto(a: array<char>, line: string)
    requires |line| < a.Length && IsText(line)
    modifies a
    ensures Holds(a, 0, line)
  {
    var i := 0;
    while i < a.Length
      invariant 0 <= i <= a.Length
      invariant forall j | 0 <= j < i :: a[j] == if j < |line| then line[j] else '\0'
    {
      a[i] := if i < |line| then line[i] else '\0';
      i := i + 1;
    }
  }

  method Strlen(a: array<char>, p: nat, ghost s: string) returns (n: nat)
    requires Holds(a, p, s)
    ensures n == |s|
  {
    n := 0;
    while a[p + n] != '\0'
      invariant n <= |s|
      decreases |s| - n
    {
      n := n + 1;
    }
  }

  /** `TrimNewLine`. */
  method TrimNewLine(a: array<char>, p: nat, ghost s: string)
    requires Holds(a, p, s)
    modifies a
    ensures Holds(a, p, Trim(s)) && a[..p] == old(a[..p])
  {
    var n := Strlen(a, p, s);
    ghost var t := s;
    var end: int := p + n - 1;
    while end > p && (a[end] == ' ' || a[end] == '\n' || a[end] == '\r')
      invariant end == p + |t| - 1
      invariant Holds(a, p, t) && Trim(t) == Trim(s) && a[..p] == old(a[..p])
    {
      a[end] := '\0';
      t := t[..|t| - 1];
      end := end - 1;
    }
  }

  /** `CheckAllDigits`. */
  method CheckAllDigits(a: array<char>, p: nat, ghost s: string) returns (r: bool)
    requires Holds(a, p, s)
    ensures r <==> IsNumeral(s)
  {
    var i := p;
    while a[i] == ' '
      invariant p <= i <= p + |s| && forall j | p <= j < i :: a[j] == ' '
      decreases p + |s| - i
    {
      i := i + 1;
    }
    ghost var n := i - p;
    assert forall j | 0 <= j < n :: s[j] == a[p + j];
    NumeralShape(s, n);
    if a[i] == '\0' {
      return false;
    }
    if a[i] == '-' {
      i := i + 1;
      if !IsDigit(a[i]) {
        assert n + 1 < |s| ==> s[n + 1..][0] == a[i];
        return false;
      }
    }
    ghost var first := i - p;
    while a[i] != '\0'
      invariant p + first <= i <= p + |s| && forall j | p + first <= j < i :: IsDigit(a[j])
      decreases p + |s| - i
    {
      if !IsDigit(a[i]) {
        assert s[first..][i - p - first] == a[i];
        return false;
      }
      i := i + 1;
    }
    assert forall j | 0 <= j < |s[first..]| :: s[first..][j] == a[p + first + j];
    return true;
  }

  /** Where the spaces end, a numeral has its sign and then digits only. */
  lemma NumeralShape(s: string, n: nat)
    requires n <= |s| && (forall i | 0 <= i < n :: s[i] == ' ') && (n < |s| ==> s[n] != ' ')
    ensures IsNumeral(s) <==>
              n < |s| && var k := n + if s[n] == '-' then 1 else 0; k < |s| && AllDigits(s[k..])
  {
    if IsNumeral(s) {
      var m: nat, neg :| Numeral(s, m, neg);
      assert !neg ==> s[m..][0] == s[m];
    }
    if n < |s| {
      var neg := s[n] == '-';
      assert IsNumeral(s) <== Numeral(s, n, neg);
    }
  }

  /** Lines as `fgets` hands them out. */
  predicate AreLines(lines: seq<string>) {
    forall i | 0 <= i < |lines| :: 0 < |lines[i]| < LINE_MAX_CHAR && IsText(lines[i])
  }

  /** The value behind the equals sign of the line in the buffer. */
  method ReadValue(a: array<char>, line: string, e: nat) returns (found: Found)
    requires Holds(a, 0, line) && e == Equals(line) < |line|
    modifies a
    ensures found == FoundIn(Trim(line[e + 1..]))
  {
    ghost var rest := line[e + 1..];
    ghost var p := Trim(rest);
    assert forall j | 0 <= j < |rest| :: rest[j] == line[e + 1 + j];
    TrimNewLine(a, e + 1, rest);
    var ok := CheckAllDigits(a, e + 1, p);
    if !ok {
      return Skip;
    }
    var n := Strlen(a, e + 1, p);
    var text := a[e + 1..e + 1 + n];
    assert text == p;
    var r := Strtol(text);
    // `strtol` has read the whole text, so the check of the character behind it cannot fail.
    NumeralIsConsumed(p);
    assert r.used == n;
    return if r.fits then Number(ToI32(r.value)) else TooLarge;
  }

  /** One line of the file. */
  method FindInLine(a: array<char>, line: string, key: string) returns (found: Found)
    requires a.Length == LINE_MAX_CHAR && |line| < LINE_MAX_CHAR && IsText(line)
    modifies a
    ensures found == ReadLine(line, key)
  {
    ReadInto(a, line);
    if key <= line {
      var e := Equals(line);
      if e < |line| {
        found := ReadValue(a, line, e);
        return;
      }
    }
    return Skip;
  }

  /** `GetIntegerValueFromCfg`. */
  method GetIntegerValueFromCfg(file: Option<seq<string>>, key: string) returns (value: int)
    requires file.Some? ==> AreLines(file.value)
    ensures value == Read(file, key)
  {
    if file.None? {
      return CFGOPEN_OR_MEMSET_ERROR;
    }
    var lines := file.value;
    var a := new char[LINE_MAX_CHAR];
    var i := 0;
    while i < |lines|
      invariant 0 <= i <= |lines| && Read(file, key) == ReadFrom(lines, key, i)
    {
      var found := FindInLine(a, lines[i], key);
      match found {
        case Skip =>
        case Number(v) => return v;
        case TooLarge => return CFGOPEN_OR_MEMSET_ERROR;
      }
      i := i + 1;
    }
    return UNSET;
  }

  /** `CopyToFile`: the key and the value of the last line that could be parsed stay around. */
  method CopyToFile(lines: seq<string>, key: string, valueChanged: i32) returns (text: string)
    requires AreLines(lines)
    ensures text == Copy(lines, key, valueChanged)
  {
    text := "";
    var tmpkey, tmpValue: i32 := "", 0;
    var i := 0;
    while i < |lines|
      invariant 0 <= i <= |lines|
      invariant Copied(text, tmpkey, tmpValue) == CopyFirst(lines, key, valueChanged, i)
    {
      var line := lines[i];
      if line[0] == '#' || line[0] == '\n' || !Contains(line, key) {
        text := text + line;
      } else {
        var scanned := Scan(line, Copied(text, tmpkey, tmpValue));
        tmpkey, tmpValue := scanned.key, scanned.value;
        if tmpkey == key {
          tmpValue := valueChanged;
        }
        text := text + tmpkey + "=" + Print(tmpValue) + "\n";
      }
      i := i + 1;
    }
  }

  /** `SetValueToCfg`: the rewritten copy takes the place of the file if both can be opened and
      the copy renamed. */
  method SetValueToCfg(file: Option<seq<string>>, key: string, value: i32, tmpOpens: bool, renames: bool)
    returns (after: Option<seq<string>>)
    requires file.Some? ==> AreLines(file.value)
    ensures after == if file.Some? && tmpOpens && renames then Some(Lines(Copy(file.value, key, value))) else file
  {
    after := file;
    if file.Some? && tmpOpens {
      var text := CopyToFile(file.value, key, value);
      if renames {
        after := Some(Lines(text));
      }
    }
  }

  /** The macro that reads one setting. */
  method GetSetting(file: Option<seq<string>>, key: string, default: int) returns (ok: bool, value: int)
    requires file.Some? ==> AreLines(file.value)
    ensures ok <==> file.Some? && !Fatal(file.value, key)
    ensures ok ==> value == Wanted(file.value, key, default)
  {
    var tmp := GetIntegerValueFromCfg(file, key);
    ok, value := tmp != CFGOPEN_OR_MEMSET_ERROR, if tmp == UNSET then default else tmp;
    if file.Some? {
      CodesAreRead(file.value, key);
      ReadIsFirstSaying(file.value, key, 0);
    }
  }

  /** What a key comes to: the number in the line that decides, or the default. */
  ghost function Wanted(lines: seq<string>, key: string, default: int): int {
    var k := FirstSaying(lines, key, 0);
    if !Unsaid(lines, key) && ReadLine(lines[k], key).Number? then ReadLine(lines[k], key).value else default
  }

  const POLL_KEY := "host_info_poll_time"
  const TIMEOUT_KEY := "init_sem_wait_timeout"
  const ENABLE_KEY := "balloon_enable"
  const USED_KEY := "balloon_target_used_percent"
  const TOTAL_KEY := "balloon_target_max_total_percent"

  /** There is a file, and for none of the keys the line that decides has a number out of range or
      the error code. */
  ghost predicate Readable(file: Option<seq<string>>) {
    && file.Some?
    && !Fatal(file.value, POLL_KEY) && !Fatal(file.value, TIMEOUT_KEY) && !Fatal(file.value, ENABLE_KEY)
    && !Fatal(file.value, USED_KEY) && !Fatal(file.value, TOTAL_KEY)
  }

  /** Such a file: `balloon_enable = -2`, and a number that is cut to minus two. */
  lemma ErrorCodeIsUnreadable()
    ensures !Readable(Some([C.NumberLine(ENABLE_KEY, 1, 1, true, Digits(2))]))
    ensures !Readable(Some([C.NumberLine(ENABLE_KEY, 1, 1, false, Digits(4294967294))]))
  {
    assert ProperKey(ENABLE_KEY);
    C.ErrorCodeInFile(ENABLE_KEY);
  }

  /** The values read before any of them is used. */
  datatype MemlinkCfg = MemlinkCfg(poll: int, timeout: int, enable: int, used: int, total: int)

  ghost function CfgOf(lines: seq<string>): MemlinkCfg {
    MemlinkCfg(Wanted(lines, POLL_KEY, HOST_INFO_POLL_TIME_DEFAULT),
               Wanted(lines, TIMEOUT_KEY, INIT_SEM_WAIT_TIMEOUT_DEFAULT),
               Wanted(lines, ENABLE_KEY, BALLOON_ENABLE_DEFAULT),
               Wanted(lines, USED_KEY, BALLOON_TARGET_USED_PERCENT),
               Wanted(lines, TOTAL_KEY, BALLOON_TARGET_MAX_TOTAL_PERCENT))
  }

  method ReadCfg(file: Option<seq<string>>) returns (ok: bool, cfg: MemlinkCfg)
    requires file.Some? ==> AreLines(file.value)
    ensures ok <==> Readable(file)
    ensures ok ==> cfg == CfgOf(file.value)
  {
    cfg := MemlinkCfg(0, 0, 0, 0, 0);
    var poll, timeout, enable, used, total;
    ok, poll := GetSetting(file, POLL_KEY, HOST_INFO_POLL_TIME_DEFAULT);
    if !ok { return; }
    ok, timeout := GetSetting(file, TIMEOUT_KEY, INIT_SEM_WAIT_TIMEOUT_DEFAULT);
    if !ok { return; }
    ok, enable := GetSetting(file, ENABLE_KEY, BALLOON_ENABLE_DEFAULT);
    if !ok { return; }
    ok, used := GetSetting(file, USED_KEY, BALLOON_TARGET_USED_PERCENT);
    if !ok { return; }
    ok, total := GetSetting(file, TOTAL_KEY, BALLOON_TARGET_MAX_TOTAL_PERCENT);
    cfg := MemlinkCfg(poll, timeout, enable, used, total);
  }

  /** Each key of a file of settings comes to what its first setting says. */
  ghost predicate KeysAreLookedUp(items: seq<Item>, file: Option<seq<string>>) {
    && file.Some?
    && KeyIsLookedUp(items, file.value, POLL_KEY) && KeyIsLookedUp(items, file.value, TIMEOUT_KEY)
    && KeyIsLookedUp(items, file.value, ENABLE_KEY)
    && KeyIsLookedUp(items, file.value, USED_KEY) && KeyIsLookedUp(items, file.value, TOTAL_KEY)
  }

  ghost predicate KeyIsLookedUp(items: seq<Item>, lines: seq<string>, key: string) {
    var w := LookupPrefix(items, key);
    && (Fatal(lines, key) <==> w == -2)
    && (w != -2 ==> forall default :: Wanted(lines, key, default) == if w == -1 then default else w)
  }

  lemma WantedIsLookup(items: seq<Item>, key: string)
    requires ProperFile(items) && ProperKey(key)
    ensures KeyIsLookedUp(items, FileOf(items), key)
  {
    var lines := FileOf(items);
    C.ReadIsLookupPrefix(items, key, 0);
    assert items[0..] == items;
    CodesAreRead(lines, key);
    ReadIsFirstSaying(lines, key, 0);
  }

  lemma {:induction false} PollKeyIsProper()
    ensures ProperKey(POLL_KEY)
  {
  }

  lemma {:induction false} TimeoutKeyIsProper()
    ensures ProperKey(TIMEOUT_KEY)
  {
  }

  lemma {:induction false} EnableKeyIsProper()
    ensures ProperKey(ENABLE_KEY)
  {
  }

  lemma {:induction false} UsedKeyIsProper()
    ensures ProperKey(USED_KEY)
  {
  }

  lemma {:induction false} TotalKeyIsProper()
    ensures ProperKey(TOTAL_KEY)
  {
  }

  lemma ReadsAreLookups(items: seq<Item>)
    requires ProperFile(items)
    ensures KeysAreLookedUp(items, Some(FileOf(items)))
  {
    PollKeyIsProper();
    WantedIsLookup(items, POLL_KEY);
    TimeoutKeyIsProper();
    WantedIsLookup(items, TIMEOUT_KEY);
    EnableKeyIsProper();
    WantedIsLookup(items, ENABLE_KEY);
    UsedKeyIsProper();
    WantedIsLookup(items, USED_KEY);
    TotalKeyIsProper();
    WantedIsLookup(items, TOTAL_KEY);
  }

  /** A setting takes a wanted value that is in range and otherwise stays. */
  function Chosen(current: int, value: int, min: int, max: int): (r: int)
    ensures min <= current <= max ==> min <= r <= max
  {
    if min <= value <= max then value else current
  }

  /** The global settings. */
  class Settings {
    var hostInfoPollTimeMs: int
    var initSemWaitTimeout: int
    var balloonEnable: int
    var balloonTargetUsedPercent: int
    var balloonTargetMaxTotalPercent: int

    ghost predicate InRange()
      reads this
    {
      && MIN_POLL_TIME <= hostInfoPollTimeMs <= MAX_POLL_TIME
      && MIN_TIMEOUT <= initSemWaitTimeout <= MAX_TIMEOUT
      && 0 <= balloonEnable <= 1
      && BALLOON_TARGET_PERCENT_MIN <= balloonTargetUsedPercent <= MAX_USED_PERCENT
      && 0 <= balloonTargetMaxTotalPercent <= MAX_PERCENT
    }

    function Percentages(): V.Percents
      reads this
    {
      V.Percents(balloonTargetUsedPercent, balloonTargetMaxTotalPercent)
    }

    constructor ()
      ensures InRange()
      ensures hostInfoPollTimeMs == 1000 && initSemWaitTimeout == 600000 && balloonEnable == 1
      ensures balloonTargetUsedPercent == 130 && balloonTargetMaxTotalPercent == 50
    {
      hostInfoPollTimeMs, initSemWaitTimeout := 1000, 600000;
      balloonEnable, balloonTargetUsedPercent, balloonTargetMaxTotalPercent := 1, 130, 50;
    }

    method Store(cfg: MemlinkCfg)
      modifies this
      ensures Loaded(old(hostInfoPollTimeMs), old(initSemWaitTimeout), old(balloonEnable),
                     old(balloonTargetUsedPercent), old(balloonTargetMaxTotalPercent), cfg)
    {
      if MIN_POLL_TIME <= cfg.poll <= MAX_POLL_TIME {
        hostInfoPollTimeMs := cfg.poll;
      }
      if MIN_TIMEOUT <= cfg.timeout <= MAX_TIMEOUT {
        initSemWaitTimeout := cfg.timeout;
      }
      if 0 <= cfg.enable <= 1 {
        balloonEnable := cfg.enable;
      }
      if BALLOON_TARGET_PERCENT_MIN <= cfg.used <= MAX_USED_PERCENT {
        balloonTargetUsedPercent := cfg.used;
      }
      if 0 <= cfg.total <= MAX_PERCENT {
        balloonTargetMaxTotalPercent := cfg.total;
      }
    }

    /** `LoadCfgFile`: a file that cannot be read changes nothing, and whatever a readable file
        says, the settings stay in range. Each key of a file of settings sets its own setting: to
        what it says or, if it says nothing, to the default, as long as that is in range. */
    method LoadCfgFile(file: Option<seq<string>>, hasMemory: bool) returns (ret: int)
      requires file.Some? ==> AreLines(file.value)
      modifies this
      ensures old(InRange()) ==> InRange() && Percentages().Loadable()
      ensures ret == if hasMemory && Readable(file) then 0 else -1
      ensures ret == -1 ==> unchanged(this)
      ensures ret == 0 ==> Loaded(old(hostInfoPollTimeMs), old(initSemWaitTimeout), old(balloonEnable),
                                  old(balloonTargetUsedPercent), old(balloonTargetMaxTotalPercent), CfgOf(file.value))
      ensures forall items | ProperFile(items) && file == Some(FileOf(items)) ::
                ret == 0 <==>
                  && hasMemory
                  && LookupPrefix(items, "host_info_poll_time") != -2
                  && LookupPrefix(items, "init_sem_wait_timeout") != -2
                  && LookupPrefix(items, "balloon_enable") != -2
                  && LookupPrefix(items, "balloon_target_used_percent") != -2
                  && LookupPrefix(items, "balloon_target_max_total_percent") != -2
      ensures forall items | ProperFile(items) && file == Some(FileOf(items)) && ret == 0 ::
                var w := LookupPrefix(items, "host_info_poll_time");
                var x := if w == -1 then 1000 else w;
                hostInfoPollTimeMs == if 100 <= x <= 6000 then x else old(hostInfoPollTimeMs)
      ensures forall items | ProperFile(items) && file == Some(FileOf(items)) && ret == 0 ::
                var w := LookupPrefix(items, "init_sem_wait_timeout");
                var x := if w == -1 then 600000 else w;
                initSemWaitTimeout == if 10000 <= x <= 3600000 then x else old(initSemWaitTimeout)
      ensures forall items | ProperFile(items) && file == Some(FileOf(items)) && ret == 0 ::
                var w := LookupPrefix(items, "balloon_enable");
                var x := if w == -1 then 1 else w;
                balloonEnable == if 0 <= x <= 1 then x else old(balloonEnable)
      ensures forall items | ProperFile(items) && file == Some(FileOf(items)) && ret == 0 ::
                var w := LookupPrefix(items, "balloon_target_used_percent");
                var x := if w == -1 then 130 else w;
                balloonTargetUsedPercent == if 120 <= x <= 10000 then x else old(balloonTargetUsedPercent)
      ensures forall items | ProperFile(items) && file == Some(FileOf(items)) && ret == 0 ::
                var w := LookupPrefix(items, "balloon_target_max_total_percent");
                var x := if w == -1 then 50 else w;
                balloonTargetMaxTotalPercent == if 0 <= x <= 100 then x else old(balloonTargetMaxTotalPercent)
    {
      forall items | ProperFile(items) && file == Some(FileOf(items))
        ensures KeysAreLookedUp(items, file)
      {
        ReadsAreLookups(items);
      }
      if !hasMemory {
        return -1;
      }
      var ok, cfg := ReadCfg(file);
      if !ok {
        return -1;
      }
      Store(cfg);
      return 0;
    }

    ghost predicate Loaded(poll: int, timeout: int, enable: int, used: int, total: int, cfg: MemlinkCfg)
      reads this
    {
      && hostInfoPollTimeMs == Chosen(poll, cfg.poll, MIN_POLL_TIME, MAX_POLL_TIME)
      && initSemWaitTimeout == Chosen(timeout, cfg.timeout, MIN_TIMEOUT, MAX_TIMEOUT)
      && balloonEnable == Chosen(enable, cfg.enable, 0, 1)
      && balloonTargetUsedPercent == Chosen(used, cfg.used, BALLOON_TARGET_PERCENT_MIN, MAX_USED_PERCENT)
      && balloonTargetMaxTotalPercent == Chosen(total, cfg.total, 0, MAX_PERCENT)
    }
  }

  /** The file with these two lines. */
  function TwoPercentages(): seq<Item> {
    [Setting("balloon_target_used_percent", 0, 0, 200), Setting("balloon_target_max_total_percent", 0, 0, 60)]
  }

  lemma {:induction false} PrefixDiffers(a: string, b: string, i: nat)
    requires i < |a| && i < |b| && a[i] != b[i]
    ensures !(a <= b)
  {
  }

  lemma {:induction false} TwoPercentagesAreSaid()
    ensures var items := TwoPercentages();
            && ProperFile(items)
            && LookupPrefix(items, "host_info_poll_time") == -1
            && LookupPrefix(items, "init_sem_wait_timeout") == -1
            && LookupPrefix(items, "balloon_enable") == -1
            && LookupPrefix(items, "balloon_target_used_percent") == 200
            && LookupPrefix(items, "balloon_target_max_total_percent") == 60
  {
    var items := TwoPercentages();
    UsedKeyIsProper();
    TotalKeyIsProper();
    var used, total := "balloon_target_used_percent", "balloon_target_max_total_percent";
    assert items[1..] == [items[1]] && items[1..][1..] == [];
    PrefixDiffers("host_info_poll_time", used, 0);
    PrefixDiffers("host_info_poll_time", total, 0);
    PrefixDiffers("init_sem_wait_timeout", used, 0);
    PrefixDiffers("init_sem_wait_timeout", total, 0);
    PrefixDiffers("balloon_enable", used, 8);
    PrefixDiffers("balloon_enable", total, 8);
    PrefixDiffers(total, used, 15);
  }

  lemma TextConcat(a: string, b: string)
    requires IsText(a) && IsText(b)
    ensures IsText(a + b)
  {
  }

  lemma {:induction false} SettingIsText(item: Item)
    requires item.Setting? && item.pad == item.gap == 0 && IsText(item.key)
    ensures IsText(Line(item)) && |Line(item)| == |item.key| + |Print(item.value)| + 2
  {
    PrintIsText(item.value);
    var number := Print(item.value);
    assert Spaces(0) == "";
    TextConcat(number, "\n");
    TextConcat("=", number + "\n");
    TextConcat(item.key, "=" + (number + "\n"));
    assert Name(item) == item.key && Assigned(item) == number;
  }

  lemma {:induction false} KeysAreText()
    ensures IsText("balloon_target_used_percent") && IsText("balloon_target_max_total_percent")
  {
  }

  lemma {:induction false} TwoPercentagesAreLines()
    ensures AreLines(FileOf(TwoPercentages()))
  {
    var items := TwoPercentages();
    KeysAreText();
    SettingIsText(items[0]);
    SettingIsText(items[1]);
    assert |Print(200)| == 3 && |Print(60)| == 2;
  }

  /** A file that sets both percentages to what it says. */
  method LoadTwoPercentages(s: Settings) returns (ret: int)
    modifies s
    ensures ret == 0 && s.balloonTargetUsedPercent == 200 && s.balloonTargetMaxTotalPercent == 60
    ensures s.hostInfoPollTimeMs == 1000 && s.initSemWaitTimeout == 600000 && s.balloonEnable == 1
  {
    TwoPercentagesAreSaid();
    TwoPercentagesAreLines();
    ret := s.LoadCfgFile(Some(FileOf(TwoPercentages())), true);
  }

  /** The percentages a file sets, on top of others in range, are loadable, and with them the
      target keeps everything it has to keep, is the least such size, and reclaims free memory
      only: for every file. */
  lemma LoadedTargets(used: int, total: int, lines: seq<string>, memory: i64, stat: V.MemStat, guarantee: u64)
    requires V.Percents(used, total).Loadable()
    requires T.MemoryInRange(memory, stat, guarantee)
    ensures var pct := V.Percents(Chosen(used, CfgOf(lines).used, BALLOON_TARGET_PERCENT_MIN, MAX_USED_PERCENT),
                                  Chosen(total, CfgOf(lines).total, 0, MAX_PERCENT));
            var r := B.Target(memory, stat.available, B.Used(stat), guarantee, pct);
            && T.Sufficient(r, memory, B.Free(stat), guarantee, pct)
            && (forall t :: T.Sufficient(t, memory, B.Free(stat), guarantee, pct) ==> r <= t)
            && 0 <= memory - r <= B.Free(stat)
  {
    var pct := V.Percents(Chosen(used, CfgOf(lines).used, BALLOON_TARGET_PERCENT_MIN, MAX_USED_PERCENT),
                          Chosen(total, CfgOf(lines).total, 0, MAX_PERCENT));
    T.TargetIsLeastSufficient(memory, stat, guarantee, pct);
    T.TargetReclaimsOnlyFreeMemory(memory, stat, guarantee, pct);
  }
}
