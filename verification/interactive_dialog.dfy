/**
  * The stand-alone interactive-job launcher (`InteractiveJobDialog` and
  * `start_interactive_job` in interactive_job.py): its own readings of the `sinfo` limits,
  * which differ from the partition viewer's, its time slider and spin boxes, the account
  * list, and the `srun` command line it hands to a terminal. Command output and the
  * settings it reads (`DEFAULT_TIME_LIMIT`, `DEFAULT_PROJECT`) are parameters.
  */
module InteractiveDialog {
  import opened Wrappers
  import opened Text
  import opened Lists

  // ---------------------------------------------------------------------------------------
  // Maximum walltime, in minutes

  /** Minutes offered for a partition without a limit: seven days. */
  const InfiniteMinutes := 60 * 24 * 7
  /** Minutes offered for a limit of any other shape, or one that does not parse: four hours. */
  const FallbackMinutes := 60 * 4

  /** `days-hours:minutes:seconds`; `None` where the Python raises. The seconds are never read. */
  function DaysClockMinutes(t: string): Option<int> {
    var parts := Split(t, '-');
    if |parts| != 2 then None
    else
      var f := Split(parts[1], ':');
      if |f| != 3 then None
      else match (ParseInt(parts[0]), ParseInt(f[0]), ParseInt(f[1]))
        case (Some(d), Some(h), Some(m)) => Some(d * 24 * 60 + h * 60 + m)
        case _ => None
  }

  /** `hours:minutes:seconds`; `None` for another number of fields or a failed parse. */
  function ClockMinutes(t: string): Option<int> {
    var f := Split(t, ':');
    if |f| != 3 then None
    else match (ParseInt(f[0]), ParseInt(f[1]))
      case (Some(h), Some(m)) => Some(h * 60 + m)
      case _ => None
  }

  /** `get_max_walltime`: the partition's `sinfo %l` limit in minutes. */
  function WalltimeMinutes(sinfoOut: string): (r: int)
    ensures Strip(sinfoOut) == "infinite" ==> r == InfiniteMinutes
    ensures Strip(sinfoOut) == "" ==> r == FallbackMinutes
  {
    var t := Strip(sinfoOut);
    if t == "infinite" then InfiniteMinutes
    else if '-' in t then DaysClockMinutes(t).GetOr(FallbackMinutes)
    else ClockMinutes(t).GetOr(FallbackMinutes)
  }

  /**
    * Every limit without an integer reading gets the four-hour fallback: where the two-way split
    * at `-`, the three-way split at `:` or an `int()` of the days, hours or minutes raises, and
    * an undashed limit with a field count other than three.
    */
  lemma WalltimeMinutesUnreadable(sinfoOut: string)
    ensures var t := Strip(sinfoOut); var p := Split(t, '-');
      '-' in t && (|p| != 2 || |Split(p[1], ':')| != 3 || ParseInt(p[0]).None? ||
                   ParseInt(Split(p[1], ':')[0]).None? || ParseInt(Split(p[1], ':')[1]).None?) ==>
        WalltimeMinutes(sinfoOut) == FallbackMinutes
    ensures var t := Strip(sinfoOut); var f := Split(t, ':');
      t != "infinite" && '-' !in t && (|f| != 3 || ParseInt(f[0]).None? || ParseInt(f[1]).None?) ==>
        WalltimeMinutes(sinfoOut) == FallbackMinutes
  {
    var t := Strip(sinfoOut);
    if '-' in t {
      assert t != "infinite";
    }
  }

  /** A limit that needs no stripping and is not `infinite` is read by shape: dashed or not. */
  lemma WalltimeMinutesByShape(t: string)
    requires |t| > 0 && !IsSpace(t[0]) && !IsSpace(t[|t| - 1])
    requires ':' in t || '-' in t
    ensures WalltimeMinutes(t) ==
      if '-' in t then DaysClockMinutes(t).GetOr(FallbackMinutes) else ClockMinutes(t).GetOr(FallbackMinutes)
  {
    StripNoop(t);
    assert ':' !in "infinite" && '-' !in "infinite";
  }

  /** `H:M:S` without a dash is read as `60 H + M`; the seconds field may hold anything. */
  lemma WalltimeMinutesClock(hs: string, ms: string, sec: string, h: int, m: int)
    requires ParseInt(hs) == Some(h) && ParseInt(ms) == Some(m)
    requires ':' !in hs && ':' !in ms && ':' !in sec
    requires '-' !in hs && '-' !in ms && '-' !in sec
    requires !IsSpace(hs[0]) && (|sec| == 0 || !IsSpace(sec[|sec| - 1]))
    ensures WalltimeMinutes(hs + ":" + ms + ":" + sec) == 60 * h + m
  {
    var t := hs + ":" + ms + ":" + sec;
    assert t[0] == hs[0] && t[|hs|] == ':';
    assert |sec| == 0 ==> t[|t| - 1] == ':';
    assert |sec| > 0 ==> t[|t| - 1] == sec[|sec| - 1];
    WalltimeMinutesByShape(t);
    SplitThree(hs, ':', ms, sec);
  }

  /** `D-H:M:S` is read as `1440 D + 60 H + M`. */
  lemma WalltimeMinutesDays(ds: string, hs: string, ms: string, sec: string, d: int, h: int, m: int)
    requires ParseInt(ds) == Some(d) && ParseInt(hs) == Some(h) && ParseInt(ms) == Some(m)
    requires ':' !in hs && ':' !in ms && ':' !in sec
    requires '-' !in ds && '-' !in hs && '-' !in ms && '-' !in sec
    requires !IsSpace(ds[0]) && (|sec| == 0 || !IsSpace(sec[|sec| - 1]))
    ensures WalltimeMinutes(ds + "-" + (hs + ":" + ms + ":" + sec)) == 1440 * d + 60 * h + m
  {
    var clock := hs + ":" + ms + ":" + sec;
    var t := ds + "-" + clock;
    assert t[0] == ds[0] && t[|ds|] == '-';
    assert |sec| == 0 ==> t[|t| - 1] == ':';
    assert |sec| > 0 ==> t[|t| - 1] == sec[|sec| - 1];
    WalltimeMinutesByShape(t);
    DaysClockOf(ds, clock, hs, ms, sec);
    DaysClockValue(t, ds, clock, hs, ms, sec, d, h, m);
  }

  lemma DaysClockValue(t: string, ds: string, clock: string, hs: string, ms: string, sec: string, d: int, h: int, m: int)
    requires Split(t, '-') == [ds, clock] && Split(clock, ':') == [hs, ms, sec]
    requires ParseInt(ds) == Some(d) && ParseInt(hs) == Some(h) && ParseInt(ms) == Some(m)
    ensures DaysClockMinutes(t) == Some(1440 * d + 60 * h + m)
  {
    var p := Split(t, '-');
    assert |p| == 2 && p[0] == ds && p[1] == clock;
    var f := Split(p[1], ':');
    assert |f| == 3 && f[0] == hs && f[1] == ms;
  }

  lemma DaysClockOf(ds: string, clock: string, hs: string, ms: string, sec: string)
    requires clock == hs + ":" + ms + ":" + sec
    requires ':' !in hs && ':' !in ms && ':' !in sec
    requires '-' !in ds && '-' !in hs && '-' !in ms && '-' !in sec
    ensures Split(ds + "-" + clock, '-') == [ds, clock] && Split(clock, ':') == [hs, ms, sec]
  {
    assert '-' !in clock;
    SplitTwo(ds, '-', clock);
    SplitThree(hs, ':', ms, sec);
  }

  /** A limit that is neither `infinite`, nor has a dash, nor three `:` fields gets the fallback. */
  lemma WalltimeMinutesOtherShape(sinfoOut: string)
    requires Strip(sinfoOut) != "infinite" && '-' !in Strip(sinfoOut)
    requires |Split(Strip(sinfoOut), ':')| != 3
    ensures WalltimeMinutes(sinfoOut) == FallbackMinutes
  {
  }

  /** A dashed limit with more than one dash gets the fallback (the two-way unpacking raises). */
  lemma WalltimeMinutesTwoDashes(a: string, b: string, c: string)
    requires '-' !in a && '-' !in b && '-' !in c
    requires |a| > 0 && !IsSpace(a[0]) && |c| > 0 && !IsSpace(c[|c| - 1])
    ensures WalltimeMinutes(a + "-" + b + "-" + c) == FallbackMinutes
  {
    var t := a + "-" + b + "-" + c;
    assert t[0] == a[0] && t[|t| - 1] == c[|c| - 1];
    StripNoop(t);
    SplitThree(a, '-', b, c);
    assert t[|a|] == '-';
    assert t != "infinite" by { assert '-' in t; }
  }

  // ---------------------------------------------------------------------------------------
  // CPUs and memory per node

  /** CPUs offered when `sinfo %c` does not give a number. */
  const FallbackCpus := 16
  /** Gigabytes offered when `sinfo %m` does not give a number. */
  const FallbackMemoryGb := 32

  /** `get_max_cpus_per_node`: the number `sinfo %c` prints, unclamped. */
  function MaxCpus(sinfoOut: string): (r: int)
    ensures ParseInt(sinfoOut).None? ==> r == FallbackCpus
  {
    ParseInt(sinfoOut).GetOr(FallbackCpus)
  }

  /** Whatever count `sinfo` prints is offered as is, including zero and negative counts. */
  lemma MaxCpusOfCount(n: int)
    ensures MaxCpus(IntToString(n)) == n
  {
    ParseIntOfString(n);
  }

  /** `get_max_memory_per_node`: megabytes to gigabytes rounded down, at least one. */
  function MaxMemoryGb(sinfoOut: string): (r: int)
    ensures r >= 1
    ensures ParseInt(sinfoOut).None? ==> r == FallbackMemoryGb
  {
    match ParseInt(sinfoOut)
    case None => FallbackMemoryGb
    case Some(mb) => Max(1, mb / 1024)
  }

  /** For a whole number of megabytes the result is the floor of gigabytes, raised to one. */
  lemma MaxMemoryGbFloor(mb: nat)
    ensures var r := MaxMemoryGb(NatToString(mb));
      (mb < 2048 ==> r == 1) && (mb >= 1024 ==> 1024 * r <= mb < 1024 * (r + 1))
  {
    ParseIntOfString(mb);
  }

  /** 1025 MB is offered as 1 GB here; the partition viewer rounds the same value up to 2. */
  lemma MaxMemoryGbRoundsDown()
    ensures MaxMemoryGb("1025") == 1
  {
    MaxMemoryGbFloor(1025);
    assert NatToString(1025) == "1025" by {
      assert NatToString(1025) == NatToString(102) + [DigitChar(5)];
      assert NatToString(102) == NatToString(10) + [DigitChar(2)];
      assert NatToString(10) == NatToString(1) + [DigitChar(0)];
    }
  }

  // ---------------------------------------------------------------------------------------
  // Generic resources: the GPU list

  datatype GpuEntry = GpuEntry(kind: string, count: int)

  /** What one comma-separated GRES entry contributes. `Fail` is an `int()` that raises. */
  datatype EntryReading = Skip | Take(entry: GpuEntry) | Fail

  /** `"gpu" in s.lower()`. */
  predicate MentionsGpu(s: string) { Contains(Lower(s), "gpu") }

  /** One entry: `gpu:type:n` or `gpu:n` when it mentions GPUs; anything else is skipped. */
  function ReadEntry(entry: string): EntryReading {
    if !MentionsGpu(entry) then Skip
    else
      var parts := Split(entry, ':');
      if |parts| == 3 then
        match ParseInt(parts[2])
        case None => Fail
        case Some(n) => Take(GpuEntry(Upper(parts[1]), n))
      else if |parts| == 2 then
        match ParseInt(parts[1])
        case None => Fail
        case Some(n) => Take(GpuEntry("GPU", n))
      else Skip
  }

  /** The entries taken, in order; `None` as soon as one of them fails to parse. */
  function ReadEntries(entries: seq<string>): (r: Option<seq<GpuEntry>>)
    ensures r.None? <==> exists k :: 0 <= k < |entries| && ReadEntry(entries[k]).Fail?
    ensures r.Some? ==> |r.value| <= |entries|
    ensures r.Some? ==> forall e :: e in r.value ==> exists k :: 0 <= k < |entries| && ReadEntry(entries[k]) == Take(e)
    decreases |entries|
  {
    if |entries| == 0 then Some([])
    else
      var rest := ReadEntries(entries[1..]);
      assert forall k :: 1 <= k < |entries| ==> entries[k] == entries[1..][k - 1];
      match ReadEntry(entries[0])
      case Fail => None
      case Skip => rest
      case Take(e) => if rest.None? then None else Some([e] + rest.value)
  }

  /** `get_gpu_info`: the GPU entries of the partition's `sinfo %G` GRES list, or `None`. */
  function GpuInfo(sinfoOut: string): (r: Option<seq<GpuEntry>>)
    ensures r.Some? ==> |r.value| > 0 && MentionsGpu(Strip(sinfoOut))
  {
    var gres := Strip(sinfoOut);
    if gres == "" || !MentionsGpu(gres) then None
    else if gres == "(null)" then None
    else match ReadEntries(Split(gres, ','))
      case Some(es) => if |es| > 0 then Some(es) else None
      case None => None
  }

  /** The text of one entry as SLURM prints it, `gpu:type:count`. */
  function GresText(e: GpuEntry): string
    requires e.count >= 0
  {
    "gpu:" + e.kind + ":" + NatToString(e.count)
  }

  /** Entries the parser can read back unchanged: upper-case type names free of separators. */
  predicate Printable(e: GpuEntry) {
    e.count >= 0 && IsUpperCase(e.kind) && ':' !in e.kind && ',' !in e.kind
  }

  function GresList(es: seq<GpuEntry>): (r: seq<string>)
    requires forall k :: 0 <= k < |es| ==> Printable(es[k])
    ensures |r| == |es|
    ensures forall k :: 0 <= k < |r| ==> es[k].count >= 0 && r[k] == GresText(es[k])
  {
    if |es| == 0 then [] else assert Printable(es[0]); [GresText(es[0])] + GresList(es[1..])
  }

  lemma UpperOfUpperCase(s: string)
    requires IsUpperCase(s)
    ensures Upper(s) == s
  {
  }

  /** One printed entry is read back as itself. */
  lemma ReadEntryOfText(e: GpuEntry)
    requires Printable(e)
    ensures ReadEntry(GresText(e)) == Take(e)
  {
    var n := NatToString(e.count);
    var s := GresText(e);
    assert s == "gpu" + ":" + e.kind + ":" + n;
    assert OccursAt(Lower(s), "gpu", 0) by { assert Lower(s)[0..3] == "gpu"; }
    NotInDigits(n, ':');
    SplitThree("gpu", ':', e.kind, n);
    ParseIntOfString(e.count);
    UpperOfUpperCase(e.kind);
  }

  /** A list of printed entries is read back entry by entry. */
  lemma ReadEntriesOfList(es: seq<GpuEntry>)
    requires forall k :: 0 <= k < |es| ==> Printable(es[k])
    ensures ReadEntries(GresList(es)) == Some(es)
  {
    var g := GresList(es);
    forall k | 0 <= k < |g| ensures ReadEntry(g[k]) == Take(es[k]) {
      ReadEntryOfText(es[k]);
    }
    ReadEntriesTaken(g, es);
  }

  /** Entries each taken as one GPU entry are read as the list of those entries. */
  lemma {:induction false} ReadEntriesTaken(entries: seq<string>, es: seq<GpuEntry>)
    requires |entries| == |es|
    requires forall k :: 0 <= k < |entries| ==> ReadEntry(entries[k]) == Take(es[k])
    ensures ReadEntries(entries) == Some(es)
    decreases |es|
  {
    if |es| > 0 {
      assert forall k :: 0 <= k < |entries| - 1 ==> entries[1..][k] == entries[k + 1];
      ReadEntriesTaken(entries[1..], es[1..]);
      ReadEntriesFront(entries, es[0], es[1..]);
      assert es == [es[0]] + es[1..];
    }
  }

  /** A list whose first entry is taken: that entry, then what the rest reads as. */
  lemma ReadEntriesFront(entries: seq<string>, e: GpuEntry, rest: seq<GpuEntry>)
    requires |entries| > 0 && ReadEntry(entries[0]) == Take(e)
    requires ReadEntries(entries[1..]) == Some(rest)
    ensures ReadEntries(entries) == Some([e] + rest)
  {
  }

  /** A printed entry starts with `gpu`, ends with a digit and holds no comma. */
  lemma GresTextEnds(e: GpuEntry)
    requires e.count >= 0 && ',' !in e.kind
    ensures var s := GresText(e);
      |s| > 4 && s[..3] == "gpu" && IsDigit(s[|s| - 1]) && ',' !in s
  {
    var n := NatToString(e.count);
    var s := GresText(e);
    assert s[|s| - 1] == n[|n| - 1];
    NotInDigits(n, ',');
  }

  /** A text starting `gpu` and ending in a digit needs no stripping and mentions GPUs. */
  lemma GpuTextShape(s: string)
    requires |s| > 3 && s[..3] == "gpu" && IsDigit(s[|s| - 1])
    ensures Strip(s) == s && s != "(null)" && MentionsGpu(s)
  {
    assert s[0] == 'g' && s[1] == 'p' && s[2] == 'u';
    assert OccursAt(Lower(s), "gpu", 0) by { assert Lower(s)[0..3] == "gpu"; }
    StripNoop(s);
  }

  /** Joined pieces start like the first piece and end like the last. */
  lemma JoinEnds(parts: seq<string>, c: char)
    requires |parts| > 0 && |parts[0]| > 3 && |parts[|parts| - 1]| > 0
    ensures var s := Join(parts, c); var last := parts[|parts| - 1];
      |s| > 3 && s[..3] == parts[0][..3] && s[|s| - 1] == last[|last| - 1]
  {
    var s := Join(parts, c);
    var first, last := parts[0], parts[|parts| - 1];
    JoinPrefix(parts, c);
    JoinLast(parts, c);
    assert s[..|first|][..3] == s[..3];
    assert s[|s| - |last|..][|last| - 1] == s[|s| - 1];
  }

  /** The joined GRES text needs no stripping, mentions GPUs and is not the `(null)` marker. */
  lemma GresTextShape(es: seq<GpuEntry>)
    requires |es| > 0 && forall k :: 0 <= k < |es| ==> Printable(es[k])
    ensures var s := Join(GresList(es), ',');
      Strip(s) == s && s != "" && s != "(null)" && MentionsGpu(s)
  {
    var parts := GresList(es);
    GresTextEnds(es[0]);
    GresTextEnds(es[|es| - 1]);
    JoinEnds(parts, ',');
    GpuTextShape(Join(parts, ','));
  }

  /** Joining printed entries with commas and splitting again gives the printed entries. */
  lemma GresListSplit(es: seq<GpuEntry>)
    requires |es| > 0 && forall k :: 0 <= k < |es| ==> Printable(es[k])
    ensures Split(Join(GresList(es), ','), ',') == GresList(es)
  {
    var parts := GresList(es);
    forall k | 0 <= k < |parts| ensures ',' !in parts[k] {
      GresTextEnds(es[k]);
    }
    SplitJoin(parts, ',');
  }

  /** The comma-joined GRES text of one or more GPU entries is parsed back to exactly those entries. */
  lemma GpuInfoRoundTrip(es: seq<GpuEntry>)
    requires |es| > 0 && forall k :: 0 <= k < |es| ==> Printable(es[k])
    ensures GpuInfo(Join(GresList(es), ',')) == Some(es)
  {
    GresTextShape(es);
    GresListSplit(es);
    ReadEntriesOfList(es);
  }

  /** A joined text starts with its first piece. */
  lemma {:induction false} JoinPrefix(parts: seq<string>, c: char)
    requires |parts| > 0
    ensures |parts[0]| <= |Join(parts, c)| && Join(parts, c)[..|parts[0]|] == parts[0]
  {
  }

  /** A joined text ends with its last piece. */
  lemma {:induction false} JoinLast(parts: seq<string>, c: char)
    requires |parts| > 0
    ensures var j := Join(parts, c); var l := parts[|parts| - 1];
      |l| <= |j| && j[|j| - |l|..] == l
    decreases |parts|
  {
    if |parts| > 1 {
      JoinLast(parts[1..], c);
      assert parts[1..][|parts| - 2] == parts[|parts| - 1];
    }
  }

  /** An entry whose count does not parse makes the whole list unreadable. */
  lemma GpuInfoFailsOnBadCount(sinfoOut: string, k: nat)
    requires k < |Split(Strip(sinfoOut), ',')| && ReadEntry(Split(Strip(sinfoOut), ',')[k]).Fail?
    ensures GpuInfo(sinfoOut) == None
  {
  }

  /** The GPU spin box's maximum: the total over all entries (`sum(count for _, count in gpu_info)`). */
  function TotalGpus(es: seq<GpuEntry>): (r: int)
    ensures (forall k :: 0 <= k < |es| ==> es[k].count >= 0) ==>
              r >= 0 && forall k :: 0 <= k < |es| ==> es[k].count <= r
    decreases |es|
  {
    if |es| == 0 then 0 else es[0].count + TotalGpus(es[1..])
  }

  /** The total of one entry is its count, and the total of two lists joined is the sum of their totals. */
  lemma {:induction false} TotalGpusAppend(a: seq<GpuEntry>, b: seq<GpuEntry>)
    ensures TotalGpus(a + b) == TotalGpus(a) + TotalGpus(b)
    ensures |a| == 1 ==> TotalGpus(a) == a[0].count
    decreases |a|
  {
    if |a| > 0 {
      assert (a + b)[1..] == a[1..] + b;
      TotalGpusAppend(a[1..], b);
    } else {
      assert a + b == b;
    }
  }

  /** The GPU section is shown only for a GPU list whose total is positive. */
  function MaxGpus(info: Option<seq<GpuEntry>>): (r: Option<int>)
    ensures r.Some? ==> info.Some? && r.value > 0
  {
    match info
    case None => None
    case Some(es) => var n := TotalGpus(es); if n > 0 then Some(n) else None
  }

  // ---------------------------------------------------------------------------------------
  // Time slider and spin boxes

  /** The hours and minutes spin boxes; minutes run from 0 to 59. */
  datatype Clock = Clock(hours: int, minutes: int)

  /** `slider_to_spinboxes`: slider minutes split exactly into hours and minutes. */
  function SliderToSpinboxes(v: int): (r: Clock)
    ensures 0 <= r.minutes < 60 && 60 * r.hours + r.minutes == v
  {
    Clock(v / 60, v % 60)
  }

  /** `spinboxes_to_slider`. */
  function SpinboxesToSlider(t: Clock): int
  {
    t.hours * 60 + t.minutes
  }

  /** Moving the slider and reading the spin boxes back gives the same slider value. */
  lemma SliderRoundTrip(v: int)
    ensures SpinboxesToSlider(SliderToSpinboxes(v)) == v
  {
  }

  /** Spin box values in range give a slider value that splits back into the same values. */
  lemma SpinboxesRoundTrip(t: Clock)
    requires 0 <= t.minutes < 60
    ensures SliderToSpinboxes(SpinboxesToSlider(t)) == t
  {
    var v := SpinboxesToSlider(t);
    assert v == 60 * t.hours + t.minutes;
  }

  /** A slider value within the limit shows hours within the hours spin box's range `0..max // 60`. */
  lemma SliderHoursInRange(v: int, maxMinutes: int)
    requires 1 <= v <= maxMinutes
    ensures 0 <= SliderToSpinboxes(v).hours <= maxMinutes / 60
  {
  }

  /**
    * The slider's starting value: the first two `:` fields of the configured default as hours
    * and minutes (one hour when there are fewer), halved to the partition limit (at least one
    * minute) when it exceeds it. `None` where `int()` raises, which the dialog does not catch.
    */
  function DefaultMinutes(defaultLimit: string, maxMinutes: int): (r: Option<int>)
    ensures r.Some? && maxMinutes >= 1 ==> r.value <= maxMinutes
  {
    match DefaultParsed(defaultLimit)
    case None => None
    case Some(d) => Some(if d > maxMinutes then Max(1, maxMinutes / 2) else d)
  }

  /** `int(parts[0]) * 60 + int(parts[1])` of the configured default, or 60. */
  function DefaultParsed(defaultLimit: string): Option<int> {
    var parts := Split(defaultLimit, ':');
    if |parts| >= 2 then
      match (ParseInt(parts[0]), ParseInt(parts[1]))
      case (Some(h), Some(m)) => Some(h * 60 + m)
      case _ => None
    else Some(60)
  }

  /** A default `H:MM:00` within the limit is used as is; one beyond it becomes half the limit. */
  lemma DefaultMinutesOfClock(t: Clock, maxMinutes: int)
    requires t.hours >= 0 && 0 <= t.minutes < 60
    ensures var v := 60 * t.hours + t.minutes;
      DefaultMinutes(SelectedTime(t), maxMinutes) == Some(if v <= maxMinutes then v else Max(1, maxMinutes / 2))
  {
    SelectedTimeFields(t);
  }

  // ---------------------------------------------------------------------------------------
  // Rendering the selection

  /** `get_selected_time`: `H:MM:00`, the minutes padded to two digits. */
  function SelectedTime(t: Clock): (r: string)
    requires t.hours >= 0 && t.minutes >= 0
  {
    NatToString(t.hours) + ":" + Pad2(t.minutes) + ":00"
  }

  /** The rendered time has three `:` fields: the hours, the padded minutes, `00`. */
  lemma SelectedTimeFields(t: Clock)
    requires t.hours >= 0 && t.minutes >= 0
    ensures Split(SelectedTime(t), ':') == [NatToString(t.hours), Pad2(t.minutes), "00"]
    ensures ParseInt(NatToString(t.hours)) == Some(t.hours) && ParseInt(Pad2(t.minutes)) == Some(t.minutes)
  {
    var hs, ms := NatToString(t.hours), Pad2(t.minutes);
    NotInDigits(hs, ':');
    NotInDigits(NatToString(t.minutes), ':');
    assert ':' !in ms;
    assert SelectedTime(t) == hs + [':'] + ms + [':'] + "00";
    SplitThree(hs, ':', ms, "00");
    ParseIntOfString(t.hours);
    ParseIntOfPad2(t.minutes);
  }

  /** The rendered time read back as a limit is the selected number of minutes. */
  lemma SelectedTimeRoundTrip(t: Clock)
    requires t.hours >= 0 && t.minutes >= 0
    ensures WalltimeMinutes(SelectedTime(t)) == 60 * t.hours + t.minutes
  {
    var hs, ms := NatToString(t.hours), Pad2(t.minutes);
    SelectedTimeFields(t);
    NotInDigits(hs, '-');
    NotInDigits(NatToString(t.minutes), '-');
    assert SelectedTime(t) == hs + ":" + ms + ":" + "00";
    WalltimeMinutesClock(hs, ms, "00", t.hours, t.minutes);
  }

  // ---------------------------------------------------------------------------------------
  // Accounts

  /** The stripped, non-empty lines of `sacctmgr ... format=account` output. */
  function AccountLines(lines: seq<string>): (r: seq<string>)
    ensures forall k :: 0 <= k < |r| ==> r[k] != "" && Strip(r[k]) == r[k]
    ensures forall x :: x in r <==> exists k :: 0 <= k < |lines| && Strip(lines[k]) == x && x != ""
    decreases |lines|
  {
    if |lines| == 0 then []
    else
      var a := Strip(lines[0]);
      var rest := AccountLines(lines[1..]);
      assert forall k :: 1 <= k < |lines| ==> lines[k] == lines[1..][k - 1];
      assert a != "" ==> Strip(a) == a by { if a != "" { StripNoop(a); } }
      if a != "" then [a] + rest else rest
  }

  /** `get_available_projects`: the distinct accounts in ascending order, or the configured default. */
  function AvailableProjects(sacctmgrOut: string, defaultProject: string): (r: seq<string>)
    ensures |r| > 0
    ensures forall x :: x in r <==>
      (x in AccountLines(Split(Strip(sacctmgrOut), '\n')) || (r == [defaultProject] && x == defaultProject))
    ensures r != [defaultProject] ==> NoDuplicates(r) && forall i, j :: 0 <= i < j < |r| ==> LexLe(r[i], r[j]) && r[i] != r[j]
  {
    var found := AppendNew([], AccountLines(Split(Strip(sacctmgrOut), '\n')));
    LexTotalPreorder();
    var sorted := SortBy(found, LexLe);
    assert forall x :: x in sorted <==> x in found by {
      forall x ensures x in sorted <==> x in found {
        assert x in sorted <==> x in multiset(sorted);
        assert x in found <==> x in multiset(found);
      }
    }
    if |sorted| == 0 then [defaultProject]
    else
      SortedDistinct(found, sorted);
      sorted
  }

  /** A sort of a list without repeats has no repeats either. */
  lemma SortedDistinct(found: seq<string>, sorted: seq<string>)
    requires NoDuplicates(found) && multiset(sorted) == multiset(found)
    ensures NoDuplicates(sorted)
  {
    forall i, j | 0 <= i < j < |sorted| ensures sorted[i] != sorted[j] {
      if sorted[i] == sorted[j] {
        assert multiset(sorted)[sorted[i]] >= 2 by {
          var m := multiset(sorted);
          assert sorted == sorted[..i] + [sorted[i]] + sorted[i + 1..];
          assert sorted[i + 1..] == sorted[i + 1..j] + [sorted[j]] + sorted[j + 1..];
        }
        MultiplicityAtMostOne(found, sorted[i]);
      }
    }
  }

  /** An element of a list without repeats occurs in it at most once. */
  lemma {:induction false} MultiplicityAtMostOne(s: seq<string>, x: string)
    requires NoDuplicates(s)
    ensures multiset(s)[x] <= 1
    decreases |s|
  {
    if |s| > 0 {
      assert s == [s[0]] + s[1..];
      MultiplicityAtMostOne(s[1..], x);
      if s[0] == x { assert x !in s[1..]; }
    }
  }

  // ---------------------------------------------------------------------------------------
  // Failing commands

  /*
   * Every query above runs its command with `check=True`, so a non-zero exit status raises
   * `CalledProcessError` and the query's outer `except` returns its fallback. The members
   * below take the exit status with the output.
   */

  /** `get_max_walltime` from the `sinfo` run: the four-hour fallback when `sinfo` fails. */
  function WalltimeMinutesOfRun(exitCode: int, sinfoOut: string): (r: int)
    ensures exitCode != 0 ==> r == FallbackMinutes
    ensures exitCode == 0 ==> r == WalltimeMinutes(sinfoOut)
  {
    if exitCode != 0 then FallbackMinutes else WalltimeMinutes(sinfoOut)
  }

  /** `get_max_cpus_per_node` from the `sinfo` run: 16 CPUs when `sinfo` fails. */
  function MaxCpusOfRun(exitCode: int, sinfoOut: string): (r: int)
    ensures exitCode != 0 ==> r == FallbackCpus
    ensures exitCode == 0 ==> r == MaxCpus(sinfoOut)
  {
    if exitCode != 0 then FallbackCpus else MaxCpus(sinfoOut)
  }

  /** `get_max_memory_per_node` from the `sinfo` run: 32 GB when `sinfo` fails. */
  function MaxMemoryGbOfRun(exitCode: int, sinfoOut: string): (r: int)
    ensures r >= 1
    ensures exitCode != 0 ==> r == FallbackMemoryGb
    ensures exitCode == 0 ==> r == MaxMemoryGb(sinfoOut)
  {
    if exitCode != 0 then FallbackMemoryGb else MaxMemoryGb(sinfoOut)
  }

  /** `get_gpu_info` from the `sinfo` run: no GPUs when `sinfo` fails. */
  function GpuInfoOfRun(exitCode: int, sinfoOut: string): (r: Option<seq<GpuEntry>>)
    ensures exitCode != 0 ==> r.None?
    ensures exitCode == 0 ==> r == GpuInfo(sinfoOut)
  {
    if exitCode != 0 then None else GpuInfo(sinfoOut)
  }

  /** `get_available_projects` from the `sacctmgr` run: the configured default when `sacctmgr` fails. */
  function AvailableProjectsOfRun(exitCode: int, sacctmgrOut: string, defaultProject: string): (r: seq<string>)
    ensures exitCode != 0 ==> r == [defaultProject]
    ensures exitCode == 0 ==> r == AvailableProjects(sacctmgrOut, defaultProject)
  {
    if exitCode != 0 then [defaultProject] else AvailableProjects(sacctmgrOut, defaultProject)
  }

  /**
    * A failed command is indistinguishable from a successful one that printed nothing: each
    * query falls back to the value it gives for empty output.
    */
  lemma FailedRunReadsAsEmpty(exitCode: int, out: string, defaultProject: string)
    requires exitCode != 0
    ensures WalltimeMinutesOfRun(exitCode, out) == WalltimeMinutesOfRun(0, "")
    ensures MaxCpusOfRun(exitCode, out) == MaxCpusOfRun(0, "")
    ensures MaxMemoryGbOfRun(exitCode, out) == MaxMemoryGbOfRun(0, "")
    ensures GpuInfoOfRun(exitCode, out) == GpuInfoOfRun(0, "")
    ensures AvailableProjectsOfRun(exitCode, out, defaultProject) == AvailableProjectsOfRun(0, "", defaultProject)
  {
  }

  // ---------------------------------------------------------------------------------------
  // The srun command line

  /** The GPU request is added only for a truthy count: present and non-zero. */
  predicate GpusRequested(gpus: Option<int>) { gpus.Some? && gpus.value != 0 }

  /**
    * The interactive `srun` command line shared by both front ends: the partition, one node,
    * the account, the resources, the job name, the optional GPU request and the terminal options
    * (concatenated to the right).
    */
  function SrunCommand(partition: string, project: string, cpus: int, memoryGb: int, timeLimit: string,
                       jobName: string, gpus: Option<int>): string
  {
    var gres := if GpusRequested(gpus) then "--gres=gpu:" + IntToString(gpus.value) + " " else "";
    "srun -p " + (partition + (" -N 1 -A " + (project + (" --cpus-per-task=" + (IntToString(cpus)
      + (" --mem=" + (IntToString(memoryGb) + ("G --time=" + (timeLimit + (" --job-name="
      + (jobName + (" " + (gres + "--x11 --pty bash")))))))))))))
  }

  /** The words a shell is meant to see in `SrunCommand`. */
  function SrunArgs(partition: string, project: string, cpus: int, memoryGb: int, timeLimit: string,
                    jobName: string, gpus: Option<int>): seq<string>
  {
    ["srun", "-p", partition, "-N", "1", "-A", project, "--cpus-per-task=" + IntToString(cpus),
     "--mem=" + IntToString(memoryGb) + "G", "--time=" + timeLimit, "--job-name=" + jobName]
    + (if GpusRequested(gpus) then ["--gres=gpu:" + IntToString(gpus.value)] else [])
    + ["--x11", "--pty", "bash"]
  }

  /** `start_interactive_job` of the interactive dialog: the job is named `Interactive_<partition>`. */
  function InteractiveCommand(partition: string, cpus: int, memoryGb: int, timeLimit: string,
                              gpus: Option<int>, project: string): string
  {
    SrunCommand(partition, project, cpus, memoryGb, timeLimit, "Interactive_" + partition, gpus)
  }

  // Proof helpers, not part of the model: where the blanks inside the command's literal pieces
  // fall. They are stated apart so that the command-word proofs need not unfold the literals.

  lemma SrunLiteral(x: string)
    ensures "srun -p " + x == "srun" + [' '] + ("-p" + [' '] + x)
  {
  }

  lemma NodesLiteral(x: string)
    ensures " -N 1 -A " + x == [' '] + ("-N" + [' '] + ("1" + [' '] + ("-A" + [' '] + x)))
  {
  }

  lemma CpusLiteral(x: string)
    ensures " --cpus-per-task=" + x == [' '] + ("--cpus-per-task=" + x) && ' ' !in "--cpus-per-task="
  {
  }

  lemma MemLiteral(x: string)
    ensures " --mem=" + x == [' '] + ("--mem=" + x) && ' ' !in "--mem="
  {
  }

  lemma TimeLiteral(x: string)
    ensures "G --time=" + x == "G" + ([' '] + ("--time=" + x)) && ' ' !in "G" && ' ' !in "--time="
  {
  }

  lemma JobLiteral(x: string)
    ensures " --job-name=" + x == [' '] + ("--job-name=" + x) && ' ' !in "--job-name="
  {
  }

  /** The GPU request, when one is made, is one more word before the terminal options. */
  lemma GresWords(gpus: Option<int>, tail: string)
    ensures var gres := if GpusRequested(gpus) then "--gres=gpu:" + IntToString(gpus.value) + " " else "";
      Split(gres + tail, ' ') ==
        (if GpusRequested(gpus) then ["--gres=gpu:" + IntToString(gpus.value)] else []) + Split(tail, ' ')
  {
    if GpusRequested(gpus) {
      var w := "--gres=gpu:" + IntToString(gpus.value);
      IntToStringChars(gpus.value, ' ');
      SplitFront(w, ' ', tail);
    } else {
      assert "" + tail == tail;
    }
  }

  /** The options after the account: CPUs, memory, time, job name. */
  lemma OptionWords(c: string, m: string, timeLimit: string, jobName: string, s12: string)
    requires ' ' !in c && ' ' !in m && ' ' !in timeLimit && ' ' !in jobName
    ensures Split("--cpus-per-task=" + (c + (" --mem=" + (m + ("G --time=" + (timeLimit
              + (" --job-name=" + (jobName + (" " + s12)))))))), ' ')
         == ["--cpus-per-task=" + c, "--mem=" + m + "G", "--time=" + timeLimit,
             "--job-name=" + jobName] + Split(s12, ' ')
  {
    var s10 := "--job-name=" + (jobName + (" " + s12));
    JobLiteral(jobName + (" " + s12));
    assert s10 == "--job-name=" + (jobName + ([' '] + s12));
    SplitGlue("--job-name=", jobName, ' ', s12);
    var s7 := m + ("G --time=" + (timeLimit + (" " + s10)));
    MemLiteral(s7);
    CpusLiteral("");
    TimeWords(m, timeLimit, s10);
    SplitGlue("--cpus-per-task=", c, ' ', "--mem=" + s7);
    Prepend4("--cpus-per-task=" + c, "--mem=" + m + "G", "--time=" + timeLimit,
             "--job-name=" + jobName, Split(s12, ' '));
  }

  lemma TimeWords(m: string, timeLimit: string, s10: string)
    requires ' ' !in m && ' ' !in timeLimit
    ensures Split("--mem=" + (m + ("G --time=" + (timeLimit + (" " + s10)))), ' ')
         == ["--mem=" + m + "G"] + (["--time=" + timeLimit] + Split(s10, ' '))
  {
    TimeLiteral(timeLimit + (" " + s10));
    MemLiteral("");
    SplitGlue("--time=", timeLimit, ' ', s10);
    var s8 := "--time=" + (timeLimit + ([' '] + s10));
    assert "--mem=" + (m + ("G" + ([' '] + s8))) == ("--mem=" + m + "G") + [' '] + s8;
    assert ' ' !in "--mem=" + m + "G";
    SplitFront("--mem=" + m + "G", ' ', s8);
  }

  /**
    * With a partition, project, time limit and job name free of blanks, the shell sees exactly
    * the intended arguments: the account after `-A`, and the GPU request only when one is made,
    * before the terminal options.
    */
  lemma SrunCommandWords(partition: string, project: string, cpus: int, memoryGb: int, timeLimit: string,
                         jobName: string, gpus: Option<int>)
    requires ' ' !in partition && ' ' !in project && ' ' !in timeLimit && ' ' !in jobName
    ensures Split(SrunCommand(partition, project, cpus, memoryGb, timeLimit, jobName, gpus), ' ')
         == SrunArgs(partition, project, cpus, memoryGb, timeLimit, jobName, gpus)
  {
    var tail := "--x11 --pty bash";
    CommandWords(partition, project, cpus, memoryGb, timeLimit, jobName, gpus, tail);
    TerminalWords(tail);
  }

  /** The interactive dialog's command carries `-A <project>` and the job name `Interactive_<partition>`. */
  lemma InteractiveCommandWords(partition: string, cpus: int, memoryGb: int, timeLimit: string,
                                gpus: Option<int>, project: string)
    requires ' ' !in partition && ' ' !in project && ' ' !in timeLimit
    ensures Split(InteractiveCommand(partition, cpus, memoryGb, timeLimit, gpus, project), ' ')
         == SrunArgs(partition, project, cpus, memoryGb, timeLimit, "Interactive_" + partition, gpus)
  {
    assert ' ' !in "Interactive_" + partition;
    SrunCommandWords(partition, project, cpus, memoryGb, timeLimit, "Interactive_" + partition, gpus);
  }

  lemma TerminalWords(tail: string)
    requires tail == "--x11 --pty bash"
    ensures Split(tail, ' ') == ["--x11", "--pty", "bash"]
  {
    assert tail == "--x11" + [' '] + "--pty" + [' '] + "bash";
    SplitThree("--x11", ' ', "--pty", "bash");
  }

  /** The command's words for any terminal options `tail`. */
  lemma CommandWords(partition: string, project: string, cpus: int, memoryGb: int, timeLimit: string,
                     jobName: string, gpus: Option<int>, tail: string)
    requires ' ' !in partition && ' ' !in project && ' ' !in timeLimit && ' ' !in jobName
    ensures var gres := if GpusRequested(gpus) then "--gres=gpu:" + IntToString(gpus.value) + " " else "";
      Split("srun -p " + (partition + (" -N 1 -A " + (project + (" --cpus-per-task=" + (IntToString(cpus)
        + (" --mem=" + (IntToString(memoryGb) + ("G --time=" + (timeLimit + (" --job-name="
        + (jobName + (" " + (gres + tail))))))))))))), ' ')
      == ["srun", "-p", partition, "-N", "1", "-A", project, "--cpus-per-task=" + IntToString(cpus),
          "--mem=" + IntToString(memoryGb) + "G", "--time=" + timeLimit, "--job-name=" + jobName]
         + (if GpusRequested(gpus) then ["--gres=gpu:" + IntToString(gpus.value)] else []) + Split(tail, ' ')
  {
    var c, m := IntToString(cpus), IntToString(memoryGb);
    IntToStringChars(cpus, ' ');
    IntToStringChars(memoryGb, ' ');
    var gres := if GpusRequested(gpus) then "--gres=gpu:" + IntToString(gpus.value) + " " else "";
    var s12 := gres + tail;
    GresWords(gpus, tail);
    var s4 := "--cpus-per-task=" + (c + (" --mem=" + (m + ("G --time=" + (timeLimit
              + (" --job-name=" + (jobName + (" " + s12))))))));
    OptionWords(c, m, timeLimit, jobName, s12);
    CpusLiteral(c + (" --mem=" + (m + ("G --time=" + (timeLimit
              + (" --job-name=" + (jobName + (" " + s12))))))));
    HeadWords(partition, project, s4);
    var gw := if GpusRequested(gpus) then ["--gres=gpu:" + IntToString(gpus.value)] else [];
    Append7And4("srun", "-p", partition, "-N", "1", "-A", project,
                "--cpus-per-task=" + c, "--mem=" + m + "G", "--time=" + timeLimit, "--job-name=" + jobName,
                gw, Split(tail, ' '));
  }

  /** The command name, the partition, one node and the account. */
  lemma HeadWords(partition: string, project: string, s4: string)
    requires ' ' !in partition && ' ' !in project
    ensures Split("srun -p " + (partition + (" -N 1 -A " + (project + ([' '] + s4)))), ' ')
         == ["srun", "-p", partition, "-N", "1", "-A", project] + Split(s4, ' ')
  {
    var s3 := project + ([' '] + s4);
    assert s3 == project + [' '] + s4;
    SplitFront(project, ' ', s4);
    var x3 := "-A" + [' '] + s3;
    SplitFront("-A", ' ', s3);
    var x2 := "1" + [' '] + x3;
    SplitFront("1", ' ', x3);
    var x1 := "-N" + [' '] + x2;
    SplitFront("-N", ' ', x2);
    NodesLiteral(s3);
    var p := partition + ([' '] + x1);
    assert p == partition + [' '] + x1;
    SplitFront(partition, ' ', x1);
    var x0 := "-p" + [' '] + p;
    SplitFront("-p", ' ', p);
    SrunLiteral(p);
    SplitFront("srun", ' ', x0);
    Prepend7("srun", "-p", partition, "-N", "1", "-A", project, Split(s4, ' '));
  }
}
