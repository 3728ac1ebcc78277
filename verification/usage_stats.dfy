/**
  * The 30-day usage summary of the statistics window (`UserStatsWindow.load_stats`): a fold over
  * the `sacct -P` listing with the columns JobID, Partition, State, Start, End, Elapsed,
  * AllocCPUS, ReqMem, MaxRSS and Account. CPU time is kept in whole CPU-minutes; the window
  * shows it as hours, that number divided by 60.
  */
module UsageStats {
  import opened Wrappers
  import opened Text

  // ---------------------------------------------------------------------------------------
  // Sums over maps

  /** The value of `k`, or 0 when absent: Python's `d.get(k, 0)`. */
  function Get(m: map<string, int>, k: string): int {
    if k in m then m[k] else 0
  }

  /** Python's `d[k] = d.get(k, 0) + x`. */
  function AddTo(m: map<string, int>, k: string, x: int): (r: map<string, int>)
    ensures r.Keys == m.Keys + {k}
    ensures r[k] == Get(m, k) + x && forall j :: j in m && j != k ==> r[j] == m[j]
  {
    m[k := Get(m, k) + x]
  }

  /** Some key of a non-empty map. */
  ghost function Pick(m: map<string, int>): (k: string)
    requires |m.Keys| > 0
    ensures k in m
  {
    var k :| k in m.Keys; k
  }

  /** The sum of a map's values. */
  ghost function Sum(m: map<string, int>): int
    decreases |m.Keys|
  {
    if |m.Keys| == 0 then 0
    else
      var k := Pick(m);
      m[k] + Sum(m - {k})
  }

  /** Any key can be taken out first. */
  lemma {:induction false} SumRemove(m: map<string, int>, k: string)
    requires k in m
    ensures Sum(m) == m[k] + Sum(m - {k})
    decreases |m.Keys|
  {
    var j := Pick(m);
    if j != k {
      assert (m - {j}).Keys == m.Keys - {j};
      assert (m - {k}).Keys == m.Keys - {k};
      SumRemove(m - {j}, k);
      SumRemove(m - {k}, j);
      assert m - {j} - {k} == m - {k} - {j};
    }
  }

  /** Adding `x` to one entry adds `x` to the sum. */
  lemma SumAdd(m: map<string, int>, k: string, x: int)
    ensures Sum(AddTo(m, k, x)) == Sum(m) + x
  {
    var m' := AddTo(m, k, x);
    SumRemove(m', k);
    if k in m {
      SumRemove(m, k);
      assert m' - {k} == m - {k};
    } else {
      assert m' - {k} == m;
    }
  }

  lemma SumEmpty()
    ensures Sum(map[]) == 0
  {
  }

  // ---------------------------------------------------------------------------------------
  // One line of the listing

  /**
    * The day part of an elapsed time `D-rest`: 1440·D minutes and the rest, none and the whole
    * text when there is no '-'; `None` when it does not split in two or `D` is not an integer.
    */
  function DayPart(elapsed: string): (r: Option<(int, string)>)
    ensures '-' !in elapsed ==> r == Some((0, elapsed))
  {
    if '-' in elapsed then
      var halves := Split(elapsed, '-');
      if |halves| != 2 then None
      else match ParseInt(halves[0])
        case Some(d) => Some((1440 * d, halves[1]))
        case None => None
    else Some((0, elapsed))
  }

  /** The minutes of a clock time `H:M:S`, seconds dropped; 0 with fewer than three ':'-fields. */
  function ClockMinutes(time: string): (r: Option<int>)
    ensures |Split(time, ':')| < 3 ==> r == Some(0)
  {
    var t := Split(time, ':');
    if |t| >= 3 then
      match (ParseInt(t[0]), ParseInt(t[1]))
      case (Some(h), Some(m)) => Some(60 * h + m)
      case _ => None
    else Some(0)
  }

  /**
    * With a dash, the day part is read exactly when the time splits at `-` into two pieces and
    * the first is an integer `D`; it is then `1440·D` minutes and the second piece.
    */
  lemma DayPartDashed(elapsed: string)
    requires '-' in elapsed
    ensures var halves := Split(elapsed, '-'); var r := DayPart(elapsed);
      && (r.Some? <==> |halves| == 2 && ParseInt(halves[0]).Some?)
      && (r.Some? ==> r.value == (1440 * ParseInt(halves[0]).value, halves[1]))
  {
  }

  /**
    * With three or more `:` fields, the clock is read exactly when the first two fields `H` and
    * `M` are integers; it is then `60·H + M` minutes.
    */
  lemma ClockMinutesFields(time: string)
    requires |Split(time, ':')| >= 3
    ensures var t := Split(time, ':'); var r := ClockMinutes(time);
      && (r.Some? <==> ParseInt(t[0]).Some? && ParseInt(t[1]).Some?)
      && (r.Some? ==> r.value == 60 * ParseInt(t[0]).value + ParseInt(t[1]).value)
  {
  }

  /** The elapsed time `[D-]H:M:S` in minutes; `None` where an `int()` fails. */
  function ElapsedMinutes(elapsed: string): (r: Option<int>)
    ensures '-' !in elapsed ==> r == ClockMinutes(elapsed)
  {
    match DayPart(elapsed)
    case None => None
    case Some((base, rest)) =>
      match ClockMinutes(rest)
      case None => None
      case Some(m) => Some(base + m)
  }

  /** `H:M:S` is 60·H + M minutes, whatever the seconds. */
  lemma ClockOfParts(h: string, m: string, s: string, hours: int, minutes: int)
    requires ':' !in h && ':' !in m && ':' !in s
    requires ParseInt(h) == Some(hours) && ParseInt(m) == Some(minutes)
    ensures ClockMinutes(h + ":" + m + ":" + s) == Some(60 * hours + minutes)
  {
    assert h + ":" + m + ":" + s == h + [':'] + m + [':'] + s;
    SplitThree(h, ':', m, s);
  }

  /** `D-rest` is D days followed by the rest. */
  lemma DayPartOf(d: string, time: string, days: int)
    requires '-' !in d && '-' !in time
    requires ParseInt(d) == Some(days)
    ensures DayPart(d + "-" + time) == Some((1440 * days, time))
  {
    var e := d + "-" + time;
    assert e == d + ['-'] + time;
    SplitTwo(d, '-', time);
    assert e[|d|] == '-';
  }

  /** `D-time` is D days plus the minutes of the clock time, and fails when the clock time does. */
  lemma ElapsedOfDays(d: string, time: string, days: int)
    requires '-' !in d && '-' !in time
    requires ParseInt(d) == Some(days)
    ensures ClockMinutes(time).Some? ==> ElapsedMinutes(d + "-" + time) == Some(1440 * days + ClockMinutes(time).value)
    ensures ClockMinutes(time).None? ==> ElapsedMinutes(d + "-" + time).None?
  {
    DayPartOf(d, time, days);
    ElapsedOfDayPart(d + "-" + time, 1440 * days, time);
  }

  /** The elapsed time is the day part plus the clock minutes of what follows it. */
  lemma ElapsedOfDayPart(elapsed: string, base: int, rest: string)
    requires DayPart(elapsed) == Some((base, rest))
    ensures ClockMinutes(rest).Some? ==> ElapsedMinutes(elapsed) == Some(base + ClockMinutes(rest).value)
    ensures ClockMinutes(rest).None? ==> ElapsedMinutes(elapsed).None?
  {
  }

  /** What one line does to the summary. */
  datatype Row =
    | Skipped                  // blank, or a `.batch`/`.extern` step
    | Aborted                  // a field the code reads is missing: the whole summary fails
    | Counted(partition: string, state: string, account: string, cpuMinutes: Option<int>)

  /** States counted as failed or cancelled. */
  const FailedStates: seq<string> := ["FAILED", "TIMEOUT", "CANCELLED", "NODE_FAIL"]

  /**
    * The CPU time of a completed job: elapsed minutes times allocated CPUs, when both parse and
    * both fields are non-empty. `Aborted` when a field read is missing from the line.
    */
  function CpuOfCompleted(f: seq<string>): (r: Option<Option<int>>)
    requires |f| >= 3
    ensures r.None? <==> |f| < 6 || (|f[5]| > 0 && ElapsedMinutes(f[5]).Some? && |f| < 7)
    ensures r.Some? && r.value.Some? <==>
      |f| >= 7 && |f[5]| > 0 && |f[6]| > 0 && ElapsedMinutes(f[5]).Some? && ParseInt(f[6]).Some?
    ensures r.Some? && r.value.Some? ==> r.value.value == ElapsedMinutes(f[5]).value * ParseInt(f[6]).value
  {
    if |f| < 6 then None
    else if |f[5]| == 0 then Some(None)
    else match ElapsedMinutes(f[5])
      case None => Some(None)
      case Some(minutes) =>
        if |f| < 7 then None
        else if |f[6]| == 0 then Some(None)
        else match ParseInt(f[6])
          case None => Some(None)
          case Some(cpus) => Some(Some(minutes * cpus))
  }

  /** The effect of one line of the listing. */
  function RowOf(line: string): (r: Row)
    ensures (|line| == 0 || AllSpace(line)) ==> r == Skipped
    ensures r.Counted? ==> var f := Split(line, '|');
      |f| >= 3 && r.partition == f[1] && r.state == Upper(f[2]) &&
      r.account == (if |f| > 9 then f[9] else "unknown") &&
      !EndsWith(f[0], ".batch") && !EndsWith(f[0], ".extern")
    ensures r.Counted? && r.cpuMinutes.Some? ==> r.state == "COMPLETED"
  {
    if |line| == 0 || AllSpace(line) then Skipped
    else
      var f := Split(line, '|');
      if EndsWith(f[0], ".batch") || EndsWith(f[0], ".extern") then Skipped
      else if |f| < 3 then Aborted
      else
        var state := Upper(f[2]);
        var account := if |f| > 9 then f[9] else "unknown";
        if state == "COMPLETED" then
          match CpuOfCompleted(f)
          case None => Aborted
          case Some(cpu) => Counted(f[1], state, account, cpu)
        else Counted(f[1], state, account, None)
  }

  /**
    * Which lines are skipped, which abort the summary and what a counted line carries: a line is
    * skipped exactly when it is blank or a `.batch`/`.extern` step, aborts exactly when it lacks
    * the state field or is a completed job whose CPU fields abort, and is counted otherwise.
    */
  lemma RowOfCases(line: string)
    ensures var f := Split(line, '|'); var r := RowOf(line);
      r.Skipped? <==> |line| == 0 || AllSpace(line) || EndsWith(f[0], ".batch") || EndsWith(f[0], ".extern")
    ensures var f := Split(line, '|'); var r := RowOf(line);
      r.Aborted? <==> !r.Skipped? && (|f| < 3 || (Upper(f[2]) == "COMPLETED" && CpuOfCompleted(f).None?))
    ensures var f := Split(line, '|'); var r := RowOf(line);
      r.Counted? ==> r.cpuMinutes == (if r.state == "COMPLETED" then CpuOfCompleted(f).value else None)
  {
  }

  /** A job step is skipped whatever else the line holds. */
  lemma StepLinesSkipped(job: string, step: string, rest: string)
    requires '|' !in job
    requires step == ".batch" || step == ".extern"
    ensures RowOf(job + step + "|" + rest) == Skipped
  {
    var line := job + step + "|" + rest;
    assert '|' !in step;
    assert line == (job + step) + ['|'] + rest;
    SplitFirst(job + step, '|', rest);
    var f0 := job + step;
    assert f0[|f0| - |step|..] == step;
    assert line[|job + step|] == '|' && !IsSpace('|');
  }

  // ---------------------------------------------------------------------------------------
  // The fold

  datatype Stats = Stats(total: int, completed: int, failed: int, gpuJobs: int,
                         partitionUsage: map<string, int>, cpuMinutes: int, accountCpuMinutes: map<string, int>)

  const NoJobs := Stats(0, 0, 0, 0, map[], 0, map[])

  /** A job runs on GPUs when its partition's name contains `gpu` in any case. */
  predicate IsGpuPartition(partition: string) {
    Contains(Lower(partition), "gpu")
  }

  /** The CPU time charged to an account: nothing when the job's CPU time is unknown. */
  function Charge(m: map<string, int>, account: string, cpu: Option<int>): map<string, int> {
    match cpu
    case None => m
    case Some(c) => AddTo(m, account, c)
  }

  /** The summary after one counted job. */
  function Count(s: Stats, partition: string, state: string, account: string, cpu: Option<int>): (r: Stats)
    ensures r.total == s.total + 1
    ensures r.partitionUsage == AddTo(s.partitionUsage, partition, 1)
    ensures r.completed + r.failed <= s.completed + s.failed + 1
    ensures r.gpuJobs <= s.gpuJobs + 1
    ensures r.completed >= s.completed && r.failed >= s.failed && r.gpuJobs >= s.gpuJobs
    ensures r.cpuMinutes == s.cpuMinutes + cpu.GetOr(0)
    ensures r.accountCpuMinutes == Charge(s.accountCpuMinutes, account, cpu)
  {
    var completed := if state == "COMPLETED" then s.completed + 1 else s.completed;
    var failed := if state != "COMPLETED" && state in FailedStates then s.failed + 1 else s.failed;
    var gpu := if IsGpuPartition(partition) then s.gpuJobs + 1 else s.gpuJobs;
    Stats(s.total + 1, completed, failed, gpu, AddTo(s.partitionUsage, partition, 1),
          s.cpuMinutes + cpu.GetOr(0), Charge(s.accountCpuMinutes, account, cpu))
  }

  /** The summary after one line; `None` when the line makes the whole summary fail. */
  function Step(s: Stats, line: string): Option<Stats> {
    match RowOf(line)
    case Skipped => Some(s)
    case Aborted => None
    case Counted(p, state, account, cpu) => Some(Count(s, p, state, account, cpu))
  }

  /** The summary of the lines, read in order. */
  function Fold(lines: seq<string>): Option<Stats>
    decreases |lines|
  {
    if |lines| == 0 then Some(NoJobs)
    else match Fold(lines[..|lines| - 1])
      case None => None
      case Some(s) => Step(s, lines[|lines| - 1])
  }

  /** The summary of the listing's text. */
  function Summary(sacctOut: string): Option<Stats> {
    Fold(Split(Strip(sacctOut), '\n'))
  }

  /**
    * The invariants the window's percentages rely on: the per-partition counts add up to the
    * total, completed and failed jobs and GPU jobs are each at most the total, and the
    * per-account CPU time adds up to the total CPU time.
    */
  ghost predicate Consistent(s: Stats) {
    Sum(s.partitionUsage) == s.total &&
    0 <= s.completed && 0 <= s.failed && s.completed + s.failed <= s.total &&
    0 <= s.gpuJobs <= s.total &&
    Sum(s.accountCpuMinutes) == s.cpuMinutes
  }

  /** Charging a job's CPU time adds it to the sum over accounts. */
  lemma ChargeSum(m: map<string, int>, account: string, cpu: Option<int>)
    ensures Sum(Charge(m, account, cpu)) == Sum(m) + cpu.GetOr(0)
  {
    if cpu.Some? {
      SumAdd(m, account, cpu.value);
    }
  }

  /** Counting a job keeps the invariants. */
  lemma CountConsistent(s: Stats, partition: string, state: string, account: string, cpu: Option<int>)
    requires Consistent(s)
    ensures Consistent(Count(s, partition, state, account, cpu))
  {
    SumAdd(s.partitionUsage, partition, 1);
    ChargeSum(s.accountCpuMinutes, account, cpu);
  }

  lemma StepConsistent(s: Stats, line: string)
    requires Consistent(s)
    ensures Step(s, line).Some? ==> Consistent(Step(s, line).value)
  {
    match RowOf(line)
    case Skipped =>
    case Aborted =>
    case Counted(p, state, account, cpu) =>
      CountConsistent(s, p, state, account, cpu);
  }

  /** Every summary the fold produces satisfies the invariants. */
  lemma {:induction false} FoldConsistent(lines: seq<string>)
    ensures Fold(lines).Some? ==> Consistent(Fold(lines).value)
    decreases |lines|
  {
    if |lines| == 0 {
      SumEmpty();
    } else {
      FoldConsistent(lines[..|lines| - 1]);
      if Fold(lines[..|lines| - 1]).Some? {
        StepConsistent(Fold(lines[..|lines| - 1]).value, lines[|lines| - 1]);
      }
    }
  }

  /** The summary of any listing satisfies the invariants. */
  lemma SummaryConsistent(sacctOut: string)
    ensures Summary(sacctOut).Some? ==> Consistent(Summary(sacctOut).value)
  {
    FoldConsistent(Split(Strip(sacctOut), '\n'));
  }

  /** The total is the number of counted lines: skipped lines add nothing, every other line adds one. */
  function CountedLines(lines: seq<string>): nat
    decreases |lines|
  {
    if |lines| == 0 then 0
    else CountedLines(lines[..|lines| - 1]) + (if RowOf(lines[|lines| - 1]).Counted? then 1 else 0)
  }

  /** One line aborts the summary exactly when it is `Aborted`, and adds one to the total when counted. */
  lemma StepTotal(s: Stats, line: string)
    ensures Step(s, line).None? <==> RowOf(line).Aborted?
    ensures Step(s, line).Some? ==> Step(s, line).value.total == s.total + (if RowOf(line).Counted? then 1 else 0)
  {
  }

  /** The fold fails exactly when some line aborts it. */
  lemma {:induction false} FoldAborts(lines: seq<string>)
    ensures Fold(lines).None? <==> exists k :: 0 <= k < |lines| && RowOf(lines[k]) == Aborted
    decreases |lines|
  {
    if |lines| > 0 {
      var init := lines[..|lines| - 1];
      FoldAborts(init);
      if Fold(init).None? {
        var k :| 0 <= k < |init| && RowOf(init[k]) == Aborted;
        assert init[k] == lines[k];
      } else {
        StepTotal(Fold(init).value, lines[|lines| - 1]);
        if RowOf(lines[|lines| - 1]) != Aborted {
          forall k | 0 <= k < |lines| ensures RowOf(lines[k]) != Aborted {
            if k < |init| { assert init[k] == lines[k]; }
          }
        }
      }
    }
  }

  lemma {:induction false} FoldTotal(lines: seq<string>)
    ensures Fold(lines).Some? ==> Fold(lines).value.total == CountedLines(lines)
    ensures Fold(lines).None? <==> exists k :: 0 <= k < |lines| && RowOf(lines[k]) == Aborted
    decreases |lines|
  {
    FoldAborts(lines);
    if |lines| > 0 {
      var init := lines[..|lines| - 1];
      FoldTotal(init);
      if Fold(init).Some? {
        StepTotal(Fold(init).value, lines[|lines| - 1]);
      }
    }
  }
}
