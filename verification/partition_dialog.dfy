/**
  * The resource limits the partition viewer's job dialogs read from `sinfo` and `scontrol`
  * output (`TimeSelectionDialog` and `BatchJobDialog` in slurm_partition_viewer.py), and the
  * time slider / spin box arithmetic of those dialogs. Command output is passed in as text;
  * `scontrol show node <name> -o` is the parameter `showNode`.
  */
module PartitionDialog {
  import opened Wrappers
  import opened Text
  import opened Patterns
  import opened Lists

  // ---------------------------------------------------------------------------------------
  // Maximum walltime, in hours

  /** Hours offered when the partition reports no limit (`infinite` or nothing). */
  const UnlimitedHours := 72
  /** Hours offered when the limit cannot be read. */
  const UnreadableHours := 24

  /** The hours of a `sinfo %l` limit `[D-]H[:M[:S]]`; `None` where the Python raises. */
  function LimitHours(t: string): Option<int> {
    if '-' in t then
      var parts := Split(t, '-');
      if |parts| != 2 then None
      else match (ParseInt(parts[0]), ParseInt(Split(parts[1], ':')[0]))
        case (Some(d), Some(h)) => Some(d * 24 + h)
        case _ => None
    else ParseInt(Split(t, ':')[0])
  }

  /** `get_max_walltime`: the partition's time limit in whole hours, at least one. */
  function MaxWalltimeHours(sinfoOut: string): (r: int)
    ensures r >= 1
    ensures Strip(sinfoOut) == "infinite" || Strip(sinfoOut) == "" ==> r == UnlimitedHours
  {
    var t := Strip(sinfoOut);
    if t == "infinite" || t == "" then UnlimitedHours
    else match LimitHours(t)
      case None => UnreadableHours
      case Some(h) => Max(1, h)
  }

  /**
    * The `except` path: a limit whose `int()` or two-way unpacking raises gives 24 hours. With
    * a dash, that is a dash count other than one or a day or hour field that is not an integer;
    * without one, an hour field that is not an integer.
    */
  lemma MaxWalltimeHoursUnreadable(sinfoOut: string)
    ensures var t := Strip(sinfoOut); var p := Split(t, '-');
      '-' in t && (|p| != 2 || ParseInt(p[0]).None? || ParseInt(Split(p[1], ':')[0]).None?) ==>
        MaxWalltimeHours(sinfoOut) == UnreadableHours
    ensures var t := Strip(sinfoOut);
      t != "infinite" && t != "" && '-' !in t && ParseInt(Split(t, ':')[0]).None? ==>
        MaxWalltimeHours(sinfoOut) == UnreadableHours
  {
    var t := Strip(sinfoOut);
    if '-' in t {
      assert t != "infinite" && t != "";
    }
  }

  /** A limit whose hour field is not an integer, such as `abc` or `ab:00:00`, gives the 24-hour default. */
  lemma WalltimeHoursBadHour(hs: string, rest: string)
    requires ParseInt(hs).None? && ':' !in hs && '-' !in hs && '-' !in rest
    requires |hs| > 0 && !IsSpace(hs[0]) && (|rest| == 0 || !IsSpace(rest[|rest| - 1]))
    ensures MaxWalltimeHours(hs + ":" + rest) == UnreadableHours
  {
    var s := hs + ":" + rest;
    assert s[0] == hs[0];
    assert |rest| == 0 ==> s[|s| - 1] == ':';
    assert |rest| > 0 ==> s[|s| - 1] == rest[|rest| - 1];
    StripNoop(s);
    assert s[|hs|] == ':' && ':' !in "infinite";
    SplitFirst(hs, ':', rest);
  }

  /** A limit with two dashes, such as `1-2-3`, cannot be unpacked into days and time: 24 hours. */
  lemma WalltimeHoursTwoDashes(a: string, b: string, c: string)
    requires '-' !in a && '-' !in b && '-' !in c
    requires |a| > 0 && !IsSpace(a[0]) && |c| > 0 && !IsSpace(c[|c| - 1])
    ensures MaxWalltimeHours(a + "-" + b + "-" + c) == UnreadableHours
  {
    var t := a + "-" + b + "-" + c;
    assert t[0] == a[0] && t[|t| - 1] == c[|c| - 1];
    StripNoop(t);
    SplitThree(a, '-', b, c);
    assert t[|a|] == '-';
  }

  /** `H:rest` reads as `H` hours: minutes and seconds are discarded. */
  lemma WalltimeHoursPlain(h: nat, rest: string)
    requires '-' !in rest
    requires |rest| == 0 || !IsSpace(rest[|rest| - 1])
    ensures MaxWalltimeHours(NatToString(h) + ":" + rest) == Max(1, h)
  {
    var hs := NatToString(h);
    var s := hs + ":" + rest;
    assert s[0] == hs[0] && IsDigit(hs[0]);
    StripNoop(s);
    NotInDigits(hs, '-');
    assert '-' !in s;
    SplitFirst(hs, ':', rest);
    ParseIntOfString(h);
  }

  /** The pieces of `D-H:rest` under the two splits the parser makes. */
  lemma DaysLimitPieces(ds: string, hs: string, rest: string)
    requires AllDigits(ds) && AllDigits(hs) && '-' !in rest
    ensures var t := ds + "-" + (hs + ":" + rest);
      '-' in t && Split(t, '-') == [ds, hs + ":" + rest] && Split(hs + ":" + rest, ':')[0] == hs
  {
    var tail := hs + ":" + rest;
    var t := ds + "-" + tail;
    assert t[|ds|] == '-';
    assert t == ds + ['-'] + tail;
    NotInDigits(ds, '-');
    NotInDigits(hs, '-');
    SplitTwo(ds, '-', tail);
    NotInDigits(hs, ':');
    SplitFirst(hs, ':', rest);
  }

  /** A limit with one dash whose day and hour pieces parse is read as days and hours. */
  lemma LimitHoursOfPieces(t: string, ds: string, tail: string, hs: string, d: int, h: int)
    requires '-' in t && Split(t, '-') == [ds, tail] && Split(tail, ':')[0] == hs
    requires ParseInt(ds) == Some(d) && ParseInt(hs) == Some(h)
    ensures LimitHours(t) == Some(24 * d + h)
  {
  }

  /** `D-H:rest` is `24 D + H` hours. */
  lemma LimitHoursDays(d: nat, h: nat, rest: string)
    requires '-' !in rest
    ensures LimitHours(NatToString(d) + "-" + (NatToString(h) + ":" + rest)) == Some(24 * d + h)
  {
    var ds, hs := NatToString(d), NatToString(h);
    DaysLimitPieces(ds, hs, rest);
    assert ParseInt(ds) == Some(d) by { ParseIntOfString(d); }
    assert ParseInt(hs) == Some(h) by { ParseIntOfString(h); }
    LimitHoursOfPieces(ds + "-" + (hs + ":" + rest), ds, hs + ":" + rest, hs, d, h);
  }

  /** `D-H:rest` reads as `24 D + H` hours. */
  lemma WalltimeHoursDays(d: nat, h: nat, rest: string)
    requires '-' !in rest
    requires |rest| == 0 || !IsSpace(rest[|rest| - 1])
    ensures MaxWalltimeHours(NatToString(d) + "-" + NatToString(h) + ":" + rest) == Max(1, 24 * d + h)
  {
    var ds := NatToString(d);
    var s := ds + "-" + (NatToString(h) + ":" + rest);
    assert s == NatToString(d) + "-" + NatToString(h) + ":" + rest;
    assert s[0] == ds[0];
    assert |rest| == 0 ==> s[|s| - 1] == ':';
    StripNoop(s);
    assert s[|ds|] == '-' && '-' !in "infinite";
    LimitHoursDays(d, h, rest);
  }

  // ---------------------------------------------------------------------------------------
  // CPUs per node

  /** CPUs offered when neither `sinfo %c` nor the node record gives a count. */
  const FallbackCpus := 32

  /** `sinfo %N` output reduced to its first comma-separated entry, as the dialogs do. */
  function FirstNode(nodeListOut: string): (r: string)
    ensures ',' !in r
  {
    Split(Strip(nodeListOut), ',')[0]
  }

  /** `get_max_cpus_per_node`: `sinfo %c` if it is an integer, else `CPUTot=` of the first node. */
  function MaxCpus(cpuOut: string, nodeListOut: string, showNode: string -> string): (r: int)
    ensures r >= 1
    ensures ParseInt(Strip(cpuOut)).None? && FirstNode(nodeListOut) == "" ==> r == FallbackCpus
    ensures var node := FirstNode(nodeListOut);
      (ParseInt(Strip(cpuOut)).None? && node != "" && KeyNumberValue(Strip(showNode(node)), "CPUTot=").None?)
      ==> r == FallbackCpus
  {
    match ParseInt(Strip(cpuOut))
    case Some(n) => Max(1, n)
    case None =>
      var node := FirstNode(nodeListOut);
      if node == "" then FallbackCpus
      else match KeyNumberValue(Strip(showNode(node)), "CPUTot=")
        case Some(n) => Max(1, n)
        case None => FallbackCpus
  }

  /** An integer `sinfo %c` is taken as is, clamped to one. */
  lemma MaxCpusFromSinfo(n: int, nodeListOut: string, showNode: string -> string)
    ensures MaxCpus(IntToString(n), nodeListOut, showNode) == Max(1, n)
  {
    ParseIntOfString(n);
    var s := IntToString(n);
    assert s[|s| - 1] == NatToString(if n < 0 then -n else n)[|s| - 1 - (if n < 0 then 1 else 0)];
    assert IsDigit(s[|s| - 1]);
    assert IsDigit(s[0]) || s[0] == '-';
    StripNoop(s);
  }

  /** Otherwise the first `CPUTot=<n>` of the first node's record decides. */
  lemma MaxCpusFromNode(cpuOut: string, nodeListOut: string, showNode: string -> string,
                        pre: string, n: nat, post: string)
    requires ParseInt(Strip(cpuOut)).None?
    requires FirstNode(nodeListOut) != ""
    requires Strip(showNode(FirstNode(nodeListOut))) == pre + "CPUTot=" + NatToString(n) + post
    requires forall j :: 0 <= j < |pre| ==> !OccursAt(pre + "CPUTot=" + NatToString(n) + post, "CPUTot=", j)
    requires |post| == 0 || !IsDigit(post[0])
    ensures MaxCpus(cpuOut, nodeListOut, showNode) == Max(1, n)
  {
    KeyNumberFound(pre, "CPUTot=", n, post);
  }

  // ---------------------------------------------------------------------------------------
  // Memory per node, in GB

  /** GB offered when no memory figure can be read. */
  const FallbackMemoryGb := 128

  /** MB to GB rounded up: the least number of whole GB that hold `mb` MB. */
  function CeilGb(mb: nat): (r: nat)
    ensures 1024 * r >= mb
    ensures r == 0 || 1024 * (r - 1) < mb
  {
    (mb + 1023) / 1024
  }

  /** A size with a unit letter in GB: `G` as is, `M` (or no unit) rounded up from MB. */
  function SizeGb(v: nat, unit: string): nat {
    if unit == "G" then v else CeilGb(v)
  }

  /** The memory of a `scontrol show node` record: `RealMemory=<MB>`, else `Memory=<n><M|G>`. */
  function NodeMemoryGb(nodeInfo: string): (r: Option<int>)
    ensures r.Some? ==> r.value >= 1
  {
    match KeyNumberValue(nodeInfo, "RealMemory=")
    case Some(mb) => Some(Max(1, CeilGb(mb)))
    case None =>
      match MemoryWithUnitValue(nodeInfo)
      case Some((v, u)) => Some(Max(1, SizeGb(v, [u])))
      case None => None
  }

  /** The memory of `sinfo %m` output: its first number, with an optional `M`/`G` unit defaulting to MB. */
  function SinfoMemoryGb(memOut: string): (r: Option<int>)
    ensures r.Some? ==> r.value >= 1
    ensures AllSpace(memOut) ==> r.None?
  {
    StripEmpty(memOut);
    var t := Strip(memOut);
    if t == "" then None
    else match NumberWithUnitValue(t)
      case Some((v, u)) => Some(Max(1, SizeGb(v, u)))
      case None => None
  }

  /**
    * `get_max_memory_per_node` as written. The function imports `re` locally inside the branch
    * for a non-empty node name, which makes `re` a local variable of the whole function; with
    * an empty node name the `sinfo %m` fallback therefore raises `UnboundLocalError`, and the
    * handler returns the default.
    */
  function MaxMemoryGbAsWritten(nodeListOut: string, showNode: string -> string, memOut: string): (r: int)
    ensures r >= 1
    ensures FirstNode(nodeListOut) == "" ==> r == FallbackMemoryGb
  {
    var node := FirstNode(nodeListOut);
    if node == "" then FallbackMemoryGb
    else match NodeMemoryGb(Strip(showNode(node)))
      case Some(g) => g
      case None => SinfoMemoryGb(memOut).GetOr(FallbackMemoryGb)
  }

  /** `get_max_memory_per_node` as intended: the node record first, then `sinfo %m`, then the default. */
  function MaxMemoryGb(nodeListOut: string, showNode: string -> string, memOut: string): (r: int)
    ensures r >= 1
  {
    var node := FirstNode(nodeListOut);
    var fromNode := if node == "" then None else NodeMemoryGb(Strip(showNode(node)));
    match fromNode
    case Some(g) => g
    case None => SinfoMemoryGb(memOut).GetOr(FallbackMemoryGb)
  }

  /** The two agree except when the node list is empty and `sinfo %m` does give a size. */
  lemma MaxMemoryGbDiffers(nodeListOut: string, showNode: string -> string, memOut: string)
    ensures (MaxMemoryGbAsWritten(nodeListOut, showNode, memOut) != MaxMemoryGb(nodeListOut, showNode, memOut)) <==>
              (FirstNode(nodeListOut) == "" && SinfoMemoryGb(memOut).Some? && SinfoMemoryGb(memOut).value != FallbackMemoryGb)
  {
  }

  /** With no node name, the corrected version reads `sinfo %m`; the as-written one never does. */
  lemma MaxMemoryGbUsesSinfo(nodeListOut: string, showNode: string -> string, memOut: string)
    requires FirstNode(nodeListOut) == ""
    requires SinfoMemoryGb(memOut).Some?
    ensures MaxMemoryGb(nodeListOut, showNode, memOut) == SinfoMemoryGb(memOut).value
    ensures MaxMemoryGbAsWritten(nodeListOut, showNode, memOut) == FallbackMemoryGb
  {
  }

  /** `RealMemory=<MB>` is rounded up to whole GB, at least one. */
  lemma MaxMemoryGbFromRealMemory(nodeListOut: string, showNode: string -> string, memOut: string,
                                  pre: string, mb: nat, post: string)
    requires FirstNode(nodeListOut) != ""
    requires Strip(showNode(FirstNode(nodeListOut))) == pre + "RealMemory=" + NatToString(mb) + post
    requires forall j :: 0 <= j < |pre| ==> !OccursAt(pre + "RealMemory=" + NatToString(mb) + post, "RealMemory=", j)
    requires |post| == 0 || !IsDigit(post[0])
    ensures MaxMemoryGb(nodeListOut, showNode, memOut) == Max(1, CeilGb(mb))
    ensures MaxMemoryGbAsWritten(nodeListOut, showNode, memOut) == Max(1, CeilGb(mb))
  {
    KeyNumberFound(pre, "RealMemory=", mb, post);
  }

  // ---------------------------------------------------------------------------------------
  // GPUs

  datatype Gpu = Gpu(kind: string, count: nat)

  /** `get_gpu_info`: a leading `gpu:<type>:<count>` of `sinfo %G`, the type upper-cased. */
  function GpuInfo(gresOut: string): (r: Option<Gpu>)
    ensures r.Some? ==> IsUpperCase(r.value.kind) && |r.value.kind| > 0 && StartsWith(Strip(gresOut), "gpu:")
    ensures Strip(gresOut) == "(null)" ==> r.None?
  {
    var t := Strip(gresOut);
    if t == "(null)" || t == "" then None
    else match GpuPrefixValue(t)
      case None => None
      case Some((kind, n)) =>
        UpperIsUpperCase(kind);
        assert OccursAt(t, "gpu:", 0);
        Some(Gpu(Upper(kind), n))
  }

  /** The anchored GPU pattern on `gpu:<type>:<n>post` captures the type and the digits of `n`. */
  lemma GpuPatternMatches(kind: string, n: nat, post: string)
    requires |kind| > 0 && ':' !in kind
    requires |post| == 0 || !IsDigit(post[0])
    ensures MatchAt("gpu:" + kind + ":" + NatToString(n) + post, GpuTypeCount, 0) == Some([kind, NatToString(n)])
  {
    assert AllIn(NotChar(':'), kind) by {
      forall j | 0 <= j < |kind| ensures In(NotChar(':'), kind[j]) { assert kind[j] in kind; }
    }
    MatchWordThenNumber("gpu:" + kind + ":" + NatToString(n) + post, "gpu:", kind, NotChar(':'), ":", n, post);
  }

  /** `gpu:<type>:<n>` followed by anything that does not extend the count gives the upper-cased type and `n`. */
  lemma GpuInfoOfPrefix(kind: string, n: nat, post: string)
    requires |kind| > 0 && ':' !in kind
    requires |post| == 0 || (!IsDigit(post[0]) && !IsSpace(post[|post| - 1]))
    ensures GpuInfo("gpu:" + kind + ":" + NatToString(n) + post) == Some(Gpu(Upper(kind), n))
  {
    var ns := NatToString(n);
    var s := "gpu:" + kind + ":" + ns + post;
    assert s[|s| - 1] == (if |post| == 0 then ns[|ns| - 1] else post[|post| - 1]);
    assert s[0] == 'g';
    StripNoop(s);
    GpuPatternMatches(kind, n, post);
    ParseIntOfString(n);
  }

  /** A GRES text with no colon after its first four characters (such as `gpu:2`) gives no GPU information. */
  lemma GpuInfoNeedsType(gresOut: string)
    requires |Strip(gresOut)| < 4 || ':' !in Strip(gresOut)[4..]
    ensures GpuInfo(gresOut) == None
  {
  }

  // ---------------------------------------------------------------------------------------
  // Nodes

  /** Nodes offered when no node count can be read. */
  const FallbackNodes := 10

  /** The nodes of one `sinfo %N` group: `b - a + 1` for a range `[a-b]`, else one. */
  function GroupNodes(group: string): int {
    match BracketRangeValue(group)
    case Some((a, b)) => b - a + 1
    case None => 1
  }

  function SumNodes(groups: seq<string>): int {
    if |groups| == 0 then 0 else GroupNodes(groups[0]) + SumNodes(groups[1..])
  }

  /** `get_max_nodes`: `sinfo %D` if it is an integer, else the node count of `sinfo %N`. */
  function MaxNodes(countOut: string, nodeListOut: string): (r: int)
    ensures r >= 1
    ensures ParseInt(Strip(countOut)).None? && AllSpace(nodeListOut) ==> r == FallbackNodes
  {
    match ParseInt(Strip(countOut))
    case Some(n) => Max(1, n)
    case None =>
      StripEmpty(nodeListOut);
      var t := Strip(nodeListOut);
      if t == "" then FallbackNodes else Max(1, SumNodes(Split(t, ',')))
  }

  lemma {:induction false} SumNodesConcat(a: seq<string>, b: seq<string>)
    ensures SumNodes(a + b) == SumNodes(a) + SumNodes(b)
    decreases |a|
  {
    if |a| == 0 {
      assert a + b == b;
    } else {
      assert (a + b)[1..] == a[1..] + b;
      SumNodesConcat(a[1..], b);
    }
  }

  /** A group without a bracket is a single node. */
  lemma GroupNodesPlain(group: string)
    requires '[' !in group
    ensures GroupNodes(group) == 1
  {
    BracketRangeNeedsBracket(group);
  }

  /** A list of plain node names counts one node per name. */
  lemma {:induction false} SumNodesPlain(groups: seq<string>)
    requires forall k :: 0 <= k < |groups| ==> '[' !in groups[k]
    ensures SumNodes(groups) == |groups|
    decreases |groups|
  {
    if |groups| > 0 {
      GroupNodesPlain(groups[0]);
      SumNodesPlain(groups[1..]);
    }
  }

  /** `prefix[a-b]suffix`, with no bracket before the range, counts `b - a + 1` nodes. */
  lemma GroupNodesRange(prefix: string, a: nat, b: nat, suffix: string)
    requires '[' !in prefix
    ensures GroupNodes(prefix + "[" + NatToString(a) + "-" + NatToString(b) + "]" + suffix) == b - a + 1
  {
    BracketRangeOf(prefix, NatToString(a), NatToString(b), suffix);
  }

  // ---------------------------------------------------------------------------------------
  // Projects

  /** Project offered when the user has no associations. */
  const DefaultProject := "staff"

  /** The non-empty second `|`-field of each non-empty line of `sacctmgr ... --parsable2` output. */
  function AssociationAccounts(lines: seq<string>): (r: seq<string>)
    ensures forall k :: 0 <= k < |r| ==> r[k] != ""
  {
    if |lines| == 0 then []
    else
      var fields := Split(lines[0], '|');
      var here := if lines[0] != "" && |fields| > 1 && fields[1] != "" then [fields[1]] else [];
      here + AssociationAccounts(lines[1..])
  }

  /** `get_available_projects`: distinct accounts in order of first appearance, or `staff`. */
  function AvailableProjects(sacctmgrOut: string): (r: seq<string>)
    ensures |r| > 0 && NoDuplicates(r)
    ensures forall k :: 0 <= k < |r| ==> r[k] != ""
  {
    var accounts := AssociationAccounts(Split(Strip(sacctmgrOut), '\n'));
    var found := AppendNew([], accounts);
    assert forall k :: 0 <= k < |found| ==> found[k] in accounts;
    if |found| == 0 then [DefaultProject] else found
  }

  /** Every account of a listed association is offered, and nothing else is (apart from the default). */
  lemma AvailableProjectsComplete(sacctmgrOut: string, x: string)
    ensures x in AssociationAccounts(Split(Strip(sacctmgrOut), '\n')) ==> x in AvailableProjects(sacctmgrOut)
    ensures x in AvailableProjects(sacctmgrOut) ==>
              x in AssociationAccounts(Split(Strip(sacctmgrOut), '\n')) || AvailableProjects(sacctmgrOut) == [DefaultProject]
  {
  }

  // ---------------------------------------------------------------------------------------
  // Time slider and spin boxes

  /** Slider values are minutes up to this many hours; longer partitions use whole hours. */
  const MinuteGranularityHours := 4

  function UsesMinutes(maxHours: int): bool { maxHours <= MinuteGranularityHours }

  datatype HoursMinutes = HoursMinutes(hours: nat, minutes: nat)

  /**
    * `slider_to_spinboxes`: minutes to hours and minutes, the minutes rounded to the nearest
    * quarter hour with a carry into the hours. `round(m / 15)` never sees a tie, since
    * `m / 15` is never a half for whole `m`, so it is `(m + 7) div 15`.
    */
  function SliderToSpinboxes(v: nat): (r: HoursMinutes)
    ensures r.minutes in {0, 15, 30, 45}
    ensures -7 <= 60 * r.hours + r.minutes - v <= 7
  {
    var h := v / 60;
    var m := (v % 60 + 7) / 15 * 15;
    if m == 60 then HoursMinutes(h + 1, 0) else HoursMinutes(h, m)
  }

  /** A slider inside the partition's limit never shows more hours than the limit. */
  lemma SliderHoursWithinLimit(v: nat, maxHours: nat)
    requires v <= 60 * maxHours
    ensures SliderToSpinboxes(v).hours <= maxHours
  {
  }

  /** `spinboxes_to_slider`: the slider only follows the spin boxes in minute mode. */
  function SpinboxesToSlider(useMinutes: bool, t: HoursMinutes): (r: Option<nat>)
    ensures r.Some? <==> useMinutes
  {
    if useMinutes then Some(t.hours * 60 + t.minutes) else None
  }

  /** Setting the spin boxes to a quarter-hour time and reading the slider back changes nothing. */
  lemma SpinboxesRoundTrip(t: HoursMinutes)
    requires t.minutes in {0, 15, 30, 45}
    ensures SliderToSpinboxes(SpinboxesToSlider(true, t).value) == t
  {
    var v := t.hours * 60 + t.minutes;
    assert v / 60 == t.hours && v % 60 == t.minutes;
  }

  /** The slider value after a round trip is a quarter hour within seven minutes of the original. */
  lemma SliderRoundTrip(v: nat)
    ensures SpinboxesToSlider(true, SliderToSpinboxes(v)).value % 15 == 0
    ensures -7 <= SpinboxesToSlider(true, SliderToSpinboxes(v)).value - v <= 7
  {
  }

  /** `get_selected_time`: `H:MM:00` in minute mode, `H:00:00` otherwise. */
  function SelectedTime(useMinutes: bool, t: HoursMinutes): string {
    if useMinutes then NatToString(t.hours) + ":" + Pad2(t.minutes) + ":00"
    else NatToString(t.hours) + ":00:00"
  }

  /** The rendered time limit read back as a partition limit gives its whole hours. */
  lemma SelectedTimeHours(useMinutes: bool, t: HoursMinutes)
    ensures MaxWalltimeHours(SelectedTime(useMinutes, t)) == Max(1, t.hours)
  {
    var rest := if useMinutes then Pad2(t.minutes) + ":00" else "00:00";
    assert SelectedTime(useMinutes, t) == NatToString(t.hours) + ":" + rest;
    if useMinutes {
      var p := Pad2(t.minutes);
      NotInDigits(NatToString(t.minutes), '-');
      assert '-' !in p;
    }
    assert rest[|rest| - 1] == '0';
    WalltimeHoursPlain(t.hours, rest);
  }
}
