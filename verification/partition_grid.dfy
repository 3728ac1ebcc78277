/**
  * The main window of the partition viewer: one icon per partition listed by
  * `sinfo -h -o %P,%D`, placed four to a row, and the badge that marks the partitions in which
  * the user has jobs (from `squeue -u <user> -h -o %P`).
  */
module PartitionGrid {
  import opened Wrappers
  import opened Text

  /** Icons per row of the grid. */
  const GridWidth := 4

  /** The grid cell of the `i`-th item: row `i / 4`, column `i % 4`. */
  function Cell(i: nat): (r: (nat, nat))
    ensures r.1 < GridWidth
    ensures r.0 * GridWidth + r.1 == i
  {
    (i / GridWidth, i % GridWidth)
  }

  /** Different items never share a cell. */
  lemma CellsDistinct(i: nat, j: nat)
    requires i != j
    ensures Cell(i) != Cell(j)
  {
  }

  /**
    * A partition icon. `display` is the name as `sinfo` prints it, with `*` on the default
    * partition; `partition` is that name with the trailing stars removed, as the scheduler's
    * commands expect it.
    */
  datatype Icon = Icon(display: string, partition: string, nodes: int, row: nat, col: nat,
                       hasActiveJobs: bool, badgeVisible: bool)

  /** A new icon: no jobs known yet, badge hidden. */
  function NewIcon(text: string, nodes: int, i: nat): (r: Icon)
    ensures r.display == text && !EndsWith(r.partition, "*") && StartsWith(text, r.partition)
    ensures (r.row, r.col) == Cell(i) && !r.hasActiveJobs && !r.badgeVisible
  {
    var p := TrimEnd(text, '*');
    assert |p| > 0 ==> p[|p| - 1..] == [p[|p| - 1]];
    Icon(text, p, nodes, Cell(i).0, Cell(i).1, false, false)
  }

  /** The default partition's marker is not part of its name. */
  lemma DefaultMarkerDropped(name: string)
    requires |name| == 0 || name[|name| - 1] != '*'
    ensures NewIcon(name + "*", 0, 0).partition == name
    ensures NewIcon(name, 0, 0).partition == name
  {
    TrimEndAppend(name, '*');
    TrimEndNoop(name, '*');
  }

  /** The node count of a line's fields: the second field as an integer, 0 when absent or not a number. */
  function NodeCount(parts: seq<string>): int {
    if |parts| > 1 then ParseInt(parts[1]).GetOr(0) else 0
  }

  /** The item index an icon was placed for. */
  function Index(icon: Icon): nat {
    icon.row * GridWidth + icon.col
  }

  /** The icon of the `i`-th line of the listing: named by its first ','-field, sized by its second. */
  function IconOf(line: string, i: nat): (r: Icon)
    ensures Index(r) == i
  {
    var parts := Split(line, ',');
    NewIcon(parts[0], NodeCount(parts), i)
  }

  /** `icon` is the icon of the non-empty line `line`, numbered `i`. */
  predicate PlacedAt(icon: Icon, line: string, i: nat) {
    |line| > 0 && icon == IconOf(line, i)
  }

  /** The numbers of the non-empty lines from `i` on, in increasing order. */
  function NonEmptyFrom(lines: seq<string>, i: nat): (r: seq<nat>)
    requires i <= |lines|
    ensures forall k :: 0 <= k < |r| ==> i <= r[k] < |lines| && |lines[r[k]]| > 0
    ensures forall k, m :: 0 <= k < m < |r| ==> r[k] < r[m]
    ensures forall j :: i <= j < |lines| && |lines[j]| > 0 ==> j in r
    decreases |lines| - i
  {
    if i == |lines| then []
    else
      var rest := NonEmptyFrom(lines, i + 1);
      if |lines[i]| > 0 then [i] + rest else rest
  }

  /**
    * `load_partitions`: an icon for every non-empty line of the listing, placed at the cell of
    * the line's own number, so an empty line leaves its cell blank.
    */
  function Icons(sinfoOut: string): (r: seq<Icon>)
    ensures var lines := Split(Strip(sinfoOut), '\n');
      forall k :: 0 <= k < |r| ==> Index(r[k]) < |lines| && PlacedAt(r[k], lines[Index(r[k])], Index(r[k]))
  {
    var lines := Split(Strip(sinfoOut), '\n');
    var idx := NonEmptyFrom(lines, 0);
    seq(|idx|, k requires 0 <= k < |idx| => IconOf(lines[idx[k]], idx[k]))
  }

  /** Every non-empty line of the listing gets an icon: none is dropped. */
  lemma IconsComplete(sinfoOut: string, j: nat)
    requires var lines := Split(Strip(sinfoOut), '\n'); j < |lines| && |lines[j]| > 0
    ensures exists k :: 0 <= k < |Icons(sinfoOut)| && Index(Icons(sinfoOut)[k]) == j
  {
    var lines := Split(Strip(sinfoOut), '\n');
    var idx := NonEmptyFrom(lines, 0);
    var k :| 0 <= k < |idx| && idx[k] == j;
    assert Index(Icons(sinfoOut)[k]) == j;
  }

  /** No two icons of the listing share a cell: they follow the order of the lines. */
  lemma IconsInDistinctCells(sinfoOut: string)
    ensures var r := Icons(sinfoOut);
      forall k, m :: 0 <= k < m < |r| ==> Index(r[k]) < Index(r[m]) && (r[k].row, r[k].col) != (r[m].row, r[m].col)
  {
    var lines := Split(Strip(sinfoOut), '\n');
    var idx := NonEmptyFrom(lines, 0);
    var r := Icons(sinfoOut);
    forall k, m | 0 <= k < m < |r| ensures Index(r[k]) < Index(r[m]) && (r[k].row, r[k].col) != (r[m].row, r[m].col) {
      assert Index(r[k]) == idx[k] && Index(r[m]) == idx[m];
    }
  }

  /** The icons by displayed name; a later icon of the same name replaces an earlier one. */
  function Registry(icons: seq<Icon>): (r: map<string, Icon>)
    ensures forall name :: name in r <==> exists k :: 0 <= k < |icons| && icons[k].display == name
    ensures forall name :: name in r ==> r[name].display == name && r[name] in icons
    decreases |icons|
  {
    if |icons| == 0 then map[]
    else
      var last := icons[|icons| - 1];
      var init := icons[..|icons| - 1];
      var reg := Registry(init);
      assert forall k :: 0 <= k < |init| ==> init[k] == icons[k];
      assert forall i :: i in init ==> i in icons;
      reg[last.display := last]
  }

  /** The registered icon of a name is its last icon in the listing. */
  lemma {:induction false} RegistryKeepsLast(icons: seq<Icon>, k: nat)
    requires k < |icons|
    requires forall j :: k < j < |icons| ==> icons[j].display != icons[k].display
    ensures Registry(icons)[icons[k].display] == icons[k]
    decreases |icons|
  {
    if k < |icons| - 1 {
      var init := icons[..|icons| - 1];
      assert init[k] == icons[k];
      RegistryKeepsLast(init, k);
    }
  }

  /** The partitions in which the user has jobs: the non-empty lines of the queue listing. */
  function ActivePartitions(squeueOut: string): (r: set<string>)
    ensures "" !in r
    ensures forall p :: p in r <==> p in Split(Strip(squeueOut), '\n') && p != ""
  {
    set p | p in Split(Strip(squeueOut), '\n') && p != ""
  }

  /** `update_job_status`: the badge follows the flag, and nothing changes when the flag is unchanged. */
  function UpdateJobStatus(icon: Icon, hasJobs: bool): (r: Icon)
    ensures r.hasActiveJobs == hasJobs
    ensures r.display == icon.display && r.partition == icon.partition && r.nodes == icon.nodes
    ensures r.row == icon.row && r.col == icon.col
    ensures hasJobs == icon.hasActiveJobs ==> r == icon
    ensures hasJobs != icon.hasActiveJobs ==> r.badgeVisible == hasJobs
  {
    if hasJobs != icon.hasActiveJobs then icon.(hasActiveJobs := hasJobs, badgeVisible := hasJobs) else icon
  }

  /** The badge shows exactly when the flag is set. */
  predicate BadgeInSync(icon: Icon) {
    icon.badgeVisible == icon.hasActiveJobs
  }

  /** `update_job_statuses`: every icon flagged by whether its partition is in the queue listing. */
  function UpdateJobStatuses(reg: map<string, Icon>, squeueOut: string): (r: map<string, Icon>)
    ensures r.Keys == reg.Keys
    ensures forall name :: name in r ==> (r[name].hasActiveJobs <==> reg[name].partition in ActivePartitions(squeueOut))
    ensures forall name :: name in r ==> r[name].display == reg[name].display && r[name].partition == reg[name].partition
  {
    var active := ActivePartitions(squeueOut);
    map name | name in reg :: UpdateJobStatus(reg[name], reg[name].partition in active)
  }

  /** An update keeps every badge in step with its flag, and a repeated update changes nothing. */
  lemma UpdateKeepsBadges(reg: map<string, Icon>, squeueOut: string)
    requires forall name :: name in reg ==> BadgeInSync(reg[name])
    ensures var r := UpdateJobStatuses(reg, squeueOut);
      (forall name :: name in r ==> BadgeInSync(r[name])) && UpdateJobStatuses(r, squeueOut) == r
  {
    var r := UpdateJobStatuses(reg, squeueOut);
    var active := ActivePartitions(squeueOut);
    forall name | name in r ensures BadgeInSync(r[name]) {
      assert r[name] == UpdateJobStatus(reg[name], reg[name].partition in active);
    }
    var r2 := UpdateJobStatuses(r, squeueOut);
    forall name | name in r ensures r2[name] == r[name] {
      assert r2[name] == UpdateJobStatus(r[name], r[name].partition in active);
    }
  }

  /** The default partition's icon gets its badge: the queue listing names partitions without the marker. */
  lemma DefaultPartitionBadge(name: string, before: string, after: string)
    requires |name| > 0 && name[|name| - 1] != '*' && '\n' !in name
    requires Strip(before + name + after) == before + name + after
    requires |before| == 0 || before[|before| - 1] == '\n'
    requires |after| == 0 || after[0] == '\n'
    ensures name in ActivePartitions(before + name + after)
    ensures UpdateJobStatus(NewIcon(name + "*", 0, 0), NewIcon(name + "*", 0, 0).partition in ActivePartitions(before + name + after)).hasActiveJobs
  {
    DefaultMarkerDropped(name);
    SplitMiddle(before, name, after);
  }

  /** A line followed by a line break, or by nothing, is the first '\n'-piece. */
  lemma SplitHead(name: string, after: string)
    requires '\n' !in name
    requires |after| == 0 || after[0] == '\n'
    ensures Split(name + after, '\n')[0] == name
  {
    if |after| == 0 {
      assert name + after == name;
      SplitNoSeparator(name, '\n');
    } else {
      assert name + after == name + ['\n'] + after[1..];
      SplitFirst(name, '\n', after[1..]);
    }
  }

  /** A line between line breaks (or the ends of the text) is one of its '\n'-pieces. */
  lemma SplitMiddle(before: string, name: string, after: string)
    requires '\n' !in name
    requires |before| == 0 || before[|before| - 1] == '\n'
    requires |after| == 0 || after[0] == '\n'
    ensures name in Split(before + name + after, '\n')
  {
    var tail := name + after;
    SplitHead(name, after);
    assert before + name + after == before + tail;
    if |before| == 0 {
      assert before + tail == tail;
    } else {
      var b := before[..|before| - 1];
      assert before == b + ['\n'];
      assert before + tail == b + ['\n'] + tail;
      SplitConcat(b, tail, '\n');
      var parts := Split(b, '\n') + Split(tail, '\n');
      assert parts[|Split(b, '\n')|] == name;
    }
  }
}
