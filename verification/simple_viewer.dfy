/**
  * The stand-alone partition viewer (`simple_slurm_viewer.py`): the partitions listed by
  * `sinfo --noheader --format=%P,%D`, default partitions first, then by name, four to a row.
  */
module SimpleViewer {
  import opened Wrappers
  import opened Text
  import opened Lists
  import PartitionGrid

  /** A parsed line of the listing: the partition as `sinfo` prints it, and its node count. */
  datatype Entry = Entry(name: string, nodes: int)

  /** A partition marked by `sinfo` as the default one. */
  predicate IsDefault(text: string) {
    EndsWith(text, "*")
  }

  /** The name shown on the icon: one trailing `*` dropped from a default partition. */
  function DisplayName(text: string): (r: string)
    ensures IsDefault(text) ==> r + "*" == text
    ensures !IsDefault(text) ==> r == text
  {
    if IsDefault(text) then
      assert text == text[..|text| - 1] + "*";
      text[..|text| - 1]
    else text
  }

  /** Only one marker is dropped here, where the main viewer drops every trailing `*`. */
  lemma DisplayNameDropsOneStar(name: string)
    ensures DisplayName(name + "**") == name + "*"
  {
    assert EndsWith(name + "**", "*") by {
      assert (name + "**")[|name| + 1..] == "*";
    }
    assert (name + "**")[..|name| + 1] == name + "*";
  }

  /** A line kept by `load_partitions`: at least two ','-fields after stripping, the second an integer. */
  function EntryOf(line: string): (r: Option<Entry>)
    ensures var f := Split(Strip(line), ',');
      r.Some? <==> |line| > 0 && |f| >= 2 && ParseInt(f[1]).Some?
    ensures var f := Split(Strip(line), ',');
      r.Some? ==> r.value == Entry(f[0], ParseInt(f[1]).value)
  {
    if |line| == 0 then None
    else
      var info := Split(Strip(line), ',');
      if |info| >= 2 then
        match ParseInt(info[1])
        case Some(n) => Some(Entry(info[0], n))
        case None => None
      else None
  }

  /** The parsed partitions, in listing order; a line that does not parse is skipped and the rest still read. */
  function EntriesOf(lines: seq<string>): (r: seq<Entry>)
    ensures |r| <= |lines|
    decreases |lines|
  {
    if |lines| == 0 then []
    else
      var rest := EntriesOf(lines[1..]);
      match EntryOf(lines[0])
      case Some(e) => [e] + rest
      case None => rest
  }

  /** A partition is listed exactly when some line of the listing parses to it. */
  lemma {:induction false} EntriesMembers(lines: seq<string>, e: Entry)
    ensures e in EntriesOf(lines) <==> exists l :: l in lines && EntryOf(l) == Some(e)
    decreases |lines|
  {
    if |lines| > 0 {
      EntriesMembers(lines[1..], e);
      if e in EntriesOf(lines) && EntryOf(lines[0]) != Some(e) {
        var l :| l in lines[1..] && EntryOf(l) == Some(e);
        assert l in lines;
      }
      if l :| l in lines && EntryOf(l) == Some(e) {
        if l != lines[0] {
          assert l in lines[1..];
        }
      }
    }
  }

  /** The sort key of a name: lower case, trailing stars removed. */
  function SortName(name: string): string {
    Lower(TrimEnd(name, '*'))
  }

  /** The order of `partitions.sort`: default partitions first, then by sort name. */
  predicate EntryLe(a: Entry, b: Entry) {
    if IsDefault(a.name) != IsDefault(b.name) then IsDefault(a.name)
    else LexLe(SortName(a.name), SortName(b.name))
  }

  lemma EntryOrderTotal()
    ensures TotalPreorder(EntryLe)
  {
    forall a, b ensures EntryLe(a, b) || EntryLe(b, a) {
      LexLeTotal(SortName(a.name), SortName(b.name));
    }
    forall a, b, c | EntryLe(a, b) && EntryLe(b, c) ensures EntryLe(a, c) {
      if IsDefault(a.name) == IsDefault(b.name) == IsDefault(c.name) {
        LexLeTrans(SortName(a.name), SortName(b.name), SortName(c.name));
      }
    }
  }

  /** The parsed partitions in display order. */
  function SortedEntries(stdout: string): (r: seq<Entry>)
    ensures multiset(r) == multiset(EntriesOf(Split(Strip(stdout), '\n')))
    ensures SortedBy(r, EntryLe)
  {
    EntryOrderTotal();
    SortBy(EntriesOf(Split(Strip(stdout), '\n')), EntryLe)
  }

  /** In display order, no default partition comes after a partition that is not a default one. */
  lemma DefaultsFirst(stdout: string)
    ensures var r := SortedEntries(stdout);
      forall i, j :: 0 <= i < j < |r| && IsDefault(r[j].name) ==> IsDefault(r[i].name)
  {
    var r := SortedEntries(stdout);
    forall i, j | 0 <= i < j < |r| && IsDefault(r[j].name) ensures IsDefault(r[i].name) {
      assert EntryLe(r[i], r[j]);
    }
  }

  /** Partitions the order cannot tell apart (same marker, same sort name) keep the order of the listing. */
  lemma TiesKeepListingOrder(stdout: string, e: Entry)
    ensures var same := (x: Entry) => IsDefault(x.name) == IsDefault(e.name) && SortName(x.name) == SortName(e.name);
      Filter(SortedEntries(stdout), same) == Filter(EntriesOf(Split(Strip(stdout), '\n')), same)
  {
    var same := (x: Entry) => IsDefault(x.name) == IsDefault(e.name) && SortName(x.name) == SortName(e.name);
    EntryOrderTotal();
    forall a, b | same(a) && same(b) ensures EntryLe(a, b) {
      LexLeTotal(SortName(a.name), SortName(b.name));
    }
    SortStable(EntriesOf(Split(Strip(stdout), '\n')), EntryLe, same);
  }

  const NoPartitionsMessage := "No SLURM partitions found or 'sinfo' command not available."

  /** What the window's grid holds. */
  datatype Widget =
    | PartitionWidget(name: string, nodes: int, isDefault: bool, row: nat, col: nat)
    | MessageWidget(text: string, row: nat, col: nat)

  /** The widget of the `i`-th partition in display order. */
  function PartitionAt(e: Entry, i: nat): (r: Widget)
    ensures r.PartitionWidget? && (r.row, r.col) == PartitionGrid.Cell(i)
  {
    PartitionWidget(DisplayName(e.name), e.nodes, IsDefault(e.name), PartitionGrid.Cell(i).0, PartitionGrid.Cell(i).1)
  }

  /**
    * `load_partitions`: the icons in display order four to a row, one message when nothing was
    * listed, and the scheduler's error when `sinfo` failed.
    */
  function Layout(exitCode: int, stdout: string, stderr: string): (r: seq<Widget>)
    ensures exitCode != 0 ==> r == [MessageWidget("Error querying SLURM: " + stderr, 0, 0)]
    ensures exitCode == 0 && |SortedEntries(stdout)| == 0 ==> r == [MessageWidget(NoPartitionsMessage, 0, 0)]
    ensures exitCode == 0 && |SortedEntries(stdout)| > 0 ==>
      |r| == |SortedEntries(stdout)| && forall i :: 0 <= i < |r| ==> r[i] == PartitionAt(SortedEntries(stdout)[i], i)
  {
    if exitCode != 0 then [MessageWidget("Error querying SLURM: " + stderr, 0, 0)]
    else
      var parts := SortedEntries(stdout);
      if |parts| == 0 then [MessageWidget(NoPartitionsMessage, 0, 0)]
      else seq(|parts|, i requires 0 <= i < |parts| => PartitionAt(parts[i], i))
  }

  /** The grid never puts two widgets in one cell, and no row holds more than four. */
  lemma LayoutCellsDistinct(exitCode: int, stdout: string, stderr: string)
    ensures var r := Layout(exitCode, stdout, stderr);
      |r| >= 1 && (forall i :: 0 <= i < |r| ==> r[i].col < PartitionGrid.GridWidth) &&
      forall i, j :: 0 <= i < j < |r| ==> (r[i].row, r[i].col) != (r[j].row, r[j].col)
  {
    var r := Layout(exitCode, stdout, stderr);
    forall i, j | 0 <= i < j < |r| ensures (r[i].row, r[i].col) != (r[j].row, r[j].col) {
      PartitionGrid.CellsDistinct(i, j);
    }
  }
}
