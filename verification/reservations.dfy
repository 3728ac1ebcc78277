/**
  * The reservation viewer (`slurm_reservations.py`): the records read from
  * `scontrol show reservation -o`, the partition and past-reservation filters, the order by start
  * time, and the texts and status shown for each row. Dates are read by a parameter `toTime`
  * standing for `strptime` with the format `%Y-%m-%dT%H:%M:%S`, as seconds on one time line;
  * the clock is a parameter `now` on the same line.
  */
module Reservations {
  import opened Wrappers
  import opened Text
  import opened Lists
  import opened Patterns

  /** One reservation; a field is `None` when the line does not give it (or gives a sentinel). */
  datatype Reservation = Reservation(
    name: Option<string>,
    start: Option<int>,
    end: Option<int>,
    duration: Option<int>,
    nodes: Option<string>,
    partitions: Option<string>,
    users: Option<string>,
    accounts: Option<string>)

  /** `re.search(key + r'(\S+)', entry)`: the value after the first key followed by a non-blank. */
  function Field(entry: string, key: string): (r: Option<string>)
    ensures r.Some? ==> |r.value| > 0 && AllIn(NonSpace, r.value)
  {
    KeyRun(entry, key, NonSpace)
  }

  /** A start or end time: absent, `Unknown` and text `toTime` rejects all read as unknown. */
  function TimeField(entry: string, key: string, toTime: string -> Option<int>): (r: Option<int>)
    ensures Field(entry, key).None? || Field(entry, key) == Some("Unknown") ==> r.None?
    ensures Field(entry, key).Some? && Field(entry, key).value != "Unknown" ==> r == toTime(Field(entry, key).value)
  {
    match Field(entry, key)
    case None => None
    case Some(v) => if v == "Unknown" then None else toTime(v)
  }

  /** The users or accounts: absent or `n/a` read as none. */
  function NamesField(entry: string, key: string): (r: Option<string>)
    ensures r.Some? <==> Field(entry, key).Some? && Field(entry, key).value != "n/a"
    ensures r.Some? ==> r == Field(entry, key)
  {
    match Field(entry, key)
    case Some(v) => if v != "n/a" then Some(v) else None
    case None => None
  }

  /** The length of a reservation: known exactly when both ends are. */
  function Duration(start: Option<int>, end: Option<int>): (r: Option<int>)
    ensures r.Some? <==> start.Some? && end.Some?
    ensures r.Some? ==> start.value + r.value == end.value
  {
    if start.Some? && end.Some? then Some(end.value - start.value) else None
  }

  /** The record of one line of `scontrol show reservation -o`. */
  function ReservationOf(entry: string, toTime: string -> Option<int>): (r: Reservation)
    ensures r.name == Field(entry, "ReservationName=")
    ensures r.start == TimeField(entry, "StartTime=", toTime) && r.end == TimeField(entry, "EndTime=", toTime)
    ensures r.duration == Duration(r.start, r.end)
    ensures r.nodes == Field(entry, "Nodes=") && r.partitions == Field(entry, "Partition=")
    ensures r.users == NamesField(entry, "Users=") && r.accounts == NamesField(entry, "Accounts=")
  {
    var start := TimeField(entry, "StartTime=", toTime);
    var end := TimeField(entry, "EndTime=", toTime);
    Reservation(Field(entry, "ReservationName="), start, end, Duration(start, end),
                Field(entry, "Nodes="), Field(entry, "Partition="),
                NamesField(entry, "Users="), NamesField(entry, "Accounts="))
  }

  /** A field written `Key=value` with a blank after it, the key not occurring before, is read back. */
  lemma FieldRead(pre: string, key: string, v: string, post: string)
    requires forall j :: 0 <= j < |pre| ==> !OccursAt(pre + key + v + post, key, j)
    requires |v| > 0 && AllIn(NonSpace, v) && (|post| == 0 || IsSpace(post[0]))
    ensures Field(pre + key + v + post, key) == Some(v)
  {
    KeyRunFound(pre, key, v, post, NonSpace);
  }

  /** A key with a blank, or nothing, after it gives no value. */
  lemma FieldMissing(entry: string, key: string)
    requires forall i :: 0 <= i <= |entry| && OccursAt(entry, key, i) ==> i + |key| == |entry| || IsSpace(entry[i + |key|])
    ensures Field(entry, key).None?
  {
    KeyRunFoundIff(entry, key, NonSpace);
  }

  /** `get_reservations`: one record per non-blank line; `None` when the command failed. */
  function ReservationsOf(exitCode: int, stdout: string, toTime: string -> Option<int>): (r: Option<seq<Reservation>>)
    ensures r.Some? <==> exitCode == 0
    ensures r.Some? ==> (|r.value| == |EntryLines(stdout)| &&
                         forall k :: 0 <= k < |r.value| ==> r.value[k] == ReservationOf(EntryLines(stdout)[k], toTime))
  {
    if exitCode != 0 then None
    else
      var entries := EntryLines(stdout);
      Some(seq(|entries|, k requires 0 <= k < |entries| => ReservationOf(entries[k], toTime)))
  }

  /** The lines of the listing that are not blank. */
  function EntryLines(stdout: string): (r: seq<string>)
    ensures forall k :: 0 <= k < |r| ==> !AllSpace(r[k])
  {
    Filter(Split(Strip(stdout), '\n'), (e: string) => !AllSpace(e))
  }

  // ---------------------------------------------------------------------------------------
  // Filters and order

  /** The partition filter's entry that selects every reservation. */
  const AllPartitions := "All Partitions"

  /** `apply_filters`' test: the selected partition is one of the reservation's, and a past one is shown only on request. */
  predicate Shown(r: Reservation, selected: string, showPast: bool, now: int) {
    (selected == AllPartitions || (r.partitions.Some? && selected in Split(r.partitions.value, ','))) &&
    (showPast || r.end.None? || r.end.value >= now)
  }

  /** `start_time or datetime.max`: unknown starts order after every known one. */
  predicate StartLe(a: Reservation, b: Reservation) {
    match (a.start, b.start)
    case (_, None) => true
    case (None, Some(_)) => false
    case (Some(x), Some(y)) => x <= y
  }

  lemma StartOrderTotal()
    ensures TotalPreorder(StartLe)
  {
  }

  /** `apply_filters`: the reservations shown, by start time, unknown starts last. */
  function ApplyFilters(rs: seq<Reservation>, selected: string, showPast: bool, now: int): (r: seq<Reservation>)
    ensures multiset(r) == multiset(Filter(rs, (x: Reservation) => Shown(x, selected, showPast, now)))
    ensures SortedBy(r, StartLe)
  {
    StartOrderTotal();
    SortBy(Filter(rs, (x: Reservation) => Shown(x, selected, showPast, now)), StartLe)
  }

  /** Every reservation passing the filters is shown, and no other. */
  lemma ApplyFiltersMembers(rs: seq<Reservation>, selected: string, showPast: bool, now: int, x: Reservation)
    ensures x in ApplyFilters(rs, selected, showPast, now) <==> x in rs && Shown(x, selected, showPast, now)
  {
    var kept := Filter(rs, (y: Reservation) => Shown(y, selected, showPast, now));
    var r := ApplyFilters(rs, selected, showPast, now);
    assert x in r <==> x in multiset(r);
    assert x in kept <==> x in multiset(kept);
  }

  /** Reservations with unknown start come after all the others. */
  lemma UnknownStartsLast(rs: seq<Reservation>, selected: string, showPast: bool, now: int)
    ensures var r := ApplyFilters(rs, selected, showPast, now);
      forall i, j :: 0 <= i < j < |r| && r[i].start.None? ==> r[j].start.None?
  {
    var r := ApplyFilters(rs, selected, showPast, now);
    forall i, j | 0 <= i < j < |r| && r[i].start.None? ensures r[j].start.None? {
      assert StartLe(r[i], r[j]);
    }
  }

  /** Reservations with the same start keep the order of the listing. */
  lemma SameStartKeepsOrder(rs: seq<Reservation>, selected: string, showPast: bool, now: int, start: Option<int>)
    ensures var same := (x: Reservation) => x.start == start;
      Filter(ApplyFilters(rs, selected, showPast, now), same) ==
      Filter(Filter(rs, (x: Reservation) => Shown(x, selected, showPast, now)), same)
  {
    StartOrderTotal();
    SortStable(Filter(rs, (x: Reservation) => Shown(x, selected, showPast, now)), StartLe, (x: Reservation) => x.start == start);
  }

  /** With every partition selected and past reservations shown, nothing is dropped. */
  lemma NoFilterKeepsAll(rs: seq<Reservation>, now: int)
    ensures multiset(ApplyFilters(rs, AllPartitions, true, now)) == multiset(rs)
  {
    FilterAll(rs, (x: Reservation) => Shown(x, AllPartitions, true, now));
  }

  // ---------------------------------------------------------------------------------------
  // What each row shows

  /** A duration in whole days, hours, minutes and seconds, as `timedelta` normalises it. */
  function DurationParts(seconds: int): (r: (int, nat, nat, nat))
    ensures 86400 * r.0 + 3600 * r.1 + 60 * r.2 + r.3 == seconds
    ensures r.1 < 24 && r.2 < 60 && r.3 < 60
  {
    var days := seconds / 86400;
    var rest := seconds % 86400;
    (days, rest / 3600, (rest % 3600) / 60, rest % 60)
  }

  /** The duration column: `Dd Hh Mm` for a day or more, `Hh Mm` below that, `Unknown` for none or zero. */
  function DurationText(duration: Option<int>): (r: string)
    ensures r == "Unknown" <==> duration.None? || duration.value == 0
  {
    match duration
    case None => "Unknown"
    case Some(d) =>
      if d == 0 then "Unknown"
      else
        var (days, hours, minutes, _) := DurationParts(d);
        var clock := IntToString(hours) + "h " + IntToString(minutes) + "m";
        var r := if days > 0 then IntToString(days) + "d " + clock else clock;
        assert r[|r| - 1] == 'm' != "Unknown"[6];
        r
  }

  /** A duration below a day shows no day count, one of a day or more always does. */
  lemma DurationTextDays(d: int)
    requires d != 0
    ensures var (days, hours, minutes, _) := DurationParts(d);
      var clock := IntToString(hours) + "h " + IntToString(minutes) + "m";
      (0 < d < 86400 ==> DurationText(Some(d)) == clock) &&
      (d >= 86400 ==> DurationText(Some(d)) == IntToString(days) + "d " + clock && days >= 1)
  {
  }

  /** The users and accounts column. */
  function UsersAccountsText(users: Option<string>, accounts: Option<string>): (r: string)
    ensures users.Some? && |users.value| > 0 ==> StartsWith(r, "Users: " + users.value)
    ensures accounts.Some? && |accounts.value| > 0 ==> EndsWith(r, "Accounts: " + accounts.value)
    ensures (users.None? || |users.value| == 0) && (accounts.None? || |accounts.value| == 0) <==> r == "None specified"
  {
    var u := users.Some? && |users.value| > 0;
    var a := accounts.Some? && |accounts.value| > 0;
    if u && a then
      var t := "Users: " + users.value + "\nAccounts: " + accounts.value;
      assert t[..|"Users: " + users.value|] == "Users: " + users.value;
      assert t[|t| - |"Accounts: " + accounts.value|..] == "Accounts: " + accounts.value;
      assert t[0] == 'U';
      t
    else if u then
      var t := "Users: " + users.value;
      assert t[0] == 'U';
      t
    else if a then
      var t := "Accounts: " + accounts.value;
      assert t[0] == 'A';
      t
    else "None specified"
  }

  datatype Status = Future | Active | Past

  /** The row colour: only reservations with both ends known have a status. */
  function StatusOf(r: Reservation, now: int): (s: Option<Status>)
    ensures s.Some? <==> r.start.Some? && r.end.Some?
    ensures s == Some(Future) <==> r.start.Some? && r.end.Some? && now < r.start.value
    ensures s == Some(Past) <==> r.start.Some? && r.end.Some? && r.start.value <= now && now > r.end.value
    ensures s == Some(Active) ==> r.start.value <= now <= r.end.value
  {
    if r.start.Some? && r.end.Some? then
      if now < r.start.value then Some(Future)
      else if now > r.end.value then Some(Past)
      else Some(Active)
    else None
  }

  /** A reservation hidden as past is one whose status is past, when its start is known. */
  lemma HiddenPastIsPast(r: Reservation, selected: string, now: int)
    requires r.start.Some? && r.start.value <= now
    requires Shown(r, selected, true, now) && !Shown(r, selected, false, now)
    ensures StatusOf(r, now) == Some(Past)
  {
  }
}
