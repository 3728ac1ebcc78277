/**
  * The follow-mode viewer of a job's output or error file (`FileViewerWindow.monitor_file`).
  * Once a second it looks at the file; when the file has grown past the size it last saw, it
  * appends everything from that size on to the display. The file system is a parameter: each
  * observation is the file's contents at that moment, or `None` when the file does not exist.
  */
module FileTail {
  import opened Wrappers
  import opened Text

  /** Shown once, first, when the file does not exist when the window opens. */
  const WaitingNotice := "Waiting for file to be created...\n"

  /** What the viewer keeps: the size it has read up to, and the text it has displayed. */
  datatype Monitor = Monitor(lastSize: nat, shown: string)

  /** The viewer when its window opens, depending on whether the file exists yet. */
  function Start(fileExists: bool): (r: Monitor)
    ensures r.lastSize == 0
    ensures StartsWith(r.shown, WaitingNotice) <==> !fileExists
  {
    if fileExists then Monitor(0, "") else Monitor(0, WaitingNotice)
  }

  /** One pass of the monitor loop, given what the file holds at that moment. */
  function Tick(m: Monitor, file: Option<string>): (r: Monitor)
    ensures r.lastSize >= m.lastSize
    ensures StartsWith(r.shown, m.shown)
    ensures r.lastSize > m.lastSize <==> file.Some? && |file.value| > m.lastSize
    ensures r.lastSize > m.lastSize ==> r.lastSize == |file.value| && EndsWith(r.shown, file.value[m.lastSize..])
    ensures r.lastSize == m.lastSize ==> r == m
  {
    match file
    case Some(contents) =>
      if |contents| > m.lastSize then
        var added := contents[m.lastSize..];
        assert (m.shown + added)[..|m.shown|] == m.shown;
        assert (m.shown + added)[|m.shown + added| - |added|..] == added;
        Monitor(|contents|, m.shown + added)
      else m
    case None => m
  }

  /** The viewer after a run of passes. */
  function Run(m: Monitor, files: seq<Option<string>>): (r: Monitor)
    ensures r.lastSize >= m.lastSize
    ensures StartsWith(r.shown, m.shown)
    decreases |files|
  {
    if |files| == 0 then m
    else
      var n := Tick(m, files[0]);
      var r := Run(n, files[1..]);
      assert r.shown[..|m.shown|] == r.shown[..|n.shown|][..|m.shown|];
      r
  }

  /** The file only ever grows from `c` on: every observation extends the one before it. */
  predicate Grows(c: string, files: seq<Option<string>>)
    decreases |files|
  {
    |files| == 0 ||
    match files[0]
    case None => Grows(c, files[1..])
    case Some(d) => StartsWith(d, c) && Grows(d, files[1..])
  }

  /** The contents last seen, or `c` when the file was never seen after it. */
  function Latest(c: string, files: seq<Option<string>>): string
    decreases |files|
  {
    if |files| == 0 then c
    else match files[0]
      case None => Latest(c, files[1..])
      case Some(d) => Latest(d, files[1..])
  }

  /** A pass over a grown file keeps the display equal to the notice followed by the whole file. */
  lemma TickMirrors(notice: string, c: string, d: string)
    requires StartsWith(d, c)
    ensures Tick(Monitor(|c|, notice + c), Some(d)) == Monitor(|d|, notice + d)
  {
    if |d| > |c| {
      assert notice + c + d[|c|..] == notice + d by {
        assert d == c + d[|c|..];
      }
    } else {
      assert d == c;
    }
  }

  /**
    * While the file only grows, the display after any run of passes is exactly the notice (if
    * any) followed by the file's latest contents: nothing is shown twice and nothing is skipped.
    */
  lemma {:induction false} RunMirrors(notice: string, c: string, files: seq<Option<string>>)
    requires Grows(c, files)
    ensures Run(Monitor(|c|, notice + c), files) == Monitor(|Latest(c, files)|, notice + Latest(c, files))
    decreases |files|
  {
    if |files| > 0 {
      match files[0]
      case None =>
        RunMirrors(notice, c, files[1..]);
      case Some(d) =>
        TickMirrors(notice, c, d);
        RunMirrors(notice, d, files[1..]);
    }
  }

  /** From the window's opening on, a growing file is mirrored in full after the notice, if one was shown. */
  lemma TailShowsFile(fileExists: bool, files: seq<Option<string>>)
    requires Grows("", files)
    ensures Run(Start(fileExists), files).shown == (if fileExists then "" else WaitingNotice) + Latest("", files)
  {
    var notice := if fileExists then "" else WaitingNotice;
    assert Start(fileExists) == Monitor(|""|, notice + "");
    RunMirrors(notice, "", files);
  }

  /**
    * A file that was cut back and then grew again: only the part past the size read before is
    * shown, so the start of the new contents is never displayed.
    */
  lemma TruncatedFileShowsOnlyTail(m: Monitor, shorter: string, longer: string)
    requires |shorter| <= m.lastSize < |longer|
    ensures Run(m, [Some(shorter), Some(longer)]) == Monitor(|longer|, m.shown + longer[m.lastSize..])
  {
    var files := [Some(shorter), Some(longer)];
    assert Tick(m, Some(shorter)) == m;
    assert files[1..] == [Some(longer)];
    assert Run(m, files) == Run(m, [Some(longer)]);
    assert [Some(longer)][1..] == [];
    assert Run(m, [Some(longer)]) == Run(Tick(m, Some(longer)), []);
  }
}
