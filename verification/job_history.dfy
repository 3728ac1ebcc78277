/**
  * The job history window of a partition: the rows of the queue listing (`squeue`), the rows of
  * the accounting listing (`sacct`) that are shown as finished jobs, where the output and error
  * files of a job are found, and the outcome of cancelling a job.
  */
module JobHistory {
  import opened Wrappers
  import opened Text
  import opened Patterns
  import Submission

  // ---------------------------------------------------------------------------------------
  // Queued and running jobs

  /** The queue listing is requested with seven columns: id, name, state, start, CPUs, memory, limit. */
  const QueuedColumns := 7

  /** The listing as lines: the text stripped, then split at line breaks. */
  function Lines(out: string): seq<string> {
    Split(Strip(out), '\n')
  }

  /** A line of the queue listing that `load_queued_jobs` keeps, with `f` its ','-fields. */
  predicate QueuedLine(l: string, f: seq<string>) {
    |l| > 0 && f == Split(l, ',') && |f| >= QueuedColumns
  }

  /** The kept rows of `load_queued_jobs`: the ','-fields of every non-empty line with at least seven of them. */
  function QueuedRowsOf(lines: seq<string>): (r: seq<seq<string>>)
    ensures |r| <= |lines|
    ensures forall k :: 0 <= k < |r| ==> |r[k]| >= QueuedColumns
    decreases |lines|
  {
    if |lines| == 0 then []
    else
      var rest := QueuedRowsOf(lines[1..]);
      var fields := Split(lines[0], ',');
      if |lines[0]| > 0 && |fields| >= QueuedColumns then [fields] + rest else rest
  }

  /** A row is kept exactly when some line of the listing has it as its fields. */
  lemma {:induction false} QueuedRowsMembers(lines: seq<string>, f: seq<string>)
    ensures f in QueuedRowsOf(lines) <==> exists l :: l in lines && QueuedLine(l, f)
    decreases |lines|
  {
    if |lines| > 0 {
      QueuedRowsMembers(lines[1..], f);
      if f in QueuedRowsOf(lines) && !QueuedLine(lines[0], f) {
        var l :| l in lines[1..] && QueuedLine(l, f);
        assert l in lines;
      }
      if l :| l in lines && QueuedLine(l, f) {
        if l != lines[0] {
          assert l in lines[1..];
        }
      }
    }
  }

  /** The table of queued jobs: the first seven fields of every kept row. */
  function QueuedTable(squeueOut: string): (r: seq<seq<string>>)
    ensures forall k :: 0 <= k < |r| ==> |r[k]| == QueuedColumns
  {
    var rows := QueuedRowsOf(Lines(squeueOut));
    seq(|rows|, k requires 0 <= k < |rows| => rows[k][..QueuedColumns])
  }

  /** The lines of a listing that prints each row's fields separated by `c`. */
  function RowLines(rows: seq<seq<string>>, c: char): (r: seq<string>)
    ensures |r| == |rows|
  {
    seq(|rows|, k requires 0 <= k < |rows| => Join(rows[k], c))
  }

  /** A row of blank-free fields that holds neither the field nor the line separator. */
  predicate CleanRow(row: seq<string>, c: char) {
    forall j :: 0 <= j < |row| ==> c !in row[j] && '\n' !in row[j]
  }

  lemma {:induction false} JoinAvoids(parts: seq<string>, c: char, x: char)
    requires x != c && forall j :: 0 <= j < |parts| ==> x !in parts[j]
    ensures x !in Join(parts, c)
    decreases |parts|
  {
    if |parts| > 1 {
      JoinAvoids(parts[1..], c, x);
    }
  }

  /** Every row printed by the queue listing is read back, in order, none dropped and none added. */
  lemma {:induction false} QueuedRowsRoundTrip(rows: seq<seq<string>>)
    requires forall k :: 0 <= k < |rows| ==> |rows[k]| >= QueuedColumns && CleanRow(rows[k], ',')
    ensures QueuedRowsOf(RowLines(rows, ',')) == rows
    decreases |rows|
  {
    if |rows| > 0 {
      var lines := RowLines(rows, ',');
      assert lines[0] == Join(rows[0], ',');
      SplitJoin(rows[0], ',');
      assert lines[1..] == RowLines(rows[1..], ',');
      QueuedRowsRoundTrip(rows[1..]);
      assert rows == [rows[0]] + rows[1..];
    }
  }

  /** The listing printed as text: its stripped text is the lines of its rows, and every row is shown. */
  lemma QueuedTableOfListing(squeueOut: string, rows: seq<seq<string>>)
    requires |rows| > 0
    requires forall k :: 0 <= k < |rows| ==> |rows[k]| == QueuedColumns && CleanRow(rows[k], ',')
    requires Strip(squeueOut) == Join(RowLines(rows, ','), '\n')
    ensures QueuedTable(squeueOut) == rows
  {
    var lines := RowLines(rows, ',');
    forall k | 0 <= k < |lines| ensures '\n' !in lines[k] {
      JoinAvoids(rows[k], ',', '\n');
    }
    SplitJoin(lines, '\n');
    QueuedRowsRoundTrip(rows);
    var t := QueuedTable(squeueOut);
    assert forall k :: 0 <= k < |rows| ==> t[k] == rows[k][..QueuedColumns] == rows[k];
  }

  // ---------------------------------------------------------------------------------------
  // Finished jobs

  /** The accounting listing is requested with eight columns: id, name, state, start, end, CPUs, memory, elapsed. */
  const CompletedColumns := 8

  /** The states of a finished job; queued and running jobs are not shown. */
  const FinishedStates: seq<string> := ["COMPLETED", "FAILED", "TIMEOUT", "CANCELLED", "NODE_FAIL"]

  /** The fields padded with empty strings up to `n` fields. */
  function Pad(fields: seq<string>, n: nat): (r: seq<string>)
    ensures |r| == if |fields| < n then n else |fields|
    ensures r[..|fields|] == fields
    ensures forall k :: |fields| <= k < |r| ==> r[k] == ""
    decreases n - |fields|
  {
    if |fields| < n then
      var r := Pad(fields + [""], n);
      assert r[..|fields|] == r[..|fields| + 1][..|fields|];
      r
    else fields
  }

  /**
    * A line of the accounting listing as `load_completed_jobs` keeps it: a line that is not blank,
    * split at `|`, padded to eight fields, and kept when it is not a batch step and its state,
    * in upper case, is a finished state.
    */
  function CompletedRow(line: string): (r: Option<seq<string>>)
    ensures var f := Split(line, '|');
      r.Some? <==> !AllSpace(line) && |f| >= 3 && !EndsWith(f[0], ".batch") && Upper(f[2]) in FinishedStates
    ensures r.Some? ==> (|r.value| >= CompletedColumns && |r.value| >= |Split(line, '|')|
                         && r.value[..|Split(line, '|')|] == Split(line, '|'))
  {
    if |line| == 0 || AllSpace(line) then None
    else
      var f := Split(line, '|');
      var fields := Pad(f, CompletedColumns);
      assert fields[0] == f[0];
      assert |f| < 3 ==> fields[2] == "" && Upper(fields[2]) == "";
      assert |f| >= 3 ==> fields[2] == f[2];
      if !EndsWith(fields[0], ".batch") && Upper(fields[2]) in FinishedStates then Some(fields) else None
  }

  /** The kept rows of the accounting listing, in order. */
  function CompletedRowsOf(lines: seq<string>): (r: seq<seq<string>>)
    ensures |r| <= |lines|
    ensures forall k :: 0 <= k < |r| ==> |r[k]| >= CompletedColumns
    ensures forall f :: f in r <==> exists l :: l in lines && CompletedRow(l) == Some(f)
    decreases |lines|
  {
    if |lines| == 0 then []
    else
      var rest := CompletedRowsOf(lines[1..]);
      assert forall l :: l in lines[1..] ==> l in lines;
      assert forall l :: l in lines ==> l == lines[0] || l in lines[1..];
      match CompletedRow(lines[0])
      case Some(f) => [f] + rest
      case None => rest
  }

  /** The table of finished jobs: the first eight fields of every kept row. */
  function CompletedTable(sacctOut: string): (r: seq<seq<string>>)
    ensures forall k :: 0 <= k < |r| ==> |r[k]| == CompletedColumns
    ensures |r| == |CompletedRowsOf(Lines(sacctOut))|
    ensures forall k :: 0 <= k < |r| ==> r[k] == CompletedRowsOf(Lines(sacctOut))[k][..CompletedColumns]
  {
    var rows := CompletedRowsOf(Lines(sacctOut));
    seq(|rows|, k requires 0 <= k < |rows| => rows[k][..CompletedColumns])
  }

  /** A row as the accounting listing shows it: eight clean fields, not a batch step, in a finished state. */
  predicate ShownRow(row: seq<string>) {
    |row| == CompletedColumns && CleanRow(row, '|') && !EndsWith(row[0], ".batch") && Upper(row[2]) in FinishedStates
  }

  /** The line printed for a shown row is kept as exactly that row. */
  lemma CompletedRowOfJoin(row: seq<string>)
    requires ShownRow(row)
    ensures CompletedRow(Join(row, '|')) == Some(row)
  {
    var line := Join(row, '|');
    SplitJoin(row, '|');
    assert line == row[0] + ['|'] + Join(row[1..], '|');
    assert line[|row[0]|] == '|' && !IsSpace('|');
    var padded := Pad(row, CompletedColumns);
    assert padded == padded[..|row|] == row;
  }

  /** Every shown row printed by the accounting listing is read back, in order, none dropped and none added. */
  lemma {:induction false} CompletedRowsRoundTrip(rows: seq<seq<string>>)
    requires forall k :: 0 <= k < |rows| ==> ShownRow(rows[k])
    ensures CompletedRowsOf(RowLines(rows, '|')) == rows
    decreases |rows|
  {
    if |rows| > 0 {
      var lines := RowLines(rows, '|');
      assert lines[0] == Join(rows[0], '|');
      CompletedRowOfJoin(rows[0]);
      assert lines[1..] == RowLines(rows[1..], '|');
      CompletedRowsRoundTrip(rows[1..]);
      assert rows == [rows[0]] + rows[1..];
    }
  }

  /** The accounting listing printed as text: its table is exactly the shown rows, in order. */
  lemma CompletedTableOfListing(sacctOut: string, rows: seq<seq<string>>)
    requires |rows| > 0
    requires forall k :: 0 <= k < |rows| ==> ShownRow(rows[k])
    requires Strip(sacctOut) == Join(RowLines(rows, '|'), '\n')
    ensures CompletedTable(sacctOut) == rows
  {
    var lines := RowLines(rows, '|');
    forall k | 0 <= k < |lines| ensures '\n' !in lines[k] {
      JoinAvoids(rows[k], '|', '\n');
    }
    SplitJoin(lines, '\n');
    CompletedRowsRoundTrip(rows);
    var t := CompletedTable(sacctOut);
    assert forall k :: 0 <= k < |rows| ==> t[k] == rows[k][..CompletedColumns] == rows[k];
  }

  /** A row with only id, name and state is kept, padded with empty fields, not dropped for being short. */
  lemma CompletedShortRow(id: string, name: string, state: string)
    requires '|' !in id && '|' !in name && '|' !in state
    requires !EndsWith(id, ".batch") && Upper(state) in FinishedStates
    ensures CompletedRow(id + "|" + name + "|" + state) == Some([id, name, state, "", "", "", "", ""])
  {
    var line := id + "|" + name + "|" + state;
    SplitThree(id, '|', name, state);
    assert line[|id|] == '|' && !IsSpace('|');
    var r := CompletedRow(line).value;
    assert r == [id, name, state, "", "", "", "", ""];
  }

  /** The batch step of a job is never shown, whatever its state. */
  lemma CompletedBatchStep(job: string, rest: string)
    requires '|' !in job
    ensures CompletedRow(job + ".batch" + "|" + rest) == None
  {
    var line := job + ".batch" + "|" + rest;
    assert line == (job + ".batch") + ['|'] + rest;
    SplitFirst(job + ".batch", '|', rest);
    assert '|' !in ".batch";
    var f0 := job + ".batch";
    assert f0[|f0| - |".batch"|..] == ".batch";
  }

  /** The state is compared in upper case: `completed` counts as finished. */
  lemma CompletedStateAnyCase(id: string, name: string)
    requires '|' !in id && '|' !in name && !EndsWith(id, ".batch")
    ensures CompletedRow(id + "|" + name + "|" + "completed").Some?
  {
    assert Upper("completed") == "COMPLETED";
    assert '|' !in "completed";
    CompletedShortRow(id, name, "completed");
  }

  // ---------------------------------------------------------------------------------------
  // Output and error files

  datatype Stream = Out | Err

  /** The field of `scontrol show job` that names the stream's file. */
  function StreamKey(s: Stream): string {
    match s
    case Out => "StdOut"
    case Err => "StdErr"
  }

  /** The name the scheduler gives the stream's file when the job names none. */
  function DefaultLogName(jobId: string, s: Stream): string {
    "slurm-" + jobId + (match s case Out => ".out" case Err => ".err")
  }

  /** Python's `os.path.join(dir, name)` for a relative `name`: a slash is added unless `dir` is empty or ends in one. */
  function JoinPath(dir: string, name: string): (r: string)
    ensures EndsWith(r, name)
  {
    if |dir| == 0 || dir[|dir| - 1] == '/' then
      assert (dir + name)[|dir + name| - |name|..] == name;
      dir + name
    else
      assert (dir + "/" + name)[|dir + "/" + name| - |name|..] == name;
      dir + "/" + name
  }

  /** A joined path lies in the directory and has the file name as its last component. */
  lemma JoinPathParts(dir: string, name: string)
    requires |dir| > 0 && '/' !in name
    ensures StartsWith(JoinPath(dir, name), dir)
    ensures Submission.AppName(JoinPath(dir, name)) == name
  {
    var p := JoinPath(dir, name);
    if dir[|dir| - 1] == '/' {
      var d := dir[..|dir| - 1];
      assert dir == d + "/";
      assert p == d + "/" + name;
      Submission.AppNameOfPath(d, name);
    } else {
      Submission.AppNameOfPath(dir, name);
    }
    assert p[..|dir|] == dir;
  }

  /** The stream's file named in `scontrol show job` (`StdOut=([^\s]+)`), unless the value is the key's own name. */
  function CustomPath(showJob: string, s: Stream): Option<string> {
    match KeyRun(showJob, StreamKey(s) + "=", NonSpace)
    case Some(v) => if v == StreamKey(s) then None else Some(v)
    case None => None
  }

  /** A named file is used unless the name is `(null)`; the found run is never empty. */
  predicate UsablePath(custom: Option<string>) {
    custom.Some? && custom.value != "(null)"
  }

  /**
    * `view_job_file`: the job's own file for the stream if it names one, otherwise the default
    * file name in the job's working directory; nothing when neither is known.
    */
  function LogFilePath(showJob: string, jobId: string, s: Stream): (r: Option<string>)
    ensures r.None? <==> !UsablePath(CustomPath(showJob, s)) && KeyRun(showJob, "WorkDir=", NonSpace).None?
    ensures UsablePath(CustomPath(showJob, s)) ==> r == CustomPath(showJob, s)
    ensures r.Some? && !UsablePath(CustomPath(showJob, s)) ==> EndsWith(r.value, DefaultLogName(jobId, s))
  {
    var custom := CustomPath(showJob, s);
    if UsablePath(custom) then custom
    else
      match KeyRun(showJob, "WorkDir=", NonSpace)
      case None => None
      case Some(dir) => Some(JoinPath(dir, DefaultLogName(jobId, s)))
  }

  /** A file named in the job's description is used as it is. */
  lemma LogFilePathOfCustom(pre: string, path: string, post: string, jobId: string, s: Stream)
    requires forall j :: 0 <= j < |pre| ==>
               !OccursAt(pre + (StreamKey(s) + "=") + path + post, StreamKey(s) + "=", j)
    requires |path| > 0 && AllIn(NonSpace, path) && (|post| == 0 || IsSpace(post[0]))
    requires path != StreamKey(s) && path != "(null)"
    ensures LogFilePath(pre + (StreamKey(s) + "=") + path + post, jobId, s) == Some(path)
  {
    KeyRunFound(pre, StreamKey(s) + "=", path, post, NonSpace);
  }

  /** Without a usable file name, the file is the default name inside the working directory. */
  lemma LogFileInWorkDir(showJob: string, jobId: string, s: Stream, dir: string)
    requires '/' !in jobId
    requires !UsablePath(CustomPath(showJob, s))
    requires KeyRun(showJob, "WorkDir=", NonSpace) == Some(dir)
    ensures LogFilePath(showJob, jobId, s).Some?
    ensures StartsWith(LogFilePath(showJob, jobId, s).value, dir)
    ensures Submission.AppName(LogFilePath(showJob, jobId, s).value) == DefaultLogName(jobId, s)
  {
    var name := DefaultLogName(jobId, s);
    assert '/' !in "slurm-" && '/' !in ".out" && '/' !in ".err";
    assert '/' !in name;
    JoinPathParts(dir, name);
  }

  // ---------------------------------------------------------------------------------------
  // Cancelling a job

  datatype CancelOutcome = Cancelled(message: string) | CancelFailed(message: string)

  /** `cancel_job`: the message after `scancel` exits, from its exit status and error output. */
  function CancelOutcomeOf(jobId: string, exitCode: int, stderr: string): (r: CancelOutcome)
    ensures r.Cancelled? <==> exitCode == 0
    ensures r.CancelFailed? ==> EndsWith(r.message, Submission.ErrorMessage(stderr))
  {
    if exitCode == 0 then Cancelled("Job " + jobId + " has been cancelled.")
    else
      var m := "Error cancelling job " + jobId + ": " + Submission.ErrorMessage(stderr);
      assert m[|m| - |Submission.ErrorMessage(stderr)|..] == Submission.ErrorMessage(stderr);
      CancelFailed(m)
  }

  /** A failed cancellation shows the scheduler's one-line error, and `Unknown error` when there is none. */
  lemma CancelFailureMessage(jobId: string, exitCode: int, line: string)
    requires exitCode != 0
    requires |line| > 0 && !IsSpace(line[0]) && !IsSpace(line[|line| - 1])
    ensures CancelOutcomeOf(jobId, exitCode, line + "\n") == CancelFailed("Error cancelling job " + jobId + ": " + line)
    ensures CancelOutcomeOf(jobId, exitCode, "") == CancelFailed("Error cancelling job " + jobId + ": Unknown error")
  {
    Submission.ErrorMessageOfLine(line);
  }
}
