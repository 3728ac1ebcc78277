/**
  * What a partition icon of the main viewer hands to the scheduler: the `sbatch` argument
  * vector and the reading of its reply, the message of a failed command, the `srun` argument
  * vector of a launched desktop application, the interactive terminal command, and the
  * classification of desktop `Exec` entries into launchable shell commands.
  */
module Submission {
  import opened Wrappers
  import opened Text
  import opened Patterns
  import InteractiveDialog

  // ---------------------------------------------------------------------------------------
  // Batch submission

  /** The resources picked in the batch dialog, and the script to run. */
  datatype BatchRequest = BatchRequest(partition: string, nodes: int, project: string, cpus: int,
                                       memoryGb: int, timeLimit: string, script: string)

  /** `submit_batch_job_with_params`: each option a flag followed by its value, the script last. */
  function BatchArgv(q: BatchRequest): (r: seq<string>)
    ensures |r| == 14 && r[0] == "sbatch" && r[|r| - 1] == q.script
  {
    ["sbatch", "-p", q.partition, "-N", IntToString(q.nodes), "-A", q.project,
     "--cpus-per-task", IntToString(q.cpus), "--mem", IntToString(q.memoryGb) + "G",
     "--time", q.timeLimit, q.script]
  }

  /** `submit_batch_job` and `submit_batch_job_direct`: only the partition is chosen. */
  function DirectBatchArgv(partition: string, script: string): (r: seq<string>)
    ensures |r| == 4 && r[0] == "sbatch" && r[|r| - 1] == script
  {
    ["sbatch", "-p", partition, script]
  }

  /** Flag/value pairs read from the front; a flag given again overrides its earlier value. */
  function Options(args: seq<string>): map<string, string>
    decreases |args|
  {
    if |args| < 2 then map[]
    else
      var later := Options(args[2..]);
      if args[0] in later then later else later[args[0] := args[1]]
  }

  /** A memory size written `<n>G`. */
  function GigabytesArg(v: string): Option<int> {
    if |v| > 0 && v[|v| - 1] == 'G' then ParseInt(v[..|v| - 1]) else None
  }

  /** How the scheduler reads a batch argument vector: the options before the script, then the script. */
  function ReadBatch(argv: seq<string>): Option<BatchRequest> {
    if |argv| < 2 || argv[0] != "sbatch" then None
    else
      var o := Options(argv[1..|argv| - 1]);
      if "-p" in o && "-N" in o && "-A" in o && "--cpus-per-task" in o && "--mem" in o && "--time" in o then
        match (ParseInt(o["-N"]), ParseInt(o["--cpus-per-task"]), GigabytesArg(o["--mem"]))
        case (Some(n), Some(c), Some(m)) => Some(BatchRequest(o["-p"], n, o["-A"], c, m, o["--time"], argv[|argv| - 1]))
        case _ => None
      else None
  }

  lemma OptionsCons(f: string, v: string, rest: seq<string>)
    ensures Options([f, v] + rest) == if f in Options(rest) then Options(rest) else Options(rest)[f := v]
  {
    assert ([f, v] + rest)[2..] == rest;
  }

  /** The options of a batch argument vector, one per flag. */
  lemma BatchOptions(q: BatchRequest)
    ensures var argv := BatchArgv(q); var o := Options(argv[1..|argv| - 1]);
      && o.Keys == {"-p", "-N", "-A", "--cpus-per-task", "--mem", "--time"}
      && o["-p"] == q.partition && o["-N"] == IntToString(q.nodes) && o["-A"] == q.project
      && o["--cpus-per-task"] == IntToString(q.cpus) && o["--mem"] == IntToString(q.memoryGb) + "G"
      && o["--time"] == q.timeLimit
  {
    var argv := BatchArgv(q);
    var n, c, m := IntToString(q.nodes), IntToString(q.cpus), IntToString(q.memoryGb) + "G";
    var t6: seq<string> := ["--time", q.timeLimit] + [];
    var t5 := ["--mem", m] + t6;
    var t4 := ["--cpus-per-task", c] + t5;
    var t3 := ["-A", q.project] + t4;
    var t2 := ["-N", n] + t3;
    var t1 := ["-p", q.partition] + t2;
    assert argv[1..|argv| - 1] == t1;
    OptionsCons("--time", q.timeLimit, []);
    OptionsCons("--mem", m, t6);
    OptionsCons("--cpus-per-task", c, t5);
    OptionsCons("-A", q.project, t4);
    OptionsCons("-N", n, t3);
    OptionsCons("-p", q.partition, t2);
  }

  /** Every choice of the dialog reaches the scheduler unchanged: reading the arguments back gives the request. */
  lemma BatchArgvRead(q: BatchRequest)
    ensures ReadBatch(BatchArgv(q)) == Some(q)
  {
    var argv := BatchArgv(q);
    BatchOptions(q);
    var o := Options(argv[1..|argv| - 1]);
    ParseIntOfString(q.nodes);
    ParseIntOfString(q.cpus);
    ParseIntOfString(q.memoryGb);
    var m := IntToString(q.memoryGb) + "G";
    assert m[..|m| - 1] == IntToString(q.memoryGb);
    assert "-p" in o.Keys && "-N" in o.Keys && "-A" in o.Keys;
    assert "--cpus-per-task" in o.Keys && "--mem" in o.Keys && "--time" in o.Keys;
    assert ParseInt(o["-N"]) == Some(q.nodes) && ParseInt(o["--cpus-per-task"]) == Some(q.cpus);
    assert GigabytesArg(o["--mem"]) == Some(q.memoryGb);
  }

  /** The plain submission passes the partition as its only option. */
  lemma DirectBatchArgvRead(partition: string, script: string)
    ensures var argv := DirectBatchArgv(partition, script);
      Options(argv[1..|argv| - 1]) == map["-p" := partition] && argv[|argv| - 1] == script
  {
    var argv := DirectBatchArgv(partition, script);
    assert argv[1..|argv| - 1] == ["-p", partition] + [];
    OptionsCons("-p", partition, []);
  }

  // ---------------------------------------------------------------------------------------
  // The scheduler's reply

  /** The text shown for a failed command: its error output stripped, or `Unknown error` when it wrote none. */
  function ErrorMessage(stderr: string): (r: string)
    ensures |stderr| == 0 ==> r == "Unknown error"
    ensures |stderr| > 0 ==> |r| <= |stderr| && (|r| == 0 <==> AllSpace(stderr))
  {
    if |stderr| > 0 then StripEmpty(stderr); Strip(stderr) else "Unknown error"
  }

  /** A one-line error is shown as written, whether or not it ends in a newline. */
  lemma ErrorMessageOfLine(m: string)
    requires |m| > 0 && !IsSpace(m[0]) && !IsSpace(m[|m| - 1])
    ensures ErrorMessage(m) == m && ErrorMessage(m + "\n") == m
  {
    StripNoop(m);
    var s := m + "\n";
    assert s[0] == m[0] && s[|m| - 1] == m[|m| - 1] && IsSpace(s[|m|]);
    RunEndIs(s, 0, IsSpace, 0);
    RunStartIs(s, 0, |s|, IsSpace, |m|);
    assert s[0..|m|] == m;
  }

  /** A message between blanks is shown without them, however many lines they span. */
  lemma ErrorMessageOfPadded(pre: string, m: string, post: string)
    requires AllSpace(pre) && AllSpace(post)
    requires |m| > 0 && !IsSpace(m[0]) && !IsSpace(m[|m| - 1])
    ensures ErrorMessage(pre + m + post) == m
  {
    var s := pre + m + post;
    assert s[|pre|] == m[0] && s[|pre| + |m| - 1] == m[|m| - 1];
    assert s[..|pre|] == pre && s[|pre|..|pre| + |m|] == m && s[|pre| + |m|..] == post;
    RunEndIs(s, 0, IsSpace, |pre|);
    RunStartIs(s, |pre|, |s|, IsSpace, |pre| + |m|);
  }

  /** An error output of blanks only is shown as an empty message, not as `Unknown error`. */
  lemma ErrorMessageOfBlanks(stderr: string)
    requires |stderr| > 0 && AllSpace(stderr)
    ensures ErrorMessage(stderr) == ""
  {
  }

  /** The phrase that precedes the job id in the reply of `sbatch`. */
  const ConfirmationKey := "Submitted batch job "

  datatype SubmitOutcome =
    | Submitted(jobId: string)
    | SubmittedWithoutId(output: string)
    | SubmitFailed(message: string)

  /**
    * The outcome of a submission from the exit status and the two output streams: on success the
    * digits after `Submitted batch job ` are the job id (`re.search(r"Submitted batch job (\d+)")`);
    * without them the job is reported submitted with an unknown id; a failure shows the error text.
    */
  function SubmitOutcomeOf(exitCode: int, stdout: string, stderr: string): (r: SubmitOutcome)
    ensures r.SubmitFailed? <==> exitCode != 0
    ensures r.SubmitFailed? ==> r.message == ErrorMessage(stderr)
    ensures r.Submitted? ==> |r.jobId| > 0 && AllDigits(r.jobId)
    ensures r.SubmittedWithoutId? ==> r.output == stdout
  {
    if exitCode == 0 then
      match KeyRun(stdout, ConfirmationKey, Digit)
      case Some(id) => AllInDigit(id); Submitted(id)
      case None => SubmittedWithoutId(stdout)
    else SubmitFailed(ErrorMessage(stderr))
  }

  /**
    * The usual reply `Submitted batch job <n>` gives the id `n`, whatever text without the phrase
    * comes before it and whatever non-digit text follows.
    */
  lemma SubmittedJobIdRead(pre: string, n: nat, post: string, stderr: string)
    requires forall j :: 0 <= j < |pre| ==> !OccursAt(pre + ConfirmationKey + NatToString(n) + post, ConfirmationKey, j)
    requires |post| == 0 || !IsDigit(post[0])
    ensures SubmitOutcomeOf(0, pre + ConfirmationKey + NatToString(n) + post, stderr) == Submitted(NatToString(n))
    ensures ParseInt(NatToString(n)) == Some(n)
  {
    NumeralDigits(n);
    KeyRunFound(pre, ConfirmationKey, NatToString(n), post, Digit);
    ParseIntOfString(n);
  }

  /** The confirmation phrase starts at `i` and a digit follows it: where `re.search` can match. */
  predicate ConfirmedAt(s: string, i: nat) {
    OccursAt(s, ConfirmationKey, i) && i + |ConfirmationKey| < |s| && IsDigit(s[i + |ConfirmationKey|])
  }

  /** `id` is the whole digit run after the first phrase that a digit follows, which starts at `i`. */
  predicate FirstIdAt(s: string, i: nat, id: string) {
    && i <= |s| && ConfirmedAt(s, i)
    && (forall j :: 0 <= j < i ==> !ConfirmedAt(s, j))
    && OccursAt(s, ConfirmationKey + id, i)
    && (i + |ConfirmationKey + id| == |s| || !IsDigit(s[i + |ConfirmationKey + id|]))
  }

  /**
    * A successful reply carries an id exactly when the phrase is followed by a digit somewhere; the
    * id is then the whole digit run after the first such occurrence.
    */
  lemma SubmittedIdInReply(stdout: string, stderr: string)
    ensures var r := SubmitOutcomeOf(0, stdout, stderr);
      r.Submitted? <==> exists i :: 0 <= i <= |stdout| && ConfirmedAt(stdout, i)
    ensures var r := SubmitOutcomeOf(0, stdout, stderr);
      r.Submitted? ==> exists i :: FirstIdAt(stdout, i, r.jobId)
  {
    ConfirmedSomewhere(stdout);
    if KeyRun(stdout, ConfirmationKey, Digit).Some? {
      FirstConfirmed(stdout);
    }
  }

  /** The search for the phrase and a digit succeeds exactly when they occur together. */
  lemma ConfirmedSomewhere(s: string)
    ensures KeyRun(s, ConfirmationKey, Digit).Some? <==> exists i :: 0 <= i <= |s| && ConfirmedAt(s, i)
  {
    KeyRunFoundIff(s, ConfirmationKey, Digit);
    if KeyRun(s, ConfirmationKey, Digit).Some? {
      var i :| 0 <= i <= |s| && OccursAt(s, ConfirmationKey, i) && i + |ConfirmationKey| < |s| &&
        In(Digit, s[i + |ConfirmationKey|]);
      assert ConfirmedAt(s, i);
    }
    if exists i :: 0 <= i <= |s| && ConfirmedAt(s, i) {
      var i :| 0 <= i <= |s| && ConfirmedAt(s, i);
      assert In(Digit, s[i + |ConfirmationKey|]);
    }
  }

  /** A successful search captures the digits after the first phrase that a digit follows. */
  lemma FirstConfirmed(s: string)
    requires KeyRun(s, ConfirmationKey, Digit).Some?
    ensures exists i :: FirstIdAt(s, i, KeyRun(s, ConfirmationKey, Digit).value)
  {
    var pat := [Lit(ConfirmationKey), Run(Digit, true)];
    var i := SearchFrom(s, pat, 0).value.at;
    var v := KeyRun(s, ConfirmationKey, Digit).value;
    MatchKeyRun(s, ConfirmationKey, Digit, i);
    assert MatchAt(s, pat, i) == Some([v]);
    NoEarlierConfirmation(s, i);
    CapturedAt(s, i, v);
    assert FirstIdAt(s, i, v);
  }

  /** No phrase followed by a digit starts before the position the search stops at. */
  lemma NoEarlierConfirmation(s: string, i: nat)
    requires forall j :: 0 <= j < i ==> MatchAt(s, [Lit(ConfirmationKey), Run(Digit, true)], j).None?
    ensures forall j :: 0 <= j < i ==> !ConfirmedAt(s, j)
  {
    forall j | 0 <= j < i ensures !ConfirmedAt(s, j) {
      MatchKeyRun(s, ConfirmationKey, Digit, j);
    }
  }

  /** Where the phrase and a digit run match, the run captured is maximal and follows the phrase. */
  lemma CapturedAt(s: string, i: nat, v: string)
    requires MatchAt(s, [Lit(ConfirmationKey), Run(Digit, true)], i) == Some([v])
    ensures && i <= |s| && ConfirmedAt(s, i) && OccursAt(s, ConfirmationKey + v, i)
      && (i + |ConfirmationKey + v| == |s| || !IsDigit(s[i + |ConfirmationKey + v|]))
  {
    MatchKeyRun(s, ConfirmationKey, Digit, i);
    var j := i + |ConfirmationKey|;
    var k := RunEnd(s, j, ClassPred(Digit));
    assert s[i..k] == ConfirmationKey + s[j..k];
  }

  /** A successful run whose reply lacks the confirmation phrase is reported without an id. */
  lemma SubmittedWithoutConfirmation(stdout: string, stderr: string)
    requires !Contains(stdout, ConfirmationKey)
    ensures SubmitOutcomeOf(0, stdout, stderr) == SubmittedWithoutId(stdout)
  {
    KeyRunFoundIff(stdout, ConfirmationKey, Digit);
  }

  // ---------------------------------------------------------------------------------------
  // Launching a desktop application

  /**
    * `re.sub(r'%[a-zA-Z]', '', s)`: the desktop field codes (`%u`, `%f`, ...) removed in one
    * left-to-right pass; a `%` not followed by a letter stays.
    */
  function RemoveFieldCodes(s: string): (r: string)
    ensures |r| <= |s|
    decreases |s|
  {
    if |s| == 0 then ""
    else if |s| >= 2 && s[0] == '%' && IsAsciiLetter(s[1]) then RemoveFieldCodes(s[2..])
    else [s[0]] + RemoveFieldCodes(s[1..])
  }

  /** A command without `%` has nothing removed. */
  lemma {:induction false} NoFieldCodes(s: string)
    requires '%' !in s
    ensures RemoveFieldCodes(s) == s
    decreases |s|
  {
    if |s| > 0 {
      NoFieldCodes(s[1..]);
      assert s == [s[0]] + s[1..];
    }
  }

  /** The first field code is cut out and the text before it is kept. */
  lemma {:induction false} FieldCodeRemoved(a: string, x: char, b: string)
    requires '%' !in a && IsAsciiLetter(x)
    ensures RemoveFieldCodes(a + ['%', x] + b) == a + RemoveFieldCodes(b)
    decreases |a|
  {
    var s := a + ['%', x] + b;
    if |a| == 0 {
      assert s[2..] == b;
    } else {
      assert s[0] == a[0] && s[1..] == a[1..] + ['%', x] + b;
      FieldCodeRemoved(a[1..], x, b);
      assert a == [a[0]] + a[1..];
    }
  }

  /** One pass is not idempotent: removing a code can bring two characters together into a new one. */
  lemma FieldCodesOnePass()
    ensures RemoveFieldCodes("%%uu") == "%u" && RemoveFieldCodes("%u") == ""
  {
    assert "%%uu"[1..] == "%uu" && "%uu"[2..] == "u" && "u"[1..] == "";
    assert "%u"[2..] == "";
  }

  /** `launch_application`: the command with its field codes removed and surrounding blanks stripped. */
  function LaunchCommand(exec: string): string {
    Strip(RemoveFieldCodes(exec))
  }

  /** `command.split('/')[-1] if '/' in command else command`: the text after the last slash. */
  function AppName(command: string): (r: string)
    ensures '/' !in r && EndsWith(command, r)
    ensures '/' in command ==> |r| < |command| && command[|command| - |r| - 1] == '/'
  {
    if '/' in command then
      var parts := Split(command, '/');
      SplitLast(command, '/');
      parts[|parts| - 1]
    else command
  }

  /** The name of a program given by its path is the last path component. */
  lemma AppNameOfPath(dir: string, name: string)
    requires '/' !in name
    ensures AppName(dir + "/" + name) == name
  {
    var s := dir + "/" + name;
    assert s == dir + ['/'] + name;
    assert s[|dir|] == '/';
    SplitConcat(dir, name, '/');
    SplitNoSeparator(name, '/');
  }

  /** The options every launched application is given, before the optional GPU request. */
  function LaunchOptions(partition: string, timeLimit: string, cpus: int, memoryGb: int, jobName: string): (r: seq<string>)
    ensures |r| == 10 && r[0] == "srun" && r[7] == "--job-name=" + jobName
  {
    ["srun", "--partition=" + partition, "--time=" + timeLimit, "--cpus-per-task=" + IntToString(cpus),
     "--mem=" + IntToString(memoryGb) + "G", "--nodes=1", "--account=staff", "--job-name=" + jobName,
     "--x11", "--pty"]
  }

  /** The job of a launched application is named after the program and the launch time `stamp`. */
  function JobName(command: string, stamp: string): string {
    AppName(command) + "_" + stamp
  }

  /**
    * `launch_application`: the `srun` arguments, the GPU request when one is made, then the words
    * of the command. The job is named after the program and the launch time `stamp`.
    */
  function LaunchArgv(partition: string, timeLimit: string, cpus: int, memoryGb: int, gpus: Option<int>,
                      stamp: string, exec: string): (r: seq<string>)
    ensures var program := Words(LaunchCommand(exec));
      && |r| == 10 + (if InteractiveDialog.GpusRequested(gpus) then 1 else 0) + |program|
      && r[|r| - |program|..] == program
      && r[..10] == LaunchOptions(partition, timeLimit, cpus, memoryGb, JobName(LaunchCommand(exec), stamp))
      && (InteractiveDialog.GpusRequested(gpus) ==> r[10] == "--gres=gpu:" + IntToString(gpus.value))
      && r[7] == "--job-name=" + JobName(LaunchCommand(exec), stamp)
  {
    var command := LaunchCommand(exec);
    var head := LaunchOptions(partition, timeLimit, cpus, memoryGb, JobName(command, stamp));
    var gres := if InteractiveDialog.GpusRequested(gpus) then ["--gres=gpu:" + IntToString(gpus.value)] else [];
    var program := Words(command);
    assert (head + gres + program)[|head + gres|..] == program;
    assert (head + gres + program)[..10] == head;
    assert (head + gres + program)[7] == head[7];
    head + gres + program
  }

  lemma JoinThree(a: string, b: string, c: string)
    ensures Join([a, b, c], ' ') == a + " " + b + " " + c
  {
    assert [a, b, c][1..] == [b, c] && [b, c][1..] == [c];
    assert Join([b, c], ' ') == b + [' '] + c;
    assert Join([a, b, c], ' ') == a + [' '] + (b + [' '] + c);
  }

  /** Three words joined by single blanks split back into those words. */
  lemma WordsThree(a: string, b: string, c: string)
    requires IsWord(a) && IsWord(b) && IsWord(c)
    ensures Words(a + " " + b + " " + c) == [a, b, c]
  {
    JoinThree(a, b, c);
    WordsJoin([a, b, c]);
  }

  lemma ShellLead(lead: string, path: string)
    requires lead == "bash -i "
    ensures lead + path == "bash" + " " + "-i" + " " + path
    ensures IsWord("bash") && IsWord("-i") && '%' !in lead && |lead| > 0 && !IsSpace(lead[0])
  {
  }

  /** `bash -i <path>` has no field codes and no surrounding blanks, and splits into its three words. */
  lemma ScriptCommandWords(lead: string, path: string)
    requires lead == "bash -i " && IsWord(path) && '%' !in path
    ensures LaunchCommand(lead + path) == lead + path
    ensures Words(lead + path) == ["bash", "-i", path]
  {
    var exec := lead + path;
    ShellLead(lead, path);
    NoFieldCodes(exec);
    assert exec[0] == lead[0] && exec[|exec| - 1] == path[|path| - 1];
    StripNoop(exec);
    WordsThree("bash", "-i", path);
  }

  /** The launch arguments end in the program's words, and the job is named after the program. */
  lemma LaunchArgvOf(partition: string, timeLimit: string, cpus: int, memoryGb: int, gpus: Option<int>,
                     stamp: string, exec: string, program: seq<string>, app: string)
    requires Words(LaunchCommand(exec)) == program && AppName(LaunchCommand(exec)) == app
    ensures var r := LaunchArgv(partition, timeLimit, cpus, memoryGb, gpus, stamp, exec);
      r[|r| - |program|..] == program && r[7] == "--job-name=" + (app + "_" + stamp)
  {
  }

  /** The program of `bash -i <dir>/<name>` is named after the script file. */
  lemma ScriptAppName(lead: string, dir: string, name: string)
    requires '/' !in name
    ensures AppName(lead + (dir + "/" + name)) == name
  {
    assert lead + (dir + "/" + name) == (lead + dir) + "/" + name;
    AppNameOfPath(lead + dir, name);
  }

  /**
    * A shell script started as `bash -i <dir>/<name>` runs exactly those three words, in a job
    * named after the script file.
    */
  lemma LaunchOfScript(partition: string, timeLimit: string, cpus: int, memoryGb: int, gpus: Option<int>,
                       stamp: string, dir: string, name: string)
    requires IsWord(dir + "/" + name) && '%' !in dir + "/" + name && '/' !in name
    ensures var r := LaunchArgv(partition, timeLimit, cpus, memoryGb, gpus, stamp, "bash -i " + (dir + "/" + name));
      && r[|r| - 3..] == ["bash", "-i", dir + "/" + name]
      && r[7] == "--job-name=" + (name + "_" + stamp)
  {
    var path := dir + "/" + name;
    var exec := "bash -i " + path;
    ScriptCommandWords("bash -i ", path);
    ScriptAppName("bash -i ", dir, name);
    LaunchArgvOf(partition, timeLimit, cpus, memoryGb, gpus, stamp, exec, ["bash", "-i", path], name);
  }

  // ---------------------------------------------------------------------------------------
  // The interactive terminal of the main viewer

  /** `start_interactive_job` of a partition icon: account `staff`, the job named `RED_Interactive_<partition>`. */
  function ViewerInteractiveCommand(partition: string, cpus: int, memoryGb: int, timeLimit: string,
                                    gpus: Option<int>): string
  {
    InteractiveDialog.SrunCommand(partition, "staff", cpus, memoryGb, timeLimit, "RED_Interactive_" + partition, gpus)
  }

  /** The shell sees the account `staff`, the job name, and the GPU request only when one is made. */
  lemma ViewerInteractiveCommandWords(partition: string, cpus: int, memoryGb: int, timeLimit: string,
                                      gpus: Option<int>)
    requires ' ' !in partition && ' ' !in timeLimit
    ensures Split(ViewerInteractiveCommand(partition, cpus, memoryGb, timeLimit, gpus), ' ')
         == InteractiveDialog.SrunArgs(partition, "staff", cpus, memoryGb, timeLimit, "RED_Interactive_" + partition, gpus)
  {
    assert ' ' !in "staff" && ' ' !in "RED_Interactive_" + partition;
    InteractiveDialog.SrunCommandWords(partition, "staff", cpus, memoryGb, timeLimit, "RED_Interactive_" + partition, gpus);
  }

  /** The terminal started for the command: it runs the command, then waits for Enter. */
  function TerminalArgv(partition: string, command: string): seq<string> {
    ["mate-terminal", "--title", "Interactive Job - " + partition, "-e",
     "bash -c '" + command + "; echo \"Press Enter to close\"; read'"]
  }

  /**
    * A command without single quotes stays inside the single-quoted script: splitting the
    * terminal's script at its quotes gives back the command with the waiting step after it.
    */
  lemma TerminalScriptQuoted(partition: string, command: string)
    requires '\'' !in command
    ensures Split(TerminalArgv(partition, command)[4], '\'') ==
              ["bash -c ", command + "; echo \"Press Enter to close\"; read", ""]
  {
    var tail := "; echo \"Press Enter to close\"; read";
    var script := TerminalArgv(partition, command)[4];
    assert script == "bash -c " + ['\''] + (command + tail) + ['\''] + "";
    assert '\'' !in "bash -c " && '\'' !in tail;
    SplitThree("bash -c ", '\'', command + tail, "");
  }

  // ---------------------------------------------------------------------------------------
  // Desktop entries that can be launched

  const ShellPrefix := "bash -i "
  const TerminalPrefix := "mate-terminal -e "
  const ScriptDirectory := "/N/soft/rhel8/red/bin/"

  /**
    * The command a desktop `Exec` entry is launched with, if any: an interactive bash command as
    * it is; a terminal entry `mate-terminal -e "<c>"` as its quoted command, when that is an
    * interactive bash command; a shell script of the cluster's bin directory run through
    * `bash -i`; nothing for anything else.
    */
  function ClassifyExec(exec: string): (r: Option<string>)
    ensures r.Some? ==> Contains(r.value, ShellPrefix)
    ensures StartsWith(exec, ShellPrefix) ==> r == Some(exec)
    ensures r.Some? && !StartsWith(exec, ShellPrefix) && !StartsWith(exec, TerminalPrefix) ==>
              StartsWith(exec, ScriptDirectory) && EndsWith(exec, ".sh") && r.value == ShellPrefix + exec
    ensures !StartsWith(exec, ShellPrefix) && !StartsWith(exec, TerminalPrefix) && !StartsWith(exec, ScriptDirectory) ==> r.None?
    ensures StartsWith(exec, TerminalPrefix) && MateCommandValue(exec).None? ==> r.None?
    ensures StartsWith(exec, TerminalPrefix) && MateCommandValue(exec).Some? ==>
              r == if Contains(MateCommandValue(exec).value, ShellPrefix) then MateCommandValue(exec) else None
  {
    if StartsWith(exec, ShellPrefix) then
      assert OccursAt(exec, ShellPrefix, 0);
      assert exec[0] == 'b';
      Some(exec)
    else if StartsWith(exec, TerminalPrefix) then
      match MateCommandValue(exec)
      case Some(c) => if Contains(c, ShellPrefix) then Some(c) else None
      case None => None
    else if StartsWith(exec, ScriptDirectory) && EndsWith(exec, ".sh") then
      assert OccursAt(ShellPrefix + exec, ShellPrefix, 0);
      Some(ShellPrefix + exec)
    else None
  }

  /** An entry starting `mate-terminal -e ` is launched with its quoted command, if that is a bash command. */
  lemma ClassifyTerminal(exec: string, c: string)
    requires StartsWith(exec, TerminalPrefix) && MateCommandValue(exec) == Some(c) && Contains(c, ShellPrefix)
    ensures ClassifyExec(exec) == Some(c)
  {
    TerminalIsNotShell(exec);
  }

  lemma TerminalIsNotShell(exec: string)
    requires StartsWith(exec, TerminalPrefix)
    ensures !StartsWith(exec, ShellPrefix)
  {
    assert exec[0] == TerminalPrefix[0] == 'm';
  }

  /** A terminal entry is launched with the bash command between its quotes. */
  lemma ClassifyTerminalEntry(sp: string, c: string, post: string)
    requires |sp| > 0 && sp[0] == ' ' && AllSpace(sp) && |c| > 0 && '"' !in c
    requires Contains(c, ShellPrefix)
    ensures ClassifyExec("mate-terminal -e" + sp + "\"" + c + "\"" + post) == Some(c)
  {
    var exec := "mate-terminal -e" + sp + "\"" + c + "\"" + post;
    TerminalPrefixOf(exec, sp, c, post);
    MateCommandFound(sp, c, post);
    ClassifyTerminal(exec, c);
  }

  lemma TerminalPrefixOf(exec: string, sp: string, c: string, post: string)
    requires |sp| > 0 && sp[0] == ' ' && exec == "mate-terminal -e" + sp + "\"" + c + "\"" + post
    ensures StartsWith(exec, TerminalPrefix)
  {
    assert exec == TerminalPrefix + (sp[1..] + "\"" + c + "\"" + post);
  }

  /** A script of the cluster's bin directory is run through an interactive bash. */
  lemma ClassifyScript(name: string)
    ensures ClassifyExec(ScriptDirectory + name + ".sh") == Some(ShellPrefix + ScriptDirectory + name + ".sh")
  {
    var exec := ScriptDirectory + name + ".sh";
    assert exec[..|ScriptDirectory|] == ScriptDirectory;
    assert exec[|exec| - 3..] == ".sh";
    assert exec[0] == '/';
    assert !StartsWith(exec, ShellPrefix) by { assert ShellPrefix[0] == 'b'; }
    assert !StartsWith(exec, TerminalPrefix) by { assert TerminalPrefix[0] == 'm'; }
    assert ShellPrefix + exec == ShellPrefix + ScriptDirectory + name + ".sh";
  }
}
