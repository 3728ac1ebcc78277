# slurm-desktop text layer in Dafny

slurm-desktop is a set of PyQt desktop tools for a SLURM cluster:
- a partition viewer with an icon per partition;
- job dialogs and job submission;
- job history and a live log viewer;
- a usage summary;
- a reservation viewer;
- a stand-alone partition viewer;
- a reader for the ThinLinc desktop menu.

Every one of these tools works the same way. It runs a SLURM command (`sinfo`, `squeue`, `sacct`, `sacctmgr`, `scontrol`, `sbatch`, `scancel`, `srun`) and turns its text output into values: limits, rows, records, flags and argument vectors. This project models that text-to-value layer as pure Dafny functions over strings and proves what the values mean.

**Shared modules**
- `Wrappers`: `Option`.
- `Text`: Python's `strip`, `split`, `join`, `rstrip('*')`, `upper`/`lower`, `int()` and string ordering, each stated once.
- `Lists`: a stable insertion sort standing for Python's `list.sort`, and `filter`.
- `Patterns`: the few regular expressions the program uses, written as a small pattern language with leftmost search.

**One module per component of the program**
- `PartitionDialog`: the time/resource dialog of the partition viewer, and the same code in its batch dialog.
- `InteractiveDialog`: the interactive-job dialog of `interactive_job.py`.
- `Submission`: the `sbatch`, `srun` and terminal argument vectors, the submission outcome, and the classification of menu entries.
- `JobHistory`: the queued and finished job tables, the log file path, and job cancellation.
- `FileTail`: the `tail -f` loop of the log viewer.
- `PartitionGrid`: the main window's icon grid and job badges.
- `SimpleViewer`: `simple_slurm_viewer.py`.
- `UsageStats`: the 30-day usage summary.
- `Reservations`: `slurm_reservations.py`.
- `MenuParser`: the line parsers of `menu_parser.py`.

**What is a parameter**
- What a command prints is a parameter of the functions. So is its exit status wherever the program looks at it: an explicit `returncode` test, or `check=True`, which raises on a non-zero exit. The members named `...OfRun` take it for the `check=True` queries of the interactive launcher.
- Python's `strptime` is a parameter `toTime`.
- `scontrol show node` is a parameter `showNode`.
- The current time is a parameter `now`.

Every partial Python step that can raise is a `None` or a named fallback, exactly where the program's `except` clauses put it. For the `check=True` queries of the interactive launcher, a command that cannot be started is treated like one that exits with a non-zero status.

## Model

| member | source | states |
|---|---|---|
| PartitionDialog.MaxWalltimeHours | slurm_partition_viewer.py:341-369 | `infinite` or an empty limit gives 72 hours; every result is at least one hour |
| PartitionDialog.MaxWalltimeHoursUnreadable | slurm_partition_viewer.py:355-369 | a limit whose `int()` or two-way unpacking raises gives 24 hours: a dash count other than one, or a day or hour field that is not an integer; without a dash, an hour field that is not an integer |
| PartitionDialog.WalltimeHoursBadHour | slurm_partition_viewer.py:361-369 | an undashed `H:rest` whose `H` is not an integer (such as `ab:00:00`) gives 24 hours |
| PartitionDialog.WalltimeHoursTwoDashes | slurm_partition_viewer.py:355-369 | a limit with two dashes (such as `1-2-3`) gives 24 hours, because the unpacking raises |
| PartitionDialog.WalltimeHoursPlain | slurm_partition_viewer.py:357-361 | a limit `H:rest` without a dash is read as `max(1, H)` hours; the minutes and seconds are discarded |
| PartitionDialog.WalltimeHoursDays | slurm_partition_viewer.py:351-356 | a limit `D-H:rest` is read as `max(1, 24 D + H)` hours |
| PartitionDialog.FirstNode | slurm_partition_viewer.py:389-391 | the node name queried is the first comma-separated entry of the stripped `sinfo %N` output, so it contains no comma |
| PartitionDialog.MaxCpus | slurm_partition_viewer.py:371-408 | the CPUs offered are at least one; with no integer from `sinfo %c`, the result is the default 32 when there is no first node to query, and also when the first node's record has no `CPUTot=<digits>` |
| PartitionDialog.MaxCpusFromSinfo | slurm_partition_viewer.py:379-383 | an integer `n` printed by `sinfo %c` gives `max(1, n)`, whatever the node record says |
| PartitionDialog.MaxCpusFromNode | slurm_partition_viewer.py:384-405 | otherwise the first `CPUTot=<n>` of the first node's record gives `max(1, n)` |
| PartitionDialog.CeilGb | slurm_partition_viewer.py:438 | `(mb + 1023) // 1024` is the least number of whole GB that hold `mb` MB |
| PartitionDialog.NodeMemoryGb | slurm_partition_viewer.py:426-455 | a memory figure read from a node record is at least 1 GB |
| PartitionDialog.SinfoMemoryGb | slurm_partition_viewer.py:458-473 | a size read from `sinfo %m` is at least 1 GB; blank output gives no size |
| PartitionDialog.MaxMemoryGbAsWritten | slurm_partition_viewer.py:413-476 | as written: with an empty first node name the result is the 128 GB default, never the `sinfo %m` size |
| PartitionDialog.MaxMemoryGb | slurm_partition_viewer.py:413-476 | as intended: the node record first, then `sinfo %m`, then 128; always at least 1 |
| PartitionDialog.MaxMemoryGbDiffers | slurm_partition_viewer.py:413-476 | the two versions differ exactly when the node list is empty and `sinfo %m` gives a size other than 128 |
| PartitionDialog.MaxMemoryGbUsesSinfo | slurm_partition_viewer.py:458-473 | with no node name, the corrected version returns the `sinfo %m` size and the as-written one returns 128 |
| PartitionDialog.MaxMemoryGbFromRealMemory | slurm_partition_viewer.py:434-439 | a record holding `RealMemory=<mb>` gives `max(1, ceil(mb / 1024))` in both versions |
| PartitionDialog.GpuInfo | slurm_partition_viewer.py:493-519 | `(null)`, and any output not starting with `gpu:` (blank output included), gives no GPUs; a GPU type read is non-empty and in upper case |
| PartitionDialog.GpuPatternMatches | slurm_partition_viewer.py:508 | the anchored pattern `gpu:([^:]+):(\d+)` on `gpu:<type>:<n>…` captures the type and the digits of `n` |
| PartitionDialog.GpuInfoOfPrefix | slurm_partition_viewer.py:508-513 | `gpu:<type>:<n>` followed by text that does not extend the count gives the upper-cased type and `n` |
| PartitionDialog.GpuInfoNeedsType | slurm_partition_viewer.py:508-515 | a GRES text with no second colon, such as `gpu:2`, gives no GPU information |
| PartitionDialog.MaxNodes | slurm_partition_viewer.py:2113-2160 | the node count is at least one; with no integer from `sinfo %D` and blank `sinfo %N` output it is the default 10 |
| PartitionDialog.GroupNodesPlain | slurm_partition_viewer.py:2149-2151 | a node group without a `[a-b]` range counts one node |
| PartitionDialog.SumNodesPlain | slurm_partition_viewer.py:2139-2153 | a list of plain node names counts one node per name |
| PartitionDialog.GroupNodesRange | slurm_partition_viewer.py:2143-2148 | `prefix[a-b]suffix` counts `b - a + 1` nodes |
| PartitionDialog.AssociationAccounts | slurm_partition_viewer.py:2180-2187 | every account read from the association lines is non-empty |
| PartitionDialog.AvailableProjects | slurm_partition_viewer.py:2162-2199 | at least one account is offered, none of them empty and none twice |
| PartitionDialog.AvailableProjectsComplete | slurm_partition_viewer.py:2180-2193 | an account is offered exactly when some listed association has it, or it is the `staff` default of an empty listing |
| PartitionDialog.SliderToSpinboxes | slurm_partition_viewer.py:314-321 | slider minutes become hours and a quarter-hour minute value (0, 15, 30 or 45), within 7 minutes of the slider |
| PartitionDialog.SliderHoursWithinLimit | slurm_partition_viewer.py:314-321 | a slider value within the limit never shows more hours than the limit |
| PartitionDialog.SpinboxesToSlider | slurm_partition_viewer.py:332-339 | the slider follows the spin boxes only in minute mode |
| PartitionDialog.SpinboxesRoundTrip | slurm_partition_viewer.py:314-339 | quarter-hour spin box values set on the slider and read back are unchanged |
| PartitionDialog.SliderRoundTrip | slurm_partition_viewer.py:314-339 | a slider value after a round trip is a multiple of 15 within 7 minutes of the original |
| PartitionDialog.SelectedTimeHours | slurm_partition_viewer.py:478-485 | the rendered limit `H:MM:00` or `H:00:00`, read back as a partition limit, gives `max(1, H)` hours |
| InteractiveDialog.WalltimeMinutes | interactive_job.py:310-328 | reading the output of a successful `sinfo`: `infinite` gives 7 days of minutes; empty output gives 4 hours |
| InteractiveDialog.WalltimeMinutesUnreadable | interactive_job.py:317-331 | a limit with no integer reading gives 4 hours: with a dash, when the two-way split at `-`, the three-way split at `:` or an `int()` of days, hours or minutes fails (such as `x-01:00:00` or `1-02:00`); without one, a field count other than three or an hour or minute field that is not an integer (such as `ab:00:00`) |
| InteractiveDialog.WalltimeMinutesByShape | interactive_job.py:312-327 | a limit is read by its shape: with a dash as days-clock, otherwise as a three-field clock |
| InteractiveDialog.WalltimeMinutesClock | interactive_job.py:323-327 | `H:M:S` is `60 H + M` minutes, whatever the seconds field holds |
| InteractiveDialog.WalltimeMinutesDays | interactive_job.py:315-318 | `D-H:M:S` is `1440 D + 60 H + M` minutes |
| InteractiveDialog.WalltimeMinutesOtherShape | interactive_job.py:323-329 | a limit that is neither `infinite`, nor dashed, nor has three `:` fields gets the 4-hour fallback |
| InteractiveDialog.WalltimeMinutesTwoDashes | interactive_job.py:315-331 | a limit with two dashes gets the fallback, because the two-way unpacking raises |
| InteractiveDialog.MaxCpus | interactive_job.py:342-347 | reading the output of a successful `sinfo`: output that is not an integer gives the default 16 CPUs |
| InteractiveDialog.MaxCpusOfCount | interactive_job.py:343-346 | any printed integer is offered as is, unclamped |
| InteractiveDialog.MaxMemoryGb | interactive_job.py:361-368 | reading the output of a successful `sinfo`: the memory offered is at least 1 GB; output that is not an integer gives 32 |
| InteractiveDialog.MaxMemoryGbFloor | interactive_job.py:362-366 | `mb` MB gives `max(1, mb // 1024)` GB: rounded down, although the comment says rounded up |
| InteractiveDialog.MaxMemoryGbRoundsDown | interactive_job.py:362-366 | 1025 MB is offered as 1 GB |
| InteractiveDialog.ReadEntries | interactive_job.py:403-414 | the list fails exactly when one entry's count fails to parse; otherwise every entry taken comes from some GRES entry |
| InteractiveDialog.GpuInfo | interactive_job.py:383-419 | a GPU list is non-empty and comes from a GRES text that mentions `gpu` |
| InteractiveDialog.ReadEntryOfText | interactive_job.py:405-414 | one printed entry `gpu:TYPE:n` is read back as itself |
| InteractiveDialog.ReadEntriesOfList | interactive_job.py:403-414 | a list of printed entries is read back entry by entry |
| InteractiveDialog.GpuInfoRoundTrip | interactive_job.py:373-420 | the comma-joined GRES text of one or more GPU entries parses back to exactly those entries |
| InteractiveDialog.GpuInfoFailsOnBadCount | interactive_job.py:403-418 | an entry whose count does not parse makes the whole GPU list unavailable |
| InteractiveDialog.TotalGpus | interactive_job.py:191 | the total of non-negative counts is at least each count |
| InteractiveDialog.TotalGpusAppend | interactive_job.py:191 | the total is the sum of the counts: one entry totals its count, and the total of two lists joined is the sum of their totals |
| InteractiveDialog.MaxGpus | interactive_job.py:189-192 | the GPU section is offered only for a GPU list with a positive total |
| InteractiveDialog.SliderToSpinboxes | interactive_job.py:274-287 | slider minutes split exactly into hours and minutes below 60 |
| InteractiveDialog.SliderRoundTrip | interactive_job.py:274-299 | slider, then spin boxes, then slider gives the same value |
| InteractiveDialog.SpinboxesRoundTrip | interactive_job.py:274-299 | spin box values with minutes below 60 survive the round trip |
| InteractiveDialog.SliderHoursInRange | interactive_job.py:76 | a slider value within the limit shows hours within the hours spin box's range `0..max // 60` |
| InteractiveDialog.DefaultMinutes | interactive_job.py:43-51 | a default time that is read is within the limit whenever the limit is positive |
| InteractiveDialog.DefaultMinutesOfClock | interactive_job.py:43-51 | a default `H:MM:00` within the limit is used as is; one beyond it becomes `max(1, limit // 2)` |
| InteractiveDialog.SelectedTimeFields | interactive_job.py:459-464 | the rendered time has three `:` fields: the hours, the two-digit minutes and `00` |
| InteractiveDialog.SelectedTimeRoundTrip | interactive_job.py:459-464 | the rendered time read back as a limit is the selected number of minutes |
| InteractiveDialog.AccountLines | interactive_job.py:440-444 | the accounts read are exactly the stripped non-empty lines |
| InteractiveDialog.AvailableProjects | interactive_job.py:438-453 | reading the output of a successful `sacctmgr`: the offered accounts are the distinct accounts in ascending order, or the configured default when there are none |
| InteractiveDialog.WalltimeMinutesOfRun | interactive_job.py:303-331 | `sinfo` runs with `check=True`: a non-zero exit gives the 4-hour fallback whatever it printed; exit 0 reads the output |
| InteractiveDialog.MaxCpusOfRun | interactive_job.py:335-350 | a non-zero exit of `sinfo` gives 16 CPUs whatever it printed; exit 0 reads the output |
| InteractiveDialog.MaxMemoryGbOfRun | interactive_job.py:354-371 | a non-zero exit of `sinfo` gives 32 GB whatever it printed; exit 0 reads the output; at least 1 GB either way |
| InteractiveDialog.GpuInfoOfRun | interactive_job.py:375-423 | a non-zero exit of `sinfo` gives no GPU list; exit 0 reads the output |
| InteractiveDialog.AvailableProjectsOfRun | interactive_job.py:427-457 | a non-zero exit of `sacctmgr` gives the configured default alone; exit 0 reads the output |
| InteractiveDialog.FailedRunReadsAsEmpty | interactive_job.py:301-457 | for each of these queries a failed command gives the same value as a successful one that printed nothing |
| InteractiveDialog.SrunCommandWords | interactive_job.py:529-537 | the shell sees `srun -p <partition> -N 1 -A <project>`, the CPU, memory, time and job-name options, `--gres=gpu:<n>` only for a truthy GPU count, then `--x11 --pty bash` |
| InteractiveDialog.InteractiveCommandWords | interactive_job.py:522-537 | the dialog's job is named `Interactive_<partition>` and carries the chosen project |
| Submission.BatchArgvRead | slurm_partition_viewer.py:1283-1292 | reading the `sbatch` argument vector back gives the request: every option chosen in the dialog reaches the scheduler unchanged, and the script comes last |
| Submission.DirectBatchArgvRead | slurm_partition_viewer.py:1605-1607 | the plain submission passes the partition as its only option |
| Submission.ErrorMessage | slurm_partition_viewer.py:1312 | the error shown is the stripped error output, and `Unknown error` only when there is none |
| Submission.ErrorMessageOfLine | slurm_partition_viewer.py:1312 | a one-line error is shown as written, with or without its line break |
| Submission.ErrorMessageOfPadded | slurm_partition_viewer.py:1312 | a message surrounded by blanks and line breaks on either side is shown without them |
| Submission.ErrorMessageOfBlanks | slurm_partition_viewer.py:1312 | an error output of blanks is shown as an empty message, not `Unknown error` |
| Submission.SubmitOutcomeOf | slurm_partition_viewer.py:1294-1315 | a submission fails exactly when `sbatch` exits non-zero, and then carries the error message; a job id read from the reply is a non-empty run of digits; without an id the reply is kept as printed |
| Submission.SubmittedJobIdRead | slurm_partition_viewer.py:1298-1301 | a reply `<pre>Submitted batch job <n><post>` gives the id `n` when `pre` holds no earlier confirmation phrase and `post` does not start with a digit |
| Submission.SubmittedIdInReply | slurm_partition_viewer.py:1298-1301 | a successful reply has an id exactly when the confirmation phrase is followed by a digit somewhere; the id is the whole digit run after the first such occurrence |
| Submission.SubmittedWithoutConfirmation | slurm_partition_viewer.py:1306-1308 | a successful run whose reply lacks the phrase is reported without an id |
| Submission.RemoveFieldCodes | slurm_partition_viewer.py:1454 | removing the `%<letter>` codes never lengthens the command |
| Submission.NoFieldCodes | slurm_partition_viewer.py:1454 | a command without `%` is unchanged |
| Submission.FieldCodeRemoved | slurm_partition_viewer.py:1454 | the first field code is cut out and the text before it is kept |
| Submission.FieldCodesOnePass | slurm_partition_viewer.py:1454 | one pass is not idempotent: `%%uu` leaves `%u`, which a second pass removes |
| Submission.AppName | slurm_partition_viewer.py:1474 | the application name is a suffix of the command without `/`, right after the last `/` when there is one |
| Submission.AppNameOfPath | slurm_partition_viewer.py:1474 | the name of `<dir>/<name>` is `name` |
| Submission.LaunchOptions | slurm_partition_viewer.py:1488-1499 | the launch command is `srun` with nine options, the seventh of them naming the job |
| Submission.LaunchArgv | slurm_partition_viewer.py:1488-1507 | the `srun` vector is the ten words of `LaunchOptions` with the job named after the program and the time stamp, then `--gres=gpu:<n>` exactly when the GPU count is truthy, then the command's words |
| Submission.LaunchArgvOf | slurm_partition_viewer.py:1450-1507 | the launch arguments end in the program's words, and the job is named after the program |
| Submission.ScriptAppName | slurm_partition_viewer.py:1474 | the program of `bash -i <dir>/<name>` is named after the script file |
| Submission.LaunchOfScript | slurm_partition_viewer.py:1450-1507 | a menu script launched as `bash -i <path>` runs under `srun` as `bash -i <path>`, its job named after the script file |
| Submission.ViewerInteractiveCommandWords | slurm_partition_viewer.py:1527-1537 | the icon's interactive job uses the account `staff`, is named `RED_Interactive_<partition>`, and requests GPUs only for a truthy count |
| Submission.TerminalScriptQuoted | slurm_partition_viewer.py:1540-1545 | the terminal runs `bash -c '<command>; echo …; read'` with the command between the quotes |
| Submission.ClassifyExec | slurm_partition_viewer.py:1371-1396 | a `bash -i ` command is launched as it is; every launched command contains `bash -i `; a launched entry that is neither a shell nor a terminal command is a `.sh` script of the cluster's bin directory run by `bash -i `; a `mate-terminal -e ` entry is launched with its quoted command exactly when that command is found and contains `bash -i `, and is not launched otherwise; an entry of none of the three kinds is not launched |
| Submission.ClassifyTerminal | slurm_partition_viewer.py:1379-1389 | an entry starting `mate-terminal -e ` is launched with its quoted command, if that is a bash command |
| Submission.ClassifyTerminalEntry | slurm_partition_viewer.py:1379-1389 | `mate-terminal -e "<c>"` with `c` holding `bash -i ` is launched as `c` |
| Submission.ClassifyScript | slurm_partition_viewer.py:1392-1396 | a `.sh` script of the bin directory is launched as `bash -i <script>` |
| JobHistory.QueuedRowsOf | slurm_partition_viewer.py:944-949 | no more rows than lines, and every row has at least seven fields |
| JobHistory.QueuedRowsMembers | slurm_partition_viewer.py:944-949 | a row is kept exactly when some non-empty line of the listing has it as its `,`-fields and it has at least seven |
| JobHistory.QueuedTable | slurm_partition_viewer.py:944-955 | every row of the table has exactly seven cells |
| JobHistory.QueuedRowsRoundTrip | slurm_partition_viewer.py:936-949 | every row printed by `squeue --format=%i,%j,%T,%S,%C,%m,%l` is read back, in order, none dropped and none added |
| JobHistory.QueuedTableOfListing | slurm_partition_viewer.py:936-955 | the table of a printed listing is exactly its rows |
| JobHistory.Pad | slurm_partition_viewer.py:999-1001 | the fields are kept, padded with empty fields up to `n` |
| JobHistory.CompletedRow | slurm_partition_viewer.py:997-1007 | a line is kept exactly when it is not blank, is not a `.batch` step, and its upper-cased state is a finished state; a kept row has at least eight fields and starts with the line's fields |
| JobHistory.CompletedRowsOf | slurm_partition_viewer.py:996-1007 | a row is kept exactly when some line gives it |
| JobHistory.CompletedTable | slurm_partition_viewer.py:996-1016 | the table has one row per kept line, in order, each the first eight cells of that line's padded fields |
| JobHistory.CompletedRowOfJoin | slurm_partition_viewer.py:997-1007 | the line printed for a row of eight clean fields, not a batch step and in a finished state, is kept as exactly that row |
| JobHistory.CompletedRowsRoundTrip | slurm_partition_viewer.py:996-1007 | printing such rows one per line and reading them back gives the same rows, none dropped and none added |
| JobHistory.CompletedTableOfListing | slurm_partition_viewer.py:996-1016 | the table of a listing whose stripped text is such rows is exactly those rows |
| JobHistory.CompletedShortRow | slurm_partition_viewer.py:999-1007 | a line with only id, name and state is kept, padded with empty fields |
| JobHistory.CompletedBatchStep | slurm_partition_viewer.py:1003 | the batch step of a job is never shown, whatever its state |
| JobHistory.CompletedStateAnyCase | slurm_partition_viewer.py:1005-1006 | `completed` in lower case counts as finished |
| JobHistory.JoinPath | slurm_partition_viewer.py:841-846 | `os.path.join(dir, name)` ends with `name` |
| JobHistory.JoinPathParts | slurm_partition_viewer.py:841-846 | a joined path starts with the directory and its last component is the file name |
| JobHistory.LogFilePath | slurm_partition_viewer.py:813-846 | a file named in the job's `StdOut=`/`StdErr=` is used unless it is `(null)` or the key's own name; otherwise `slurm-<id>.out/.err` in `WorkDir`; no file without a work directory |
| JobHistory.LogFilePathOfCustom | slurm_partition_viewer.py:813-824 | a custom file named in the job's description is used as it is |
| JobHistory.LogFileInWorkDir | slurm_partition_viewer.py:827-846 | without a usable custom name, the file is `slurm-<id>.<ext>` in the working directory |
| JobHistory.CancelOutcomeOf | slurm_partition_viewer.py:777-790 | the job is reported cancelled exactly when `scancel` exits 0; a failure message ends with the error message |
| JobHistory.CancelFailureMessage | slurm_partition_viewer.py:788-790 | a failed cancellation shows the scheduler's one-line error |
| FileTail.Start | slurm_partition_viewer.py:580-586 | the display starts empty, or with the waiting notice when the file does not exist yet |
| FileTail.Tick | slurm_partition_viewer.py:589-604 | the read position never decreases and the display only grows; it advances exactly when the file exists and is longer, and then appends exactly the characters past the old position |
| FileTail.Run | slurm_partition_viewer.py:588-607 | over many passes the read position never decreases and the display only grows |
| FileTail.TickMirrors | slurm_partition_viewer.py:589-604 | a pass over a grown file keeps the display equal to the notice followed by the whole file |
| FileTail.RunMirrors | slurm_partition_viewer.py:588-607 | a file that only grows is mirrored in full after the notice |
| FileTail.TailShowsFile | slurm_partition_viewer.py:578-607 | from the window's opening, a growing file is shown in full after the notice, if one was shown |
| FileTail.TruncatedFileShowsOnlyTail | slurm_partition_viewer.py:593-604 | a file that shrinks and grows again is shown only past the old size |
| PartitionGrid.Cell | slurm_partition_viewer.py:2378-2380 | the cell is row `i // 4`, column `i % 4`: column below 4 and `4 row + col = i` |
| PartitionGrid.NewIcon | slurm_partition_viewer.py:1057-1068 | a new icon keeps the displayed text, names the partition with the trailing stars removed, and starts without jobs or badge |
| PartitionGrid.DefaultMarkerDropped | slurm_partition_viewer.py:1065 | the default partition's `*` is not part of the partition name |
| PartitionGrid.IconOf | slurm_partition_viewer.py:2368-2380 | the icon of the `i`-th line is placed at the cell of `i` |
| PartitionGrid.NonEmptyFrom | slurm_partition_viewer.py:2367-2368 | the non-empty lines are listed, each once, in increasing order |
| PartitionGrid.Icons | slurm_partition_viewer.py:2359-2384 | every icon is the icon of a non-empty line, placed at that line's number |
| PartitionGrid.IconsComplete | slurm_partition_viewer.py:2367-2368 | every non-empty line of the listing gets an icon |
| PartitionGrid.IconsInDistinctCells | slurm_partition_viewer.py:2378-2381 | no two icons share a cell; icons follow the order of the lines |
| PartitionGrid.Registry | slurm_partition_viewer.py:2384 | a name is registered exactly when some icon shows it, and its entry is one of the icons |
| PartitionGrid.RegistryKeepsLast | slurm_partition_viewer.py:2384 | the registered icon of a name is its last icon in the listing |
| PartitionGrid.ActivePartitions | slurm_partition_viewer.py:2425-2428 | the active partitions are exactly the non-empty lines of the queue listing |
| PartitionGrid.UpdateJobStatus | slurm_partition_viewer.py:1188-1192 | the flag is set to the new value; the badge changes only when the flag changes; nothing else changes |
| PartitionGrid.UpdateJobStatuses | slurm_partition_viewer.py:2430-2437 | the same icons are kept, and each is flagged exactly when its partition name is in the queue listing |
| PartitionGrid.UpdateKeepsBadges | slurm_partition_viewer.py:2430-2437 | the badge shows exactly when the flag is set, and a repeated update changes nothing |
| PartitionGrid.DefaultPartitionBadge | slurm_partition_viewer.py:2433-2437 | the default partition's icon gets its badge from a listing naming the partition without `*` |
| SimpleViewer.DisplayName | simple_slurm_viewer.py:15-22 | a default partition's name has its one trailing `*` removed; others are unchanged |
| SimpleViewer.DisplayNameDropsOneStar | simple_slurm_viewer.py:19-20 | only one `*` is dropped: `name**` shows as `name*` |
| SimpleViewer.EntryOf | simple_slurm_viewer.py:145-152 | a line is read exactly when it is non-empty and has at least two fields, the second an integer; the entry is the first field and that integer |
| SimpleViewer.EntriesMembers | simple_slurm_viewer.py:145-153 | a partition is listed exactly when some line of the listing parses to it |
| SimpleViewer.SortedEntries | simple_slurm_viewer.py:155-156 | the sorted entries are a permutation of the parsed ones, in the order defaults first, then by lower-case name without stars |
| SimpleViewer.DefaultsFirst | simple_slurm_viewer.py:155-156 | no default partition comes after a non-default one |
| SimpleViewer.TiesKeepListingOrder | simple_slurm_viewer.py:155-156 | partitions the sort key cannot tell apart keep their listing order |
| SimpleViewer.PartitionAt | simple_slurm_viewer.py:159-164 | the `i`-th partition is placed at row `i // 4`, column `i % 4` |
| SimpleViewer.Layout | simple_slurm_viewer.py:132-178 | a failed `sinfo` shows `Error querying SLURM: <stderr>`; no partitions shows the message at (0, 0); otherwise one widget per sorted partition at its cell |
| SimpleViewer.LayoutCellsDistinct | simple_slurm_viewer.py:159-168 | at least one widget is shown, no column beyond the fourth, and no two widgets in one cell |
| UsageStats.AddTo | slurm_partition_viewer.py:2535 | `d[k] = d.get(k, 0) + x` adds `x` to `k` and leaves other keys alone |
| UsageStats.SumAdd | slurm_partition_viewer.py:2535 | adding `x` to one entry adds `x` to the sum of the map |
| UsageStats.DayPart | slurm_partition_viewer.py:2544-2548 | a time without `-` has no days and keeps all its text |
| UsageStats.DayPartDashed | slurm_partition_viewer.py:2544-2548 | with a dash the day part is read exactly when the time splits into two pieces and the first is an integer `D`; it is then `1440 D` minutes and the second piece |
| UsageStats.ClockMinutes | slurm_partition_viewer.py:2550-2553 | with fewer than three `:` fields the clock adds nothing |
| UsageStats.ClockMinutesFields | slurm_partition_viewer.py:2550-2553 | with three or more `:` fields the clock is read exactly when the first two fields `H` and `M` are integers, as `60 H + M` minutes |
| UsageStats.ElapsedMinutes | slurm_partition_viewer.py:2542-2553 | an elapsed time without a dash is its clock's minutes |
| UsageStats.ClockOfParts | slurm_partition_viewer.py:2550-2553 | `H:M:S` is `60 H + M` minutes, whatever the seconds |
| UsageStats.DayPartOf | slurm_partition_viewer.py:2544-2548 | `D-rest` is `D` days followed by `rest` |
| UsageStats.ElapsedOfDays | slurm_partition_viewer.py:2544-2553 | `D-time` is `1440 D` plus the clock minutes of `time`, and fails when the clock does |
| UsageStats.CpuOfCompleted | slurm_partition_viewer.py:2539-2562 | a completed job's line aborts the summary exactly when it has no elapsed-time field, or has a readable non-empty one and no CPU field; its CPU time is known exactly when both fields are non-empty and parse, and is then elapsed minutes times CPUs |
| UsageStats.RowOf | slurm_partition_viewer.py:2522-2570 | blank lines are skipped; a counted line is not a `.batch`/`.extern` step and is counted with its partition, its upper-cased state and its account (`unknown` without a tenth field); only a completed job carries a CPU time |
| UsageStats.RowOfCases | slurm_partition_viewer.py:2522-2562 | a line is skipped exactly when it is blank or its first field ends in `.batch` or `.extern`; otherwise it aborts exactly when it has fewer than three fields or is a completed job whose CPU fields abort; a counted line carries, for a completed job only, the CPU time `CpuOfCompleted` reads |
| UsageStats.StepLinesSkipped | slurm_partition_viewer.py:2525 | a job step is skipped whatever else its line holds |
| UsageStats.Count | slurm_partition_viewer.py:2527-2570 | counting a job adds one to the total and to its partition's usage, at most one to completed and failed together and at most one GPU job, and its CPU time to the total and to its account |
| UsageStats.ChargeSum | slurm_partition_viewer.py:2559-2561 | charging CPU time to an account adds it to the sum over accounts |
| UsageStats.CountConsistent | slurm_partition_viewer.py:2527-2570 | counting a job keeps the invariants: the partition counts sum to the total, the account times sum to the CPU total, and completed plus failed and GPU jobs stay within the total |
| UsageStats.StepConsistent | slurm_partition_viewer.py:2522-2570 | reading a line keeps the invariants |
| UsageStats.FoldConsistent | slurm_partition_viewer.py:2522-2570 | every summary the fold produces satisfies the invariants |
| UsageStats.SummaryConsistent | slurm_partition_viewer.py:2513-2570 | the summary of any listing satisfies the invariants |
| UsageStats.StepTotal | slurm_partition_viewer.py:2522-2568 | one line aborts the summary exactly when it is `Aborted`, and adds one to the total exactly when it is counted |
| UsageStats.FoldAborts | slurm_partition_viewer.py:2522-2568 | the fold fails exactly when some line aborts it |
| UsageStats.FoldTotal | slurm_partition_viewer.py:2522-2570 | the fold fails exactly when some line aborts it, and otherwise its total is the number of counted lines |
| Reservations.Field | slurm_reservations.py:187-189 | a field value is a non-empty run of non-blank characters |
| Reservations.TimeField | slurm_reservations.py:192-205 | a missing field or `Unknown` reads as no time; any other value is what `strptime` makes of it |
| Reservations.NamesField | slurm_reservations.py:238-250 | absent users or accounts, or `n/a`, read as none |
| Reservations.Duration | slurm_reservations.py:222-226 | the duration is known exactly when both ends are, and then `start + duration = end` |
| Reservations.ReservationOf | slurm_reservations.py:184-252 | each field of the record is the value after its key in the line |
| Reservations.FieldRead | slurm_reservations.py:187-189 | `Key=value` followed by a blank, with the key not occurring earlier, is read back as `value` |
| Reservations.FieldMissing | slurm_reservations.py:187-189 | a key followed by a blank, or at the end, gives no value |
| Reservations.ReservationsOf | slurm_reservations.py:168-256 | a failed command gives no list; otherwise one record per non-blank line, in order |
| Reservations.EntryLines | slurm_reservations.py:177-182 | no entry line is blank |
| Reservations.ApplyFilters | slurm_reservations.py:258-282 | the shown list is a permutation of the reservations passing the filters, sorted by start |
| Reservations.ApplyFiltersMembers | slurm_reservations.py:267-277 | a reservation is shown exactly when its partitions include the selected one (or all are selected) and it has not ended, or past ones are shown |
| Reservations.UnknownStartsLast | slurm_reservations.py:279-280 | reservations with an unknown start come after all the others |
| Reservations.SameStartKeepsOrder | slurm_reservations.py:279-280 | reservations with the same start keep the order of the listing |
| Reservations.NoFilterKeepsAll | slurm_reservations.py:267-277 | with every partition selected and past reservations shown, nothing is dropped |
| Reservations.DurationParts | slurm_reservations.py:313-316 | a duration splits into `timedelta` days and hours, minutes and seconds in range that add back to it |
| Reservations.DurationText | slurm_reservations.py:321-337 | the duration column reads `Unknown` exactly when the duration is unknown or zero (a falsy `timedelta`) |
| Reservations.DurationTextDays | slurm_reservations.py:321-330 | a positive duration below a day shows `Hh Mm` with no day count; one of a day or more shows `Dd Hh Mm` with at least one day |
| Reservations.UsersAccountsText | slurm_reservations.py:341-353 | the column starts with the users when there are some and ends with the accounts when there are some; it is `None specified` exactly when neither is given |
| Reservations.StatusOf | slurm_reservations.py:358-367 | a reservation has a status exactly when both ends are known: future before the start, past after the end, active between |
| Reservations.HiddenPastIsPast | slurm_reservations.py:272-273 | a reservation hidden as past has a past status when its start is known |
| MenuParser.AfterFirst | menu_parser.py:13 | `split('=', 1)[1]` is the text after the first `=`, and exists exactly when there is one |
| MenuParser.LineValueOf | menu_parser.py:12-13 | a line `key value` is read as `value` without trailing blanks, any `=` inside it included |
| MenuParser.DirectoryName | menu_parser.py:7-16 | a directory name is found exactly when some line starts with `Name=` |
| MenuParser.NameLineHasValue | menu_parser.py:12-13 | every `Name=` line gives a value |
| MenuParser.DirectoryNameFirst | menu_parser.py:11-13 | the first `Name=` line gives the directory name, whatever follows |
| MenuParser.LastNameWins | menu_parser.py:25-31 | the last `Name=` line of a desktop file decides its name |
| MenuParser.NoNameLine | menu_parser.py:19-34 | without a `Name=` line, the name stays unknown |
| MenuParser.LocalisedNameIgnored | menu_parser.py:26-31 | a localised key such as `Name[de]=` changes nothing |
| MenuParser.CleanFilename | menu_parser.py:36-40 | a leading `thinlinc-` is removed; other names are unchanged |
| MenuParser.CleanFilenameOnce | menu_parser.py:36-40 | exactly one prefix is removed, even when the rest starts with it again |
| MenuParser.AppInfo | menu_parser.py:72-78 | an application is recorded exactly when it has a non-empty name, and it carries its command and icon only when they are non-empty |

## Left out

- The Qt widgets, painting, drag and drop, message boxes, window management and the refresh timers are left out. Only the values they display or pass on are modelled.
- Running processes is left out: `subprocess.run`, `Popen` and the terminal fallback chain (mate-terminal, then gnome-terminal, then xterm). A command's output and exit status are parameters; the terminal argument vector is modelled only for the first terminal.
- A command that cannot be started in the partition viewer's queries, which never read the exit status, is left out. There the `except` value is returned (24 hours from `get_max_walltime`, 32 CPUs, 128 GB, no GPUs, 10 nodes, `staff`). That can differ from what the same query makes of empty output (72 hours from `get_max_walltime`). The model reads only what a started command printed.
- Threads and sleeping in the log viewer are left out, including the race between `getsize` and `read`. The file's contents at each pass are a parameter.
- The clock and `strptime` are parameters. So are the dates passed to `sacct -S`.
- Floating point is left out: CPU time is kept in whole CPU-minutes (the program's hours are these minutes over 60). The percentages and the `.1f` formatting of the usage report are not modelled.
- The fake data shown when a command is unavailable is left out (`populate_dummy_*`, dummy partitions, random badges).
- The menu reader's XML walk, its JSON output, and the fixed directory paths are left out. File read errors in `menu_parser.py` are not modelled; they would leave the values read so far.
- The `settings` constants of the interactive dialog (default time, project, terminal command) are parameters. They are not part of this model.
- The usernames taken from the environment or `pwd` are left out.
- Python's `int()` is modelled with surrounding whitespace, an optional sign and ASCII digits. Underscores and non-ASCII digits are not modelled.
- `str.strip`, `isspace`, `upper` and `lower` are modelled on ASCII only. So are the regular-expression classes `\d` and `\s` of the `re.search`/`re.match` patterns, which Python matches against all Unicode digits and blanks.
- The text of an exception shown by the usage window is left out: a failing line is modelled as a failed summary.
- The Qt sorts of the job tables and the reservation table (by job id, start column or start time) are left out. The tables are modelled in the order they are filled.
- `int()` of the interactive dialog's default time can raise before the dialog is built. The raise is left out: a default whose first two `:` fields are not integers is modelled as no default (`None`). A default with fewer than two fields is the 60-minute fallback, as the code has it.
- The job history's viewer registry (one window per job and stream) is left out.
- FileTail: the log viewer compares `os.path.getsize` byte counts and reads from that byte offset in text mode, so the display receives decoded characters with newlines translated. The model uses one character sequence for both the size and the content, which is faithful for single-byte text without `\r` only.
- FileTail.Run: any exception in the loop (a decode or permission error, say) ends the monitoring with an `Error monitoring file: …` line. The model has no error exit: every pass is a pass over the file's contents or its absence.
- The menu parser's `DesktopInfo` is built by `ReadDesktop`, which has no contract of its own. Its meaning is stated by `LastNameWins`, `NoNameLine` and `LocalisedNameIgnored` for the `Name=` key only; `Exec=` and `Icon=` are read by the same branch structure.
- PartitionDialog.NodeMemoryGb: states only that a figure read is at least 1 GB. Reading `RealMemory=` is stated by `MaxMemoryGbFromRealMemory`; the `Memory=<n><M/G>` form has no lemma of its own.
- PartitionDialog.SinfoMemoryGb: states the lower bound and the blank case, not how the first number and its unit are read.
- PartitionDialog.MaxNodes: states the lower bound and the default; the integer case and the node-group sum are stated only for single groups, by `GroupNodesPlain`, `GroupNodesRange` and `SumNodesPlain`.
- PartitionDialog.AssociationAccounts: states only that no account is empty, not which field of which line is taken.
- PartitionDialog.AvailableProjects: the order of first appearance is not stated; which accounts are offered is stated by `AvailableProjectsComplete`.
- InteractiveDialog.DefaultMinutes: the fallback to half the limit is not stated, only the bound.
- InteractiveDialog.GpuInfo: states only that a GPU list is non-empty and comes from output mentioning `gpu`, not the type and count of each entry.
- Submission.LaunchOptions: states the command, the number of options and the job name; the other option values are not stated.
- JobHistory.QueuedTable: states the width of each row, not the cells' contents or the row order.
- UsageStats.Count: which states count as completed or failed and which partitions count as GPU partitions are stated only as bounds.

## Findings

| source | as written | input that shows it | evidently intended | confidence | as-written member | corrected member |
|---|---|---|---|---|---|---|
| slurm_partition_viewer.py:413-476 | `import re` inside the `if node_list:` branch makes `re` local to the whole function. With an empty first node name, the `sinfo %m` fallback reaches `re.search` unbound, raises `UnboundLocalError`, and the handler returns 128 GB. The batch dialog's copy at lines 2048-2111 is the same. | `sinfo %N` prints nothing and `sinfo %m` prints `64000M` | the `sinfo %m` size, 63 GB | not executed | PartitionDialog.MaxMemoryGbAsWritten (shown by PartitionDialog.MaxMemoryGbUsesSinfo) | PartitionDialog.MaxMemoryGb |
