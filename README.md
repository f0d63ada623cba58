# pytop2 in Dafny

`pytop2.py` is a Python 2 `top`-like monitor for Linux. At each refresh it
reads `/proc/stat` and `/proc/<pid>/stat` (and the `task/<tid>/stat` file of
every thread) into a `SystemSnapshot`. Then it does the following:

- It prints three tables: one row per CPU core, one row per process, and
  under each process a row per thread. Each row shows CPU and iowait
  percentages against the previous snapshot, with the minimum and maximum
  seen so far.
- It hides entities that have been idle for `-i` refreshes.
- With `-p PID` it shows only PID.
- It stops printing once the terminal's rows are used.
- It keeps a per-id CPU history and draws it as a bar chart for the selected
  id.
- It moves the selection up and down the printed ids on the arrow keys (or
  `k`/`j`), and `q` quits.

The project models this core:

| file | module | what it models |
|---|---|---|
| `text.dfy` | `Text` | `str.split(' ')`, Python 2 `int()` on text, number formatting, and `process_name_filter`. |
| `namefix.dfy` | `NameFix` | The loop that applies `re.sub(r'\((.*) (.*)\)', r'(\1_\2)', stat)` until nothing changes. It removes spaces in the name field of a status line. |
| `records.dfy` | `Records` | The records: `Thread` (one task's status line), `CpuSnapshot`, `GetPidShapshot` and `SystemSnapshot`, and their decoding from the text read. |
| `delta.dfy` | `Delta` | The arithmetic of one row: percentages, the min/max bounds, iowait, and the idle-decay counter `did_something`. |
| `passes.dfy` | `Passes` | `display_cpu_delta`, `display_process_delta` and `display_thread_delta` as functions from the state a pass starts in to the state it leaves. Also what those passes guarantee: the line budget, the `-p` filter, auto-selection and `found`. |
| `history.dfy` | `History` | `append_to_history` on the four history dictionaries. |
| `histogram.dfy` | `Histogram` | `display_histogram` as the grid of cells and axis labels it prints. |
| `navigation.dfy` | `Navigation` | `curses_get_ch`'s key mapping and `handle_user_input`'s scans over the printed ids. |
| `monitor.dfy` | `Monitor` | The `Monitor` object. Its methods update `opts.pid`, `how_many_printed_lines`, `found_user_selected_process` and the history in place, with the same loops as the source. Each is proved to end in the state the corresponding function of `Passes`, `History`, `Histogram` or `Navigation` describes. `Step` is one turn of the main loop. |

Python's exceptions are not preconditions here. A division by a zero clock
delta, a missing key, or `int()` or `float()` on bad input makes the
operation return with an `ok` flag that is false, or with a `None`,
`Crashed` or `Raises` value. The state it leaves is the state the
exception leaves.

Two Python 2 details decide some behaviour:

- `int()` skips surrounding white space, and white space between the sign and the digits (`int("- 5") == -5`).
- An int never compares equal to a string. The record's `pid` is the text of
  the status line's first field. In the thread table, `opts.pid` (an int or
  None) is compared with it, and that test is never true. So the thread
  table never exempts the selected id from the idle filter.

## Model

| member | source | states |
|---|---|---|
| Text.Split | pytop2.py:993 | `split(' ')` gives one field more than there are spaces, and no field contains a space |
| Text.JoinSplit | pytop2.py:993 | joining the fields of a split with single spaces gives back the line |
| Text.SplitJoin | pytop2.py:993 | splitting fields that contain no space, joined with spaces, gives back those fields |
| Text.FormatParse | pytop2.py:995-1034 | `int()` reads back every integer written in decimal, negative ones included |
| Text.Unstripped | pytop2.py:995-1034 | `int()`'s stripping of white space leaves text that has none at either end unchanged |
| Text.SignThenSpace | pytop2.py:995-1034 | `int()` skips white space after the sign: `"- "` or `"+ "` before a digit run reads as the negated or plain value |
| Text.Unsigned | pytop2.py:995-1034 | a bare digit run is read, with its decimal value, exactly when it is all digits and not empty |
| Text.JoinNewline | pytop2.py:993 | a joined line followed by its newline is the join with the newline on the last field |
| Text.SplitNewline | pytop2.py:993 | splitting such a line leaves the newline on the last field |
| Text.ParseIgnoresNewline | pytop2.py:995-1034 | `int()` reads a field followed by the line's newline as the field alone |
| Text.ParseNewline | pytop2.py:995-1034 | `int()` reads back every integer written in decimal and followed by a newline |
| Text.ProcessNameFilter | pytop2.py:1197-1204 | the filtered command line has the same length; every character below 32 other than tab becomes a space, and every other character is kept |
| Text.FilterIsIdempotent | pytop2.py:1197-1204 | the filter's output is all printable, so a second filtering changes nothing |
| NameFix.LineEnd | pytop2.py:988 | the first end of line at or after a position, since `.` does not match a newline |
| NameFix.LastIndex | pytop2.py:988 | the last occurrence of a character in a range, which is where a greedy `.*` ends |
| NameFix.MatchAt | pytop2.py:988 | a match starting at a `(` spans a space and ends at a `)` further on |
| NameFix.FirstMatch | pytop2.py:988 | the leftmost match found from a position on spans a space and ends at a `)` |
| NameFix.RewriteFrom | pytop2.py:988 | one `re.sub` pass keeps the length and changes nothing when no match is found |
| NameFix.RewriteFromSpaces | pytop2.py:988 | a pass only turns spaces into underscores |
| NameFix.FewerSpaces | pytop2.py:987-991 | a pass that changes the line removes at least one space, which is why the loop ends |
| NameFix.Normalised | pytop2.py:987-991 | the loop's result has the line's length, is a fixed point of the substitution, and differs from the line only where spaces became underscores |
| NameFix.NormaliseName | pytop2.py:987-991 | the `while True` loop returns the normalised line, which one more substitution leaves unchanged |
| NameFix.MatchAtFinds | pytop2.py:988 | a `(`, then a space, then a `)` on one line always give a match |
| NameFix.MatchAtWitness | pytop2.py:988 | every match lies on one line |
| NameFix.FirstMatchSome | pytop2.py:988 | a match found means the line has a space between a `(` and a later `)` |
| NameFix.RewriteFixedIff | pytop2.py:988-990 | a substitution leaves the line unchanged exactly when no space sits between a `(` and a later `)` on one line |
| NameFix.NormalisedHasNoSpaceInParens | pytop2.py:987-991 | after the loop no space remains between a `(` and a later `)` on one line |
| NameFix.NoParenNoMatch | pytop2.py:988 | with no `)` after a position there is no match |
| NameFix.OnePassOneSpace | pytop2.py:988 | on a line that may end in its newline, each pass that changes something removes exactly one space |
| NameFix.OneMatch | pytop2.py:988 | on a line that may end in its newline, a pass replaces exactly the space the leftmost match found |
| NameFix.NothingAfterMatch | pytop2.py:988 | on a line that may end in its newline, the greedy match ends at the last `)` |
| NameFix.RewriteFromInside | pytop2.py:988 | a pass only replaces spaces that lie between a `(` and a later `)` on one line |
| NameFix.NormalisedInside | pytop2.py:987-991 | the loop only replaces spaces that lie between a `(` and a later `)` on one line |
| NameFix.NormalisedExactly | pytop2.py:987-991 | the loop's result is the line with exactly its spaces between a `(` and a later `)` on one line turned into `_`, and every other character kept, field separators included |
| NameFix.NormalisedFrame | pytop2.py:987-991 | a line whose only parentheses enclose a one-line name has just that name's spaces turned into `_` |
| Records.DecodeTask | pytop2.py:978-1049 | a status line decodes exactly when fields 3 to 40 (and 42, if present) read as integers after the name loop and the split; pid, name and state are fields 0 to 2, utime, stime and cpu are fields 13, 14 and 38, blkio is field 42 or -1 when the line has 42 fields or fewer; the bounds start unset and the decay counter at 0 |
| Records.StatLineNormalised | pytop2.py:987-991 | on a status line as the kernel writes it, with a newline at the end, the name loop turns exactly the spaces of the command name into `_` |
| Records.StatLineFields | pytop2.py:987-1034 | the split of such a line, whose name may contain spaces, gives the pid, the name in parentheses with `_` for its spaces, the state, then each number in order, the last one read with its newline |
| Records.DecodeStatLine | pytop2.py:978-1049 | decoding such a line gives back its values: the pid and state, the name with `_` for its spaces, utime, stime and cpu from their positions, blkio or -1, the bounds unset, the decay counter 0 |
| Records.CpuFrom | pytop2.py:1054-1067 | a core sample's clock is the sum of its seven counters, and its decay counter starts at 0 |
| Records.DecodeCpu | pytop2.py:1054-1067 | a `/proc/stat` core line decodes exactly when fields 1 to 7 are integers, and then its clock is their sum |
| Records.DecodeCpuLine | pytop2.py:1054-1067 | decoding a core line written from counters, with its newline, gives the sample of the first seven |
| Records.CpuLineFields | pytop2.py:1054-1062 | the fields of a written core line are its tag and then its counters, the last read with its newline |
| Records.CoreLines | pytop2.py:1180-1188 | the lines kept all start with `cpu` and are not the total line; a single line is kept once if it is a core line and dropped otherwise |
| Records.CoreLinesMembers | pytop2.py:1180-1188 | every core line of the file is kept, and nothing else |
| Records.CoreLinesAppend | pytop2.py:1180-1188 | the core lines keep file order: those of a file are those of its first part followed by those of the rest |
| Records.DecodeCpus | pytop2.py:1172-1192 | the core list has one sample per core line |
| Records.DecodeCpusExists | pytop2.py:1172-1192 | the core list exists exactly when every core line decodes |
| Records.DecodeCpusSamples | pytop2.py:1180-1189 | sample k is the decoding of the k-th core line |
| Records.DigitEntries | pytop2.py:1143-1147 | exactly the task-directory entries whose names are all digits are kept; a single entry is kept once if its name is all digits and dropped otherwise |
| Records.DigitEntriesAppend | pytop2.py:1143-1147 | the kept entries are in listing order |
| Records.Ids | pytop2.py:1143-1147 | the thread ids are the kept names read as integers, in order |
| Records.ReadPrefix | pytop2.py:1149-1161 | the entries read before the first one whose file cannot be read or whose line does not decode |
| Records.ThreadStatsKeys | pytop2.py:1149-1161 | a thread has a record exactly when its entry comes before the first failed read |
| Records.ThreadStatsValues | pytop2.py:1149-1161 | a thread's record is the decoding of its entry's line (the last such entry when a name repeats) |
| Records.DecodeProcess | pytop2.py:1070-1161 | a process record exists exactly when its status line decodes, and its task is that decoding; a failed task listing leaves no threads and no thread table (`listed` false); otherwise the threads are the digit entries and the table is the one read from them, keyed only by listed threads |
| Records.PidList | pytop2.py:1230 | the pid list holds exactly the all-digit names of `/proc`, as integers; a single name gives one pid if it is all digits and none otherwise |
| Records.PidListAppend | pytop2.py:1230 | the pid list keeps the order of the `/proc` listing: the pids of a listing are those of its first part followed by those of the rest |
| Records.ProcessTable | pytop2.py:1230-1239 | every record in the table belongs to a listed pid |
| Records.ProcessTableKeys | pytop2.py:1219-1239 | a pid has a record exactly when it is listed and its status line was read and decodes |
| Records.ProcessTableValues | pytop2.py:1219-1239 | a pid's record is the decoding of its reads |
| Records.DecodeSnapshot | pytop2.py:1164-1239 | a full snapshot exists exactly when every core line decodes; its cores are that list, its pids the `/proc` listing in order and its process table the one built from the decoded reads; nothing is shown yet |
| Delta.Share | pytop2.py:131-133 | a share of the clock delta is zero exactly when the delta is zero, and is non-negative for a non-negative delta and a positive clock |
| Delta.ShareAdds | pytop2.py:131-133 | user share plus system share is the share of their sum |
| Delta.ShareWithinClock | pytop2.py:131-133 | a delta within the clock delta is a share between 0 and 100 |
| Delta.ShareOfWhole | pytop2.py:648-655 | the whole clock delta is 100 percent |
| Delta.Widen | pytop2.py:138-151 | the bounds enclose the new value; an unset bound is seeded with it; a set bound only widens, to the old bound or the new value |
| Delta.WidenAllIsExtremes | pytop2.py:138-151 | widening over a series of samples gives exactly the least and greatest of them |
| Delta.CpuAgainst | pytop2.py:120-153 | user and system are the shares of the utime and stime deltas, they add up to the total percentage, which is the share of the busy time; an unset bound is seeded with it, and a set bound only widens, to the old bound or the new value |
| Delta.ProcessCpu | pytop2.py:374-415 | a process on a core whose clock did not move gets all zeros, and otherwise the same figures as a thread |
| Delta.Iowait | pytop2.py:158-194 | iowait fails exactly when blkio moved and `ticks * delay` is 0; no movement gives zeros; an out-of-range ratio gives zeros; otherwise the value is the ratio, an unset bound is seeded with it, and a set bound only widens, to the old bound or the ratio |
| Delta.Decay | pytop2.py:199-213 | the idle filter: the exempt id is kept with counter 1; `-a` keeps the counter and never hides; an active entity resets to `-i`; an idle one counts down and is hidden at 0 |
| Delta.AfterIdleCountsDown | pytop2.py:205-211 | k idle refreshes take the counter down by k, stopping at 0 |
| Delta.HiddenAfterIgnoreIdleCycles | pytop2.py:205-213 | an entity active once and then idle is hidden on exactly the `-i`-th idle refresh and later |
| Delta.IdleNewcomerHidden | pytop2.py:205-211 | without `-a` an entity idle on its first refresh is hidden at once |
| Delta.CoreSharesSumTo100 | pytop2.py:648-655 | the six shares of a core, with nice's, add up to 100 percent |
| Passes.ThreadPassedOver | pytop2.py:93-117 | a thread that is not ready is passed over, changing nothing, exactly when the previous record's table was listed and lacks it, or both tables were listed and the current one lacks it or it is the lone main thread; otherwise it raises, reading a table that was never set included |
| Passes.ThreadEntryGuards | pytop2.py:93-117 | such a skipped thread leaves the pass unchanged, and a thread whose current record could not list its threads raises AttributeError |
| Passes.ProcessPassedOver | pytop2.py:346-383 | a pid that is not ready is passed over, changing nothing, exactly when it is missing from either snapshot or `-p` filters it out; otherwise it raises |
| Passes.ProcessEntryGuards | pytop2.py:346-383 | such a skipped pid leaves the pass unchanged, and an admitted pid whose core is missing from a snapshot raises |
| Passes.Truncate | pytop2.py:505-518 | the printed name is the first `min(21, len(name))` characters of the name |
| Passes.ShowsIff | pytop2.py:218-238 | an id counts as shown exactly when some process or thread row has it |
| Passes.EmitFound | pytop2.py:229-238 | `found` stays honest: it is set only once the selected id has been printed |
| Passes.ThreadRunRows | pytop2.py:93-327 | the thread table adds only thread rows of its process, never the lone main thread of a single-threaded process, and leaves the selection alone |
| Passes.ProcessEmitRows | pytop2.py:499-611 | a process row and its thread table add rows of that process only, admitted by the filter |
| Passes.ProcessRunFilter | pytop2.py:361-369 | with `-p PID`, every printed row belongs to PID or to the process owning thread PID, and the selection stays PID |
| Passes.ProcessDeltaFilter | pytop2.py:332-618 | the same for the whole process table |
| Passes.ProcessRunFound | pytop2.py:342-518 | across the process loop `found` is set only after the selected id was printed |
| Passes.ProcessDeltaKeepsOnlyShown | pytop2.py:487-489 | in auto-select mode a selection that survives a completed pass was printed in it; the clear at 616-618 drops any other |
| Passes.CoreRunBudget | pytop2.py:640-728 | the core table prints at most `max(1, lines)` lines, one per row plus the header |
| Passes.CpuDeltaBudget | pytop2.py:623-728 | the same for the whole core table, header included |
| Passes.ThreadRunBudget | pytop2.py:325-327 | the thread table counts one line per row and stops within the budget, or returns when it reaches it |
| Passes.ProcessRunBudget | pytop2.py:607-611 | the process loop goes at most one line past the budget and counts one line per row |
| Passes.ProcessDeltaBudget | pytop2.py:332-618 | the process table ends at most one line past `max(printed, lines)`, one line per row |
| History.Seeded | pytop2.py:734-738 | seeding adds the id with empty entries and leaves every other id alone |
| History.ThreadsUntouched | pytop2.py:749-768 | the thread loop leaves every id it does not list, and the process's own id, unchanged |
| History.OwnIdSkipped | pytop2.py:752-753 | a thread whose id is its process's id is never recorded by the thread loop |
| History.ThreadRecorded | pytop2.py:755-768 | a listed thread with a record gets exactly one sample appended, and its bounds become the record's |
| History.Reach | pytop2.py:731-741 | the pid loop runs up to the first pid without a record, which ends it |
| History.PidsUntouched | pytop2.py:731-768 | an id the loop never reaches keeps its entries |
| History.PidRecorded | pytop2.py:731-747 | a pid the loop processes gets exactly one sample appended, and its bounds become the record's |
| Histogram.First | pytop2.py:799-802 | the samples drawn are the last `columns - 10`, or all when fewer; with 10 columns or fewer the start is past the end, so none are |
| Histogram.Width | pytop2.py:799-830 | a row draws the last `columns - 10` samples, or all of them when fewer, or none when the screen is 10 columns or narrower |
| Histogram.GridShape | pytop2.py:770-830 | nothing is drawn with two rows or fewer left; otherwise there are `lines - printed - 1` rows, each as wide as the samples drawn |
| Histogram.DrawnBounds | pytop2.py:789-841 | the header and footer show the stored maximum and minimum of the selected id |
| Histogram.UnknownCell | pytop2.py:808-830 | a cell is `?` exactly when the range is empty or the sample is None |
| Histogram.FlatHistoryUnknown | pytop2.py:804-830 | with a maximum not above the minimum every cell is `?` |
| Histogram.FillsFromBottom | pytop2.py:808-830 | a `#` in a row means `#` in every row below it |
| Histogram.GridFillsFromBottom | pytop2.py:808-830 | the same over every column of a drawn grid |
| Histogram.ExtremeColumns | pytop2.py:808-830 | a sample at the maximum fills its column, and one at the minimum leaves it empty |
| Histogram.LabelSteps | pytop2.py:808-832 | the axis labels run from the maximum down in equal steps of range over height |
| Navigation.KeyMap | pytop2.py:1305-1325 | `k` and ESC [ A go up, `j` and ESC [ B go down, `q` quits, and no other key does any of these |
| Navigation.UpMoves | pytop2.py:853-864 | "up" selects the id printed just before the first occurrence of the selection, and stays on the first id |
| Navigation.DownMoves | pytop2.py:866-877 | "down" selects the id printed just after the first occurrence of the selection, and stays on the last id |
| Navigation.DownStuckOnRepeat | pytop2.py:866-877 | an id printed twice in a row, as the main thread of a multi-threaded process is, stops "down" on itself |
| Navigation.UnlistedSelectionStays | pytop2.py:850-880 | with no selection, or one not printed, neither key changes it |
| Navigation.UpRaises | pytop2.py:853-864 | "up" raises exactly when an entry that is not a number comes before the selection |
| Navigation.DownRaises | pytop2.py:866-877 | "down" raises exactly when an entry that is not a number is reached before the entry after the selection |
| Monitor.Monitor.constructor | pytop2.py:915-941 | without `-p`, or with `-p 0`, all pids are shown; the line budget is rows less 3; the iowait scale is ticks times delay; nothing is selected beyond `-p`, printed or recorded yet |
| Monitor.Monitor.DisplayCpuDelta | pytop2.py:623-728 | the core loop ends in the state `Passes.CpuDelta` describes, with the history untouched |
| Monitor.Monitor.DisplayThreadDelta | pytop2.py:93-327 | the thread loop ends in the state `Passes.ThreadRun` describes |
| Monitor.Monitor.ThreadStep | pytop2.py:105-153 | one thread's lookups and guards end as `Passes.ThreadEntry` says |
| Monitor.Monitor.ThreadCompute | pytop2.py:120-194 | a thread's CPU and iowait figures end as `Passes.ThreadFigures` says |
| Monitor.Monitor.ThreadMeasure | pytop2.py:141-213 | the record update and idle filter end as `Passes.ThreadMeasured` says |
| Monitor.Monitor.ThreadPrint | pytop2.py:218-327 | the row, `found`, the core switch and the budget end as `Passes.ThreadShown` says |
| Monitor.Monitor.DisplayProcessDelta | pytop2.py:332-618 | the process loop ends in the state `Passes.ProcessDelta` describes, with the history untouched |
| Monitor.Monitor.ProcessStep | pytop2.py:344-383 | one pid's lookups and filter end as `Passes.ProcessEntry` says |
| Monitor.Monitor.ProcessMeasure | pytop2.py:385-473 | a process's figures, record update and idle filter end as `Passes.ProcessMeasured` says |
| Monitor.Monitor.ProcessPrint | pytop2.py:481-505 | shown list, auto-select and name end as `Passes.ProcessShown` says |
| Monitor.Monitor.ProcessEmitRow | pytop2.py:507-611 | the row, `found`, the core switch, the budget and the thread table end as `Passes.ProcessEmit` says |
| Monitor.Monitor.AppendToHistory | pytop2.py:730-768 | the history becomes `History.Appended` of the old history and the snapshot; nothing else changes |
| Monitor.Monitor.AppendThreads | pytop2.py:749-768 | the thread loop leaves the history `History.ThreadsFrom` describes |
| Monitor.Monitor.DisplayHistogram | pytop2.py:770-841 | the chart drawn is `Histogram.Draw` of the history, the selection and the lines left |
| Monitor.Monitor.GridCells | pytop2.py:808-830 | one row of cells, one per sample from the start on, each the `Histogram.Cell` of its sample |
| Monitor.Monitor.Step | pytop2.py:958-976 | one refresh: a fault in the core table or the process table is an uncaught exception, which ends the program, with the history untouched; otherwise the history gains the snapshot and the chart is drawn unless `-H`; a chart that raises ends the program the same way; otherwise the key moves the selection as `Navigation.Handle` says and `q` quits |
| Monitor.Monitor.HandleUserInput | pytop2.py:850-880 | the selection moves as `Navigation.Handle` says, `q` quits, and nothing else changes |
| Monitor.Monitor.SelectPrevious | pytop2.py:853-864 | the "up" loop selects as `Navigation.UpFrom` says, or raises |
| Monitor.Monitor.SelectNext | pytop2.py:866-877 | the "down" loop selects as `Navigation.DownFrom` says, or raises |

## Left out

- Reading `/proc`: the contents of `/proc/stat`, the `/proc` listing, each pid's status line and task listing, and the threads' status lines are parameters of `Records.DecodeSnapshot`. A failed read is a missing entry.
- Command lines: `get_process_name` is a map from pid text to the filtered command line, passed to the process table. A pid whose `cmdline` could not be read is absent from the map.
- The terminal: `curses_read_raw`, `select`, `stty`, `os.system('clear')`, `time.sleep`, colours, escape codes and number formatting. The model's rows hold the values a row prints, not its text. Headers are counted as lines but not kept.
- Command-line parsing (`argparse`) and the one-shot `--one` mode (pytop2.py:946-953). The options are the constructor's parameters.
- `exit(0)` on `q` is the `quit` result of `Monitor.Monitor.Step`.
- Floating point: percentages are exact reals, so rounding is not modelled.
- Snapshots are values, so aliasing and in-place update of the previous snapshot are not modelled. The source's writes to the previous snapshot's records (seeding the bounds, setting `cpu_switch`) are not read again after the pass, so the model does not keep them.
- The four history dictionaries are one map from id to a `History.Trace`, because they are always written together under the same id.
- `cpu_switch` starts as None in the source and as false here. The value only reaches `cpu_switch_history`, which is appended to and never read (pytop2.py:736-766), so the difference is not observable.
- The thread table's exemption of the selected id (pytop2.py:199-200) never fires, because it compares an int with a string. Its write to the process record is left out with it.
- A process whose task directory cannot be listed keeps `threads` empty and never gets a `tstats` attribute in the source. The model gives it no threads, an empty table and `listed` false. Reading the table of such a record, as the thread loop of another snapshot's record may, is the AttributeError fault of `Passes.ThreadPassedOver`; its own thread loop is empty.
- The `hops` parameters of `Common.Quotient`, `Passes.ThreadFigures` and `Passes.ProcessFigures` exist only to keep the proofs small. Every caller passes 1.
- StatLineFields: the round trip (and DecodeStatLine's) is stated for lines as the kernel writes them: a pid without `(` or space, a state without `)` or space, and a command name without a newline. A name that itself holds `(` or `)` is decoded by `Records.DecodeTask` exactly as the source does, but no round trip is claimed for it, since the greedy pattern can then reach past the name.
- DecodeSnapshot: a core line that does not decode gives no snapshot at all. In the source, `get_cpus_snapshot` swallows the exception (pytop2.py:1172-1192): the snapshot is still built, with the cores read so far in `cpuinfo`, no `cpus` attribute, and its process table read as usual. The fault then shows up only when a later pass reads `cpus` or a missing core (pytop2.py:128, :382, :640-643), and not at all if the line budget returns first. The model does not keep that partial snapshot, so it does not capture a refresh that survives such a read.
- Monitor.Monitor.DisplayThreadDelta: requires the pid to have a record in the previous snapshot. The source would raise KeyError otherwise, but its only caller, the process loop, has already looked the record up.
