/**
 * What one refresh of the three tables computes: `display_cpu_delta`,
 * `display_process_delta` and `display_thread_delta` as functions from the
 * previous snapshot and the state they start in to the state they leave
 * (updated current snapshot, rows emitted, line count, selection). The
 * methods of the `Monitor` class (monitor.dfy) do the same work step by step
 * and are proved to end in exactly these states.
 */
module Passes {
  import opened Common
  import opened Text
  import opened Records
  import opened Delta

  /** The options and machine constants the passes read. */
  datatype Options = Options(
    allPids: bool,     // `all_pids`: no `-p` was given
    showAll: bool,     // `-a`
    ignore: int,       // `-i`
    ioScale: real,     // `ticks * delay`
    lines: int,        // terminal rows less 3
    columns: int,      // terminal columns
    noHistogram: bool) // `-H`

  /** A printed table row, with the values it shows (formatting and colour left out). */
  datatype Row =
    | CoreRow(core: int, use: CoreUse)
    | ProcessRow(id: int, pid: string, state: string, name: string, core: int,
        cpu: CpuUse, io: IoUse, movedFrom: Option<int>)
    | ThreadRow(id: int, owner: int, pid: string, state: string, name: string, core: int,
        cpu: CpuUse, io: IoUse, movedFrom: Option<int>)

  /**
   * The state a pass threads through: the current snapshot being annotated,
   * the rows emitted, `how_many_printed_lines`, `opts.pid`,
   * `found_user_selected_process`, whether the pass returned on the line
   * budget, and `ok` false once an exception has escaped.
   */
  datatype Pass = Pass(curr: Snapshot, rows: seq<Row>, printed: int, selected: Option<int>,
    found: bool, stop: bool, ok: bool)

  /** The current snapshot with process `pid`'s record replaced. */
  function PutProcess(s: Snapshot, pid: int, p: Process): (r: Snapshot)
  {
    s.(pstats := s.pstats[pid := p])
  }

  /** The current snapshot with thread `tid` of process `pid` replaced. */
  function PutThread(s: Snapshot, pid: int, tid: int, t: Task): (r: Snapshot)
    requires pid in s.pstats
  {
    var p := s.pstats[pid];
    PutProcess(s, pid, p.(tstats := p.tstats[tid := t]))
  }

  /**
   * A row is printed: it is appended, the line count goes up by one, and
   * `found_user_selected_process` is set when the row shows the selected id.
   */
  function Emit(st: Pass, curr: Snapshot, row: Row, stop: bool): (r: Pass)
    ensures r.rows == st.rows + [row] && r.printed == st.printed + 1
    ensures r.curr == curr && r.selected == st.selected && r.ok == st.ok && r.stop == stop
    ensures r.found <==> st.found || st.selected == Some(RowId(row))
  {
    st.(curr := curr, rows := st.rows + [row], printed := st.printed + 1,
      found := st.found || st.selected == Some(RowId(row)), stop := stop)
  }

  // ---------------------------------------------------------------------
  // display_cpu_delta
  // ---------------------------------------------------------------------

  /**
   * One core. A core missing from the current snapshot raises KeyError, a
   * zero clock delta raises ZeroDivisionError (the six divisions come before
   * the idle test). Otherwise the decay counter is updated and a row emitted.
   */
  function CoreEntry(o: Options, last: Snapshot, core: nat, st: Pass): (r: Pass)
    requires core < |last.cpus|
  {
    if core >= |st.curr.cpus| then st.(ok := false)
    else
      var c0 := last.cpus[core];
      var c1 := st.curr.cpus[core];
      var total := c1.clock - c0.clock;
      if total == 0 then st.(ok := false)
      else
        var d := Decay(false, o.showAll, c0.didSomething, total == 0, o.ignore);
        var curr := st.curr.(cpus := st.curr.cpus[core := c1.(didSomething := d.did)]);
        if d.skip then st.(curr := curr)
        else
          st.(curr := curr, rows := st.rows + [CoreRow(core, CoreShares(c0, c1))],
            printed := st.printed + 1, stop := st.printed + 1 >= o.lines)
  }

  /** The cores from `core` on, until the budget is reached or an exception escapes. */
  function CoreRun(o: Options, last: Snapshot, core: nat, st: Pass): (r: Pass)
    requires core <= |last.cpus|
    decreases |last.cpus| - core
  {
    if core == |last.cpus| || st.stop || !st.ok then st
    else CoreRun(o, last, core + 1, CoreEntry(o, last, core, st))
  }

  /** `display_cpu_delta`: the header line, then one row per core. */
  function CpuDelta(o: Options, last: Snapshot, st: Pass): (r: Pass)
  {
    var start := st.(rows := [], printed := 1, stop := false, ok := true);
    if 1 >= o.lines then start.(stop := true) else CoreRun(o, last, 0, start)
  }

  // ---------------------------------------------------------------------
  // display_thread_delta
  // ---------------------------------------------------------------------

  /**
   * The lookups and guards of one thread step all pass: both records' task
   * directories were listed, the thread is in both tables, it is not the lone
   * main thread of a single-threaded process, its core is in both snapshots
   * and that core's clock moved.
   */
  predicate ThreadReady(last: Snapshot, pid: int, pl: Process, tid: int, st: Pass)
  {
    pid in st.curr.pstats && pl.listed && tid in pl.tstats
    && st.curr.pstats[pid].listed && tid in st.curr.pstats[pid].tstats
    && !(pl.tstats[tid].pid == pl.task.pid && |pl.threads| == 1)
    && 0 <= pl.tstats[tid].cpu < |last.cpus| && pl.tstats[tid].cpu < |st.curr.cpus|
    && st.curr.cpus[pl.tstats[tid].cpu].clock != last.cpus[pl.tstats[tid].cpu].clock
  }

  /**
   * One thread of process `pid`. The thread path has no zero-clock guard, so a
   * zero clock delta raises. The selected-pid exemption of this path compares
   * an integer with the record's pid text, which Python 2 never finds equal,
   * so every thread goes through the idle filter.
   */
  function ThreadEntry(o: Options, last: Snapshot, pid: int, pl: Process, tid: int, st: Pass): (r: Pass)
  {
    if ThreadReady(last, pid, pl, tid, st) then
      var tl := pl.tstats[tid];
      ThreadFigures(o, pid, tid, tl, st.curr.pstats[pid].tstats[tid],
        st.curr.cpus[tl.cpu].clock - last.cpus[tl.cpu].clock, st, 1)
    else ThreadPassedOver(last, pid, pl, tid, st)
  }

  /**
   * The guards at pytop2.py:107-117 that skip a thread without raising: it is
   * missing from the previous record's table or from the current one's, or it
   * is the main thread of a single-threaded process. A table is only read if
   * its record's listing succeeded; reading one that was never set raises.
   */
  predicate ThreadSkipped(pl: Process, pc: Process, tid: int)
  {
    pl.listed && (tid !in pl.tstats
      || (pc.listed && (tid !in pc.tstats || (pl.tstats[tid].pid == pl.task.pid && |pl.threads| == 1))))
  }

  /**
   * A thread step that is not ready: a skipped thread is passed over. Anything
   * else raises: reading the table of a record whose listing failed raises
   * AttributeError, a pid missing from the current snapshot (which the caller
   * never allows) or a core missing from a snapshot KeyError, and a zero clock
   * delta ZeroDivisionError.
   */
  function ThreadPassedOver(last: Snapshot, pid: int, pl: Process, tid: int, st: Pass): (r: Pass)
    ensures pid in st.curr.pstats && ThreadSkipped(pl, st.curr.pstats[pid], tid) ==> r == st
    ensures !(pid in st.curr.pstats && ThreadSkipped(pl, st.curr.pstats[pid], tid)) ==> r == st.(ok := false)
  {
    if pid !in st.curr.pstats || !pl.listed then st.(ok := false)
    else if tid !in pl.tstats then st
    else
      var pc := st.curr.pstats[pid];
      if !pc.listed then st.(ok := false)
      else if tid !in pc.tstats then st
      else if pl.tstats[tid].pid == pl.task.pid && |pl.threads| == 1 then st
      else st.(ok := false)
  }

  /**
   * The thread's CPU figures against the core's clock delta and its iowait;
   * iowait raises when the blkio count moved and `ticks * delay` is 0. As with
   * `Quotient`, the figures sit `hops` recursive steps down (callers pass 1), so
   * proofs about the thread loop see the arithmetic only where they ask for it.
   */
  function ThreadFigures(o: Options, pid: int, tid: int, tl: Task, tc: Task, total: int, st: Pass, hops: nat): (r: Pass)
    requires pid in st.curr.pstats && total != 0
    decreases hops
  {
    if hops > 0 then ThreadFigures(o, pid, tid, tl, tc, total, st, hops - 1)
    else
    var io := Iowait(tl, tc, o.ioScale);
    if io.None? then st.(ok := false)
    else ThreadMeasured(o, pid, tid, tl, tc, CpuAgainst(tl, tc, total), io.value, st)
  }

  /**
   * The rest of a thread's step once its figures are known: the record update,
   * the idle filter, then the row.
   */
  function ThreadMeasured(o: Options, pid: int, tid: int, tl: Task, tc: Task, c: CpuUse, io: IoUse, st: Pass): (r: Pass)
    requires pid in st.curr.pstats
  {
    var d := Decay(false, o.showAll, tl.didSomething, c.pct == 0.0 && io.pct == 0.0, o.ignore);
    var t := Updated(tc, c, io, d.did);
    var st1 := st.(curr := PutThread(st.curr, pid, tid, t));
    if d.skip then st1 else ThreadShown(o, pid, tid, tl, tc, c, io, t, st1)
  }

  /**
   * A thread that passed the idle filter: its pid text is recorded as shown,
   * then its row is printed. `int(pid)` on the record's pid text raises when
   * the text is not a number.
   */
  function ThreadShown(o: Options, pid: int, tid: int, tl: Task, tc: Task, c: CpuUse, io: IoUse, t: Task, st: Pass): (r: Pass)
    requires pid in st.curr.pstats
  {
    var curr := st.curr.(shown := st.curr.shown + [tl.pid]);
    var id := ParseInt(tl.pid);
    if id.None? then st.(curr := curr, ok := false)
    else
      var moved := tl.cpu != tc.cpu;
      var row := ThreadRow(id.value, pid, tl.pid, tl.state, tl.name, tc.cpu, c, io,
        if moved then Some(tl.cpu) else None);
      Emit(st, PutThread(curr, pid, tid, if moved then t.(cpuSwitch := true) else t), row, st.printed + 1 >= o.lines)
  }

  /** `display_thread_delta`: the threads listed in the previous record, in order. */
  function ThreadRun(o: Options, last: Snapshot, pid: int, pl: Process, tids: seq<int>, st: Pass): (r: Pass)
    decreases |tids|
  {
    if tids == [] || st.stop || !st.ok then st
    else ThreadRun(o, last, pid, pl, tids[1..], ThreadEntry(o, last, pid, pl, tids[0], st))
  }

  /**
   * A skipped thread leaves the pass as it was; a thread of the previous
   * record whose current record could not list its threads raises.
   */
  lemma ThreadEntryGuards(o: Options, last: Snapshot, pid: int, pl: Process, tid: int, st: Pass)
    requires pid in st.curr.pstats
    ensures ThreadSkipped(pl, st.curr.pstats[pid], tid) ==> ThreadEntry(o, last, pid, pl, tid, st) == st
    ensures pl.listed && tid in pl.tstats && !st.curr.pstats[pid].listed ==>
      ThreadEntry(o, last, pid, pl, tid, st) == st.(ok := false)
  {
  }

  /** A ready thread step is its figures, with the hop taken. */
  lemma ThreadEntryFigures(o: Options, last: Snapshot, pid: int, pl: Process, tid: int, st: Pass)
    returns (tl: Task, tc: Task, total: int)
    requires ThreadReady(last, pid, pl, tid, st)
    ensures pid in st.curr.pstats && tid in pl.tstats && tid in st.curr.pstats[pid].tstats
    ensures tl == pl.tstats[tid] && tc == st.curr.pstats[pid].tstats[tid]
    ensures total == st.curr.cpus[tl.cpu].clock - last.cpus[tl.cpu].clock && total != 0
    ensures !(tl.pid == pl.task.pid && |pl.threads| == 1)
    ensures ThreadEntry(o, last, pid, pl, tid, st) == ThreadFigures(o, pid, tid, tl, tc, total, st, 0)
  {
    tl := pl.tstats[tid];
    tc := st.curr.pstats[pid].tstats[tid];
    total := st.curr.cpus[tl.cpu].clock - last.cpus[tl.cpu].clock;
    assert ThreadFigures(o, pid, tid, tl, tc, total, st, 1) == ThreadFigures(o, pid, tid, tl, tc, total, st, 0);
  }

  // ---------------------------------------------------------------------
  // display_process_delta
  // ---------------------------------------------------------------------

  /** With `-p`, a process that is neither the selected pid nor owns it as a thread is filtered out. */
  predicate FilteredOut(o: Options, selected: Option<int>, pid: int, pl: Process)
  {
    !o.allPids && selected.Some? && selected.value != pid && selected.value !in pl.threads
  }

  /** The command line if it could be read and is not empty, else the record's name. */
  function DisplayName(names: map<string, string>, pl: Process): string
  {
    if pl.task.pid in names && names[pl.task.pid] != "" then names[pl.task.pid] else pl.task.name
  }

  /** `name[:21]`. */
  function Truncate(name: string): (r: string)
    ensures |r| == Min(21, |name|) && r == name[..|r|]
  {
    if |name| <= 21 then name else name[..21]
  }

  /** The lookups and guards of one pid all pass: it is in both snapshots, the filter admits it, and its core is in both. */
  predicate ProcessReady(o: Options, last: Snapshot, pid: int, st: Pass)
  {
    pid in last.pstats && pid in st.curr.pstats && !FilteredOut(o, st.selected, pid, last.pstats[pid])
    && 0 <= last.pstats[pid].task.cpu < |last.cpus| && last.pstats[pid].task.cpu < |st.curr.cpus|
  }

  /**
   * One pid of the previous snapshot: transient and filtered pids are passed
   * over; the percentages, bounds and decay are written into the current
   * record; a row is emitted unless the entity is idle or has no name; the
   * line budget is checked; then the process's threads follow.
   */
  function ProcessEntry(o: Options, last: Snapshot, names: map<string, string>, pid: int, st: Pass): (r: Pass)
  {
    if ProcessReady(o, last, pid, st) then
      var pl := last.pstats[pid];
      ProcessFigures(o, last, names, pid, pl, st.curr.pstats[pid],
        st.curr.cpus[pl.task.cpu].clock - last.cpus[pl.task.cpu].clock, st, 1)
    else ProcessPassedOver(o, last, pid, st)
  }

  /**
   * The guards at pytop2.py:352-370 that skip a pid without raising: it is
   * missing from either snapshot, or `-p` filters it out.
   */
  predicate ProcessSkipped(o: Options, last: Snapshot, pid: int, st: Pass)
  {
    pid !in last.pstats || pid !in st.curr.pstats || FilteredOut(o, st.selected, pid, last.pstats[pid])
  }

  /**
   * A pid that is not ready: a skipped pid is passed over; otherwise its core
   * is missing from a snapshot, which raises KeyError.
   */
  function ProcessPassedOver(o: Options, last: Snapshot, pid: int, st: Pass): (r: Pass)
    ensures ProcessSkipped(o, last, pid, st) ==> r == st
    ensures !ProcessSkipped(o, last, pid, st) ==> r == st.(ok := false)
  {
    if pid !in last.pstats then st
    else if pid !in st.curr.pstats then st
    else if FilteredOut(o, st.selected, pid, last.pstats[pid]) then st
    else st.(ok := false)
  }

  /**
   * A skipped pid leaves the pass as it was; a pid in both snapshots and
   * admitted by the filter whose core is missing from a snapshot raises.
   */
  lemma ProcessEntryGuards(o: Options, last: Snapshot, names: map<string, string>, pid: int, st: Pass)
    ensures ProcessSkipped(o, last, pid, st) ==> ProcessEntry(o, last, names, pid, st) == st
    ensures !ProcessSkipped(o, last, pid, st) && !(0 <= last.pstats[pid].task.cpu < |last.cpus|) ==>
      ProcessEntry(o, last, names, pid, st) == st.(ok := false)
    ensures !ProcessSkipped(o, last, pid, st) && last.pstats[pid].task.cpu >= |st.curr.cpus| ==>
      ProcessEntry(o, last, names, pid, st) == st.(ok := false)
  {
  }

  /**
   * The process's CPU figures against the core's clock delta (all 0 when it
   * did not move) and its iowait, `hops` recursive steps down as in
   * `ThreadFigures`.
   */
  function ProcessFigures(o: Options, last: Snapshot, names: map<string, string>, pid: int,
    pl: Process, pc: Process, total: int, st: Pass, hops: nat): (r: Pass)
    decreases hops
  {
    if hops > 0 then ProcessFigures(o, last, names, pid, pl, pc, total, st, hops - 1)
    else
    var io := Iowait(pl.task, pc.task, o.ioScale);
    if io.None? then st.(ok := false)
    else ProcessMeasured(o, last, names, pid, pl, pc, ProcessCpu(pl.task, pc.task, total), io.value, st)
  }

  /** The rest of a pid's step once its CPU and iowait figures are known. */
  function ProcessMeasured(o: Options, last: Snapshot, names: map<string, string>, pid: int,
    pl: Process, pc: Process, c: CpuUse, io: IoUse, st: Pass): (r: Pass)
  {
    var d := Decay(st.selected == Some(pid), o.showAll, pl.task.didSomething,
      c.pct == 0.0 && io.pct == 0.0, o.ignore);
    var t := Updated(pc.task, c, io, d.did);
    var st1 := st.(curr := PutProcess(st.curr, pid, pc.(task := t)));
    if d.skip then st1 else ProcessShown(o, last, names, pid, pl, pc, t, c, io, st1)
  }

  /**
   * A process that passed the idle filter: its pid text is recorded as shown,
   * auto mode selects it when nothing is selected yet, and its row follows
   * unless it has no name to print.
   */
  function ProcessShown(o: Options, last: Snapshot, names: map<string, string>, pid: int,
    pl: Process, pc: Process, t: Task, c: CpuUse, io: IoUse, st: Pass): (r: Pass)
  {
    var selected := if o.allPids && st.selected.None? then Some(pid) else st.selected;
    var st2 := st.(curr := st.curr.(shown := st.curr.shown + [pl.task.pid]), selected := selected);
    var name := DisplayName(names, pl);
    if name == "" then st2
    else ProcessEmit(o, last, pid, pl, pc, t, c, io, name, st2)
  }

  /** A process row: the row, the CPU-switch mark, the budget check, then the process's threads. */
  function ProcessEmit(o: Options, last: Snapshot, pid: int, pl: Process, pc: Process,
    t: Task, c: CpuUse, io: IoUse, name: string, st: Pass): (r: Pass)
  {
    var moved := pl.task.cpu != pc.task.cpu;
    var row := ProcessRow(pid, pl.task.pid, pl.task.state, Truncate(name), pc.task.cpu, c, io,
      if moved then Some(pl.task.cpu) else None);
    var st3 := Emit(st, PutProcess(st.curr, pid, pc.(task := if moved then t.(cpuSwitch := true) else t)),
      row, st.printed + 1 >= o.lines);
    if st3.stop then st3
    else ThreadRun(o, last, pid, pl, pl.threads, st3).(stop := false)
  }

  /** The pids of the previous snapshot, in order, until the budget is reached or an exception escapes. */
  function ProcessRun(o: Options, last: Snapshot, names: map<string, string>, pids: seq<int>, st: Pass): (r: Pass)
    decreases |pids|
  {
    if pids == [] || st.stop || !st.ok then st
    else ProcessRun(o, last, names, pids[1..], ProcessEntry(o, last, names, pids[0], st))
  }

  /**
   * `display_process_delta`: the process table, then, in auto-select mode, a
   * selection that was not printed is dropped (not when the pass returned on
   * the budget).
   */
  function ProcessDelta(o: Options, last: Snapshot, names: map<string, string>, st: Pass): (r: Pass)
  {
    var run := ProcessRun(o, last, names, last.pids, st.(rows := [], found := false, stop := false, ok := true));
    if run.ok && !run.stop && !run.found && o.allPids then run.(selected := None) else run
  }

  // ---------------------------------------------------------------------
  // What the passes guarantee
  // ---------------------------------------------------------------------

  /** The id a row shows: the core number, the pid, or the thread id. */
  function RowId(row: Row): int
  {
    if row.CoreRow? then row.core else row.id
  }

  /** The process a row belongs to: itself, or the owner of a thread row. */
  function RowOwner(row: Row): int
  {
    if row.ThreadRow? then row.owner else RowId(row)
  }

  /** The ids the process and thread rows of `rows` show. */
  function ShownIds(rows: seq<Row>): set<int>
    decreases |rows|
  {
    if rows == [] then {}
    else
      var row := rows[|rows| - 1];
      ShownIds(rows[..|rows| - 1]) + if row.CoreRow? then {} else {RowId(row)}
  }

  /** Some process or thread row shows id `v`. */
  predicate Shows(rows: seq<Row>, v: int)
  {
    v in ShownIds(rows)
  }

  /** `Shows` is exactly "some process or thread row of `rows` has id `v`". */
  lemma {:induction false} ShowsIff(rows: seq<Row>, v: int)
    ensures Shows(rows, v) <==> exists k | 0 <= k < |rows| :: !rows[k].CoreRow? && RowId(rows[k]) == v
    decreases |rows|
  {
    if rows != [] {
      var init := rows[..|rows| - 1];
      ShowsIff(init, v);
      if exists k | 0 <= k < |init| :: !init[k].CoreRow? && RowId(init[k]) == v {
        var k :| 0 <= k < |init| && !init[k].CoreRow? && RowId(init[k]) == v;
        assert rows[k] == init[k];
      }
      if exists k | 0 <= k < |rows| :: !rows[k].CoreRow? && RowId(rows[k]) == v {
        var k :| 0 <= k < |rows| && !rows[k].CoreRow? && RowId(rows[k]) == v;
        if k < |init| {
          assert init[k] == rows[k];
        }
      }
    }
  }

  /** `found_user_selected_process` is only set once the selected id has been printed. */
  predicate FoundIsShown(st: Pass)
  {
    st.found ==> st.selected.Some? && Shows(st.rows, st.selected.value)
  }

  /** A row the thread table may emit for process `pid`: never the lone main thread of a single-threaded process. */
  predicate ThreadRowOf(row: Row, pid: int, pl: Process)
  {
    row.ThreadRow? && row.owner == pid
    && !(row.pid == pl.task.pid && |pl.threads| == 1)
  }

  /** `r` keeps the rows of `st` and adds only thread rows of `pid`; the selection is untouched. */
  predicate AddsThreadRows(st: Pass, r: Pass, pid: int, pl: Process)
  {
    |r.rows| >= |st.rows| && r.rows[..|st.rows|] == st.rows
    && (forall k | |st.rows| <= k < |r.rows| :: ThreadRowOf(r.rows[k], pid, pl))
    && r.selected == st.selected
    && (FoundIsShown(st) ==> FoundIsShown(r))
  }

  /** Appending rows never hides an id already shown. */
  lemma {:induction false} ShowsGrows(rows: seq<Row>, more: seq<Row>, v: int)
    requires |more| >= |rows| && more[..|rows|] == rows && Shows(rows, v)
    ensures Shows(more, v)
    decreases |more|
  {
    if |more| > |rows| {
      var init := more[..|more| - 1];
      assert init[..|rows|] == rows;
      ShowsGrows(rows, init, v);
      assert ShownIds(init) <= ShownIds(more);
    } else {
      assert more == more[..|rows|];
    }
  }

  /** A printed row keeps `found` honest: it is set only by a row that shows the selected id. */
  lemma EmitFound(st: Pass, curr: Snapshot, row: Row, stop: bool)
    requires !row.CoreRow? && FoundIsShown(st)
    ensures FoundIsShown(Emit(st, curr, row, stop))
  {
    var r := Emit(st, curr, row, stop);
    assert r.rows[..|st.rows|] == st.rows;
    if r.found && st.found {
      ShowsGrows(st.rows, r.rows, st.selected.value);
    }
  }

  lemma ThreadShownRows(o: Options, pid: int, pl: Process, tid: int, tl: Task, tc: Task, c: CpuUse, io: IoUse, t: Task, st: Pass)
    requires pid in st.curr.pstats && !(tl.pid == pl.task.pid && |pl.threads| == 1)
    ensures AddsThreadRows(st, ThreadShown(o, pid, tid, tl, tc, c, io, t, st), pid, pl)
  {
    var r := ThreadShown(o, pid, tid, tl, tc, c, io, t, st);
    if ParseInt(tl.pid).Some? {
      assert r.rows[..|st.rows|] == st.rows;
      if FoundIsShown(st) {
        EmitFound(st, r.curr, r.rows[|st.rows|], r.stop);
      }
    }
  }

  lemma ThreadMeasuredRows(o: Options, pid: int, pl: Process, tid: int, tl: Task, tc: Task, c: CpuUse, io: IoUse, st: Pass)
    requires pid in st.curr.pstats && !(tl.pid == pl.task.pid && |pl.threads| == 1)
    ensures AddsThreadRows(st, ThreadMeasured(o, pid, tid, tl, tc, c, io, st), pid, pl)
  {
    var d := Decay(false, o.showAll, tl.didSomething, c.pct == 0.0 && io.pct == 0.0, o.ignore);
    var t := Updated(tc, c, io, d.did);
    var st1 := st.(curr := PutThread(st.curr, pid, tid, t));
    if !d.skip {
      ThreadShownRows(o, pid, pl, tid, tl, tc, c, io, t, st1);
    }
  }

  /** A step that prints nothing and leaves the selection alone adds no rows. */
  lemma AddsNoThreadRows(st: Pass, r: Pass, pid: int, pl: Process)
    requires r.rows == st.rows && r.selected == st.selected && r.found == st.found
    ensures AddsThreadRows(st, r, pid, pl)
  {
  }

  lemma {:induction false} ThreadFiguresRows(o: Options, pid: int, pl: Process, tid: int, tl: Task, tc: Task, total: int, st: Pass, hops: nat)
    requires pid in st.curr.pstats && total != 0 && !(tl.pid == pl.task.pid && |pl.threads| == 1)
    ensures AddsThreadRows(st, ThreadFigures(o, pid, tid, tl, tc, total, st, hops), pid, pl)
    decreases hops
  {
    if hops > 0 {
      ThreadFiguresRows(o, pid, pl, tid, tl, tc, total, st, hops - 1);
      return;
    }
    var io := Iowait(tl, tc, o.ioScale);
    if io.Some? {
      ThreadMeasuredRows(o, pid, pl, tid, tl, tc, CpuAgainst(tl, tc, total), io.value, st);
    }
  }

  lemma ThreadPassedOverRows(last: Snapshot, pid: int, pl: Process, tid: int, st: Pass)
    ensures AddsThreadRows(st, ThreadPassedOver(last, pid, pl, tid, st), pid, pl)
  {
    AddsNoThreadRows(st, st, pid, pl);
    AddsNoThreadRows(st, st.(ok := false), pid, pl);
  }

  lemma ThreadEntryRows(o: Options, last: Snapshot, pid: int, pl: Process, tid: int, st: Pass)
    ensures AddsThreadRows(st, ThreadEntry(o, last, pid, pl, tid, st), pid, pl)
  {
    if ThreadReady(last, pid, pl, tid, st) {
      ThreadReadyRows(o, last, pid, pl, tid, st);
    } else {
      ThreadIdleRows(o, last, pid, pl, tid, st);
    }
  }

  lemma ThreadReadyRows(o: Options, last: Snapshot, pid: int, pl: Process, tid: int, st: Pass)
    requires ThreadReady(last, pid, pl, tid, st)
    ensures AddsThreadRows(st, ThreadEntry(o, last, pid, pl, tid, st), pid, pl)
  {
    var tl, tc, total := ThreadEntryFigures(o, last, pid, pl, tid, st);
    ThreadFiguresRows(o, pid, pl, tid, tl, tc, total, st, 0);
  }

  lemma ThreadIdleRows(o: Options, last: Snapshot, pid: int, pl: Process, tid: int, st: Pass)
    requires !ThreadReady(last, pid, pl, tid, st)
    ensures AddsThreadRows(st, ThreadEntry(o, last, pid, pl, tid, st), pid, pl)
  {
    ThreadPassedOverRows(last, pid, pl, tid, st);
  }

  /**
   * The thread table only adds rows for threads of its process, never the
   * main thread of a single-threaded process again, and leaves the selection alone.
   */
  lemma {:induction false} ThreadRunRows(o: Options, last: Snapshot, pid: int, pl: Process, tids: seq<int>, st: Pass)
    ensures AddsThreadRows(st, ThreadRun(o, last, pid, pl, tids, st), pid, pl)
    decreases |tids|
  {
    if !(tids == [] || st.stop || !st.ok) {
      var e := ThreadEntry(o, last, pid, pl, tids[0], st);
      ThreadEntryRows(o, last, pid, pl, tids[0], st);
      ThreadRunRows(o, last, pid, pl, tids[1..], e);
      AddsThreadRowsChain(st, e, ThreadRun(o, last, pid, pl, tids[1..], e), pid, pl);
    }
  }

  lemma AddsThreadRowsChain(a: Pass, b: Pass, c: Pass, pid: int, pl: Process)
    requires AddsThreadRows(a, b, pid, pl) && AddsThreadRows(b, c, pid, pl)
    ensures AddsThreadRows(a, c, pid, pl)
  {
    assert c.rows[..|b.rows|][..|a.rows|] == c.rows[..|a.rows|];
  }

  /** A process row belongs to a process that passes the `-p` filter. */
  predicate Admitted(o: Options, last: Snapshot, selected: Option<int>, row: Row)
  {
    RowOwner(row) in last.pstats && !FilteredOut(o, selected, RowOwner(row), last.pstats[RowOwner(row)])
  }

  /**
   * What one pid adds: rows of that pid and its threads only, of a process the
   * filter admits; the selection changes only in auto mode, from none to this pid.
   */
  predicate AddsProcessRows(o: Options, last: Snapshot, st: Pass, r: Pass, pid: int)
  {
    |r.rows| >= |st.rows| && r.rows[..|st.rows|] == st.rows
    && (forall k | |st.rows| <= k < |r.rows| :: RowOwner(r.rows[k]) == pid && Admitted(o, last, st.selected, r.rows[k]))
    && (r.selected == st.selected || (o.allPids && st.selected.None? && r.selected == Some(pid)))
    && (FoundIsShown(st) ==> FoundIsShown(r))
  }

  lemma ProcessEmitRows(o: Options, last: Snapshot, pid: int, pl: Process, pc: Process,
    t: Task, c: CpuUse, io: IoUse, name: string, st: Pass)
    requires pid in last.pstats && pl == last.pstats[pid] && !FilteredOut(o, st.selected, pid, pl)
    ensures AddsProcessRows(o, last, st, ProcessEmit(o, last, pid, pl, pc, t, c, io, name, st), pid)
  {
    var moved := pl.task.cpu != pc.task.cpu;
    var row := ProcessRow(pid, pl.task.pid, pl.task.state, Truncate(name), pc.task.cpu, c, io,
      if moved then Some(pl.task.cpu) else None);
    var curr := PutProcess(st.curr, pid, pc.(task := if moved then t.(cpuSwitch := true) else t));
    var st3 := Emit(st, curr, row, st.printed + 1 >= o.lines);
    EmitProcessRow(o, last, st, curr, row, st.printed + 1 >= o.lines, pid);
    if !st3.stop {
      ThreadsAfterRow(o, last, pid, pl, st, st3);
    }
  }

  /** The process row itself: a row of `pid`, which the filter admits. */
  lemma EmitProcessRow(o: Options, last: Snapshot, st: Pass, curr: Snapshot, row: Row, stop: bool, pid: int)
    requires row.ProcessRow? && row.id == pid && Admitted(o, last, st.selected, row)
    ensures AddsProcessRows(o, last, st, Emit(st, curr, row, stop), pid)
  {
    var r := Emit(st, curr, row, stop);
    assert r.rows[..|st.rows|] == st.rows;
    if FoundIsShown(st) {
      EmitFound(st, curr, row, stop);
    }
  }

  /** The thread table under an admitted process row only adds rows of that process. */
  lemma ThreadsAfterRow(o: Options, last: Snapshot, pid: int, pl: Process, st: Pass, st3: Pass)
    requires pid in last.pstats && pl == last.pstats[pid] && !FilteredOut(o, st.selected, pid, pl)
    requires AddsProcessRows(o, last, st, st3, pid) && st3.selected == st.selected
    ensures AddsProcessRows(o, last, st, ThreadRun(o, last, pid, pl, pl.threads, st3).(stop := false), pid)
  {
    ThreadRunRows(o, last, pid, pl, pl.threads, st3);
    ThreadRowsAdmitted(o, last, pid, pl, st, st3, ThreadRun(o, last, pid, pl, pl.threads, st3));
  }

  lemma ThreadRowsAdmitted(o: Options, last: Snapshot, pid: int, pl: Process, st: Pass, st3: Pass, r: Pass)
    requires pid in last.pstats && pl == last.pstats[pid] && !FilteredOut(o, st.selected, pid, pl)
    requires AddsProcessRows(o, last, st, st3, pid) && st3.selected == st.selected
    requires AddsThreadRows(st3, r, pid, pl)
    ensures AddsProcessRows(o, last, st, r.(stop := false), pid)
  {
    assert r.rows[..|st3.rows|][..|st.rows|] == r.rows[..|st.rows|];
    assert forall k | |st.rows| <= k < |r.rows| :: k < |st3.rows| || ThreadRowOf(r.rows[k], pid, pl);
  }

  lemma ProcessMeasuredRows(o: Options, last: Snapshot, names: map<string, string>, pid: int,
    pl: Process, pc: Process, c: CpuUse, io: IoUse, st: Pass)
    requires pid in last.pstats && pl == last.pstats[pid] && !FilteredOut(o, st.selected, pid, pl)
    ensures AddsProcessRows(o, last, st, ProcessMeasured(o, last, names, pid, pl, pc, c, io, st), pid)
  {
    var d := Decay(st.selected == Some(pid), o.showAll, pl.task.didSomething,
      c.pct == 0.0 && io.pct == 0.0, o.ignore);
    var t := Updated(pc.task, c, io, d.did);
    var st1 := st.(curr := PutProcess(st.curr, pid, pc.(task := t)));
    if !d.skip {
      ProcessShownRows(o, last, names, pid, pl, pc, t, c, io, st1);
    }
  }

  lemma ProcessShownRows(o: Options, last: Snapshot, names: map<string, string>, pid: int,
    pl: Process, pc: Process, t: Task, c: CpuUse, io: IoUse, st: Pass)
    requires pid in last.pstats && pl == last.pstats[pid] && !FilteredOut(o, st.selected, pid, pl)
    ensures AddsProcessRows(o, last, st, ProcessShown(o, last, names, pid, pl, pc, t, c, io, st), pid)
  {
    var selected := if o.allPids && st.selected.None? then Some(pid) else st.selected;
    var st2 := st.(curr := st.curr.(shown := st.curr.shown + [pl.task.pid]), selected := selected);
    var name := DisplayName(names, pl);
    var r := ProcessShown(o, last, names, pid, pl, pc, t, c, io, st);
    if name != "" {
      assert !FilteredOut(o, st2.selected, pid, pl);
      ProcessEmitRows(o, last, pid, pl, pc, t, c, io, name, st2);
      assert r == ProcessEmit(o, last, pid, pl, pc, t, c, io, name, st2);
    } else {
      AddsNoProcessRows(o, last, st2, st2, pid);
      assert r == st2;
    }
    Reselected(o, last, st, st2, r, pid);
  }

  /** Auto mode's selection of the pid being shown keeps what the pid adds within bounds. */
  lemma Reselected(o: Options, last: Snapshot, st: Pass, st2: Pass, r: Pass, pid: int)
    requires st2.rows == st.rows && st2.found == st.found
    requires st2.selected == st.selected || (o.allPids && st.selected.None? && st2.selected == Some(pid))
    requires AddsProcessRows(o, last, st2, r, pid)
    ensures AddsProcessRows(o, last, st, r, pid)
  {
  }

  lemma {:induction false} ProcessFiguresRows(o: Options, last: Snapshot, names: map<string, string>, pid: int,
    pl: Process, pc: Process, total: int, st: Pass, hops: nat)
    requires pid in last.pstats && pl == last.pstats[pid] && !FilteredOut(o, st.selected, pid, pl)
    ensures AddsProcessRows(o, last, st, ProcessFigures(o, last, names, pid, pl, pc, total, st, hops), pid)
    decreases hops
  {
    if hops > 0 {
      ProcessFiguresRows(o, last, names, pid, pl, pc, total, st, hops - 1);
      return;
    }
    var io := Iowait(pl.task, pc.task, o.ioScale);
    if io.Some? {
      ProcessMeasuredRows(o, last, names, pid, pl, pc, ProcessCpu(pl.task, pc.task, total), io.value, st);
    }
  }

  lemma ProcessEntryRows(o: Options, last: Snapshot, names: map<string, string>, pid: int, st: Pass)
    ensures AddsProcessRows(o, last, st, ProcessEntry(o, last, names, pid, st), pid)
  {
    if ProcessReady(o, last, pid, st) {
      ProcessReadyRows(o, last, names, pid, st);
    } else {
      ProcessIdleRows(o, last, names, pid, st);
    }
  }

  lemma ProcessReadyRows(o: Options, last: Snapshot, names: map<string, string>, pid: int, st: Pass)
    requires ProcessReady(o, last, pid, st)
    ensures AddsProcessRows(o, last, st, ProcessEntry(o, last, names, pid, st), pid)
  {
    var pl := last.pstats[pid];
    ProcessFiguresRows(o, last, names, pid, pl, st.curr.pstats[pid],
      st.curr.cpus[pl.task.cpu].clock - last.cpus[pl.task.cpu].clock, st, 1);
  }

  lemma ProcessIdleRows(o: Options, last: Snapshot, names: map<string, string>, pid: int, st: Pass)
    requires !ProcessReady(o, last, pid, st)
    ensures AddsProcessRows(o, last, st, ProcessEntry(o, last, names, pid, st), pid)
  {
    AddsNoProcessRows(o, last, st, st, pid);
    AddsNoProcessRows(o, last, st, st.(ok := false), pid);
  }

  /** A step that prints nothing and leaves the selection alone adds no rows. */
  lemma AddsNoProcessRows(o: Options, last: Snapshot, st: Pass, r: Pass, pid: int)
    requires r.rows == st.rows && r.selected == st.selected && r.found == st.found
    ensures AddsProcessRows(o, last, st, r, pid)
  {
  }

  /**
   * With `-p PID`, every row printed belongs to PID itself or to the process
   * owning thread PID, and the selection stays PID.
   */
  lemma {:induction false} ProcessRunFilter(o: Options, last: Snapshot, names: map<string, string>, pids: seq<int>, st: Pass, v: int)
    requires !o.allPids && st.selected == Some(v)
    requires forall k | 0 <= k < |st.rows| :: Admitted(o, last, Some(v), st.rows[k])
    ensures var r := ProcessRun(o, last, names, pids, st);
      r.selected == Some(v) && forall k | 0 <= k < |r.rows| :: Admitted(o, last, Some(v), r.rows[k])
    decreases |pids|
  {
    if !(pids == [] || st.stop || !st.ok) {
      var e := ProcessEntry(o, last, names, pids[0], st);
      ProcessEntryRows(o, last, names, pids[0], st);
      assert forall k | 0 <= k < |st.rows| :: e.rows[k] == st.rows[k] by {
        forall k | 0 <= k < |st.rows| ensures e.rows[k] == st.rows[k] {
          assert e.rows[..|st.rows|][k] == st.rows[k];
        }
      }
      ProcessRunFilter(o, last, names, pids[1..], e, v);
    }
  }

  lemma {:induction false} ProcessRunFound(o: Options, last: Snapshot, names: map<string, string>, pids: seq<int>, st: Pass)
    requires FoundIsShown(st)
    ensures FoundIsShown(ProcessRun(o, last, names, pids, st))
    decreases |pids|
  {
    if !(pids == [] || st.stop || !st.ok) {
      ProcessEntryRows(o, last, names, pids[0], st);
      ProcessRunFound(o, last, names, pids[1..], ProcessEntry(o, last, names, pids[0], st));
    }
  }

  /**
   * With `-p`, the process table shows only the selected process, or the
   * process owning the selected thread, with its threads.
   */
  lemma ProcessDeltaFilter(o: Options, last: Snapshot, names: map<string, string>, st: Pass, v: int)
    requires !o.allPids && st.selected == Some(v)
    ensures var r := ProcessDelta(o, last, names, st);
      r.selected == Some(v) && forall k | 0 <= k < |r.rows| :: Admitted(o, last, Some(v), r.rows[k])
  {
    ProcessRunFilter(o, last, names, last.pids, st.(rows := [], found := false, stop := false, ok := true), v);
  }

  /**
   * In auto-select mode a selection that survives a completed pass was
   * printed in it: a selected id that was not printed is cleared.
   */
  lemma ProcessDeltaKeepsOnlyShown(o: Options, last: Snapshot, names: map<string, string>, st: Pass)
    requires o.allPids
    ensures var r := ProcessDelta(o, last, names, st);
      r.ok && !r.stop && r.selected.Some? ==> Shows(r.rows, r.selected.value)
  {
    ProcessRunFound(o, last, names, last.pids, st.(rows := [], found := false, stop := false, ok := true));
  }

  /** The core table stops at the budget: at most `max(1, lines)` lines, one per row plus the header. */
  lemma {:induction false} CoreRunBudget(o: Options, last: Snapshot, core: nat, st: Pass)
    requires core <= |last.cpus|
    requires st.printed <= Max(1, o.lines) && (st.stop || st.printed < o.lines)
    ensures CoreRun(o, last, core, st).printed <= Max(1, o.lines)
    ensures CoreRun(o, last, core, st).printed == st.printed + |CoreRun(o, last, core, st).rows| - |st.rows|
    decreases |last.cpus| - core
  {
    if !(core == |last.cpus| || st.stop || !st.ok) {
      CoreRunBudget(o, last, core + 1, CoreEntry(o, last, core, st));
    }
  }

  lemma CpuDeltaBudget(o: Options, last: Snapshot, st: Pass)
    ensures CpuDelta(o, last, st).printed <= Max(1, o.lines)
    ensures CpuDelta(o, last, st).printed == 1 + |CpuDelta(o, last, st).rows|
  {
    if 1 < o.lines {
      CoreRunBudget(o, last, 0, st.(rows := [], printed := 1, stop := false, ok := true));
    }
  }

  /**
   * One process step keeps the process table's budget: it prints at most one
   * line past `cap`, stays within `cap` unless it returns on the budget, and
   * counts one line per row.
   */
  predicate Capped(st: Pass, e: Pass, cap: int)
  {
    e.printed <= cap + 1 && (!e.stop ==> e.printed <= cap)
    && e.printed == st.printed + |e.rows| - |st.rows| && |e.rows| >= |st.rows|
  }

  /**
   * From `st` to `r` every row added was counted as one line, and the count
   * stayed within `max(st.printed, lines)`, below `lines` unless the pass returned.
   */
  predicate Counted(st: Pass, r: Pass, lines: int)
  {
    |r.rows| >= |st.rows| && r.printed == st.printed + |r.rows| - |st.rows|
    && r.printed <= Max(st.printed, lines) && (r.stop || r.printed < lines)
  }

  lemma CountedChain(a: Pass, b: Pass, c: Pass, lines: int)
    requires Counted(a, b, lines) && Counted(b, c, lines)
    ensures Counted(a, c, lines)
  {
  }

  lemma ThreadShownBudget(o: Options, pid: int, tid: int, tl: Task, tc: Task, c: CpuUse, io: IoUse, t: Task, st: Pass)
    requires pid in st.curr.pstats && !st.stop && st.printed < o.lines
    ensures Counted(st, ThreadShown(o, pid, tid, tl, tc, c, io, t, st), o.lines)
  {
  }

  lemma ThreadMeasuredBudget(o: Options, pid: int, tid: int, tl: Task, tc: Task, c: CpuUse, io: IoUse, st: Pass)
    requires pid in st.curr.pstats && !st.stop && st.printed < o.lines
    ensures Counted(st, ThreadMeasured(o, pid, tid, tl, tc, c, io, st), o.lines)
  {
    var d := Decay(false, o.showAll, tl.didSomething, c.pct == 0.0 && io.pct == 0.0, o.ignore);
    var t := Updated(tc, c, io, d.did);
    if !d.skip {
      ThreadShownBudget(o, pid, tid, tl, tc, c, io, t, st.(curr := PutThread(st.curr, pid, tid, t)));
    }
  }

  lemma {:induction false} ThreadFiguresBudget(o: Options, pid: int, tid: int, tl: Task, tc: Task, total: int, st: Pass, hops: nat)
    requires pid in st.curr.pstats && total != 0 && !st.stop && st.printed < o.lines
    ensures Counted(st, ThreadFigures(o, pid, tid, tl, tc, total, st, hops), o.lines)
    decreases hops
  {
    if hops > 0 {
      ThreadFiguresBudget(o, pid, tid, tl, tc, total, st, hops - 1);
      return;
    }
    var io := Iowait(tl, tc, o.ioScale);
    if io.Some? {
      ThreadMeasuredBudget(o, pid, tid, tl, tc, CpuAgainst(tl, tc, total), io.value, st);
    }
  }

  lemma ThreadEntryBudget(o: Options, last: Snapshot, pid: int, pl: Process, tid: int, st: Pass)
    requires !st.stop && st.printed < o.lines
    ensures Counted(st, ThreadEntry(o, last, pid, pl, tid, st), o.lines)
  {
    if ThreadReady(last, pid, pl, tid, st) {
      ThreadReadyBudget(o, last, pid, pl, tid, st);
    }
  }

  lemma ThreadReadyBudget(o: Options, last: Snapshot, pid: int, pl: Process, tid: int, st: Pass)
    requires !st.stop && st.printed < o.lines && ThreadReady(last, pid, pl, tid, st)
    ensures Counted(st, ThreadEntry(o, last, pid, pl, tid, st), o.lines)
  {
    var tl := pl.tstats[tid];
    var total := st.curr.cpus[tl.cpu].clock - last.cpus[tl.cpu].clock;
    var r := ThreadFigures(o, pid, tid, tl, st.curr.pstats[pid].tstats[tid], total, st, 1);
    ThreadFiguresBudget(o, pid, tid, tl, st.curr.pstats[pid].tstats[tid], total, st, 1);
    assert Counted(st, r, o.lines);
    assert ThreadEntry(o, last, pid, pl, tid, st) == r;
  }

  /**
   * The thread table stops at the budget: started below `lines`, it leaves
   * at most `lines` lines, and one line per row emitted.
   */
  lemma {:induction false} ThreadRunBudget(o: Options, last: Snapshot, pid: int, pl: Process, tids: seq<int>, st: Pass)
    requires st.stop || st.printed < o.lines
    ensures Counted(st, ThreadRun(o, last, pid, pl, tids, st), o.lines)
    decreases |tids|
  {
    if !(tids == [] || st.stop || !st.ok) {
      var e := ThreadEntry(o, last, pid, pl, tids[0], st);
      ThreadEntryBudget(o, last, pid, pl, tids[0], st);
      ThreadRunBudget(o, last, pid, pl, tids[1..], e);
      CountedChain(st, e, ThreadRun(o, last, pid, pl, tids[1..], e), o.lines);
    }
  }

  /**
   * The process table overshoots the budget by at most one line: when the
   * thread table returns on the budget, the process loop goes on and prints
   * one more process row before it checks again.
   */
  lemma {:induction false} ProcessRunBudget(o: Options, last: Snapshot, names: map<string, string>, pids: seq<int>, st: Pass, cap: int)
    requires cap >= o.lines && st.printed <= cap && !st.stop
    ensures var r := ProcessRun(o, last, names, pids, st);
      r.printed <= cap + 1 && r.printed == st.printed + |r.rows| - |st.rows| && |r.rows| >= |st.rows|
    decreases |pids|
  {
    if !(pids == [] || !st.ok) {
      var e := ProcessEntry(o, last, names, pids[0], st);
      ProcessEntryBudget(o, last, names, pids[0], st, cap);
      if !e.stop {
        ProcessRunBudget(o, last, names, pids[1..], e, cap);
      }
    }
  }

  lemma ProcessEntryBudget(o: Options, last: Snapshot, names: map<string, string>, pid: int, st: Pass, cap: int)
    requires cap >= o.lines && st.printed <= cap && !st.stop
    ensures Capped(st, ProcessEntry(o, last, names, pid, st), cap)
  {
    if ProcessReady(o, last, pid, st) {
      ProcessReadyBudget(o, last, names, pid, st, cap);
    }
  }

  lemma ProcessReadyBudget(o: Options, last: Snapshot, names: map<string, string>, pid: int, st: Pass, cap: int)
    requires cap >= o.lines && st.printed <= cap && !st.stop && ProcessReady(o, last, pid, st)
    ensures Capped(st, ProcessEntry(o, last, names, pid, st), cap)
  {
    var pl := last.pstats[pid];
    var total := st.curr.cpus[pl.task.cpu].clock - last.cpus[pl.task.cpu].clock;
    ProcessFiguresBudget(o, last, names, pid, pl, st.curr.pstats[pid], total, st, cap, 1);
    assert ProcessEntry(o, last, names, pid, st) == ProcessFigures(o, last, names, pid, pl, st.curr.pstats[pid], total, st, 1);
  }

  lemma {:induction false} ProcessFiguresBudget(o: Options, last: Snapshot, names: map<string, string>, pid: int,
    pl: Process, pc: Process, total: int, st: Pass, cap: int, hops: nat)
    requires cap >= o.lines && st.printed <= cap && !st.stop
    ensures Capped(st, ProcessFigures(o, last, names, pid, pl, pc, total, st, hops), cap)
    decreases hops
  {
    if hops > 0 {
      ProcessFiguresBudget(o, last, names, pid, pl, pc, total, st, cap, hops - 1);
      return;
    }
    var io := Iowait(pl.task, pc.task, o.ioScale);
    if io.Some? {
      ProcessMeasuredBudget(o, last, names, pid, pl, pc, ProcessCpu(pl.task, pc.task, total), io.value, st, cap);
    }
  }

  lemma ProcessMeasuredBudget(o: Options, last: Snapshot, names: map<string, string>, pid: int,
    pl: Process, pc: Process, c: CpuUse, io: IoUse, st: Pass, cap: int)
    requires cap >= o.lines && st.printed <= cap && !st.stop
    ensures Capped(st, ProcessMeasured(o, last, names, pid, pl, pc, c, io, st), cap)
  {
    var d := Decay(st.selected == Some(pid), o.showAll, pl.task.didSomething,
      c.pct == 0.0 && io.pct == 0.0, o.ignore);
    var t := Updated(pc.task, c, io, d.did);
    var st1 := st.(curr := PutProcess(st.curr, pid, pc.(task := t)));
    if !d.skip {
      ProcessShownBudget(o, last, names, pid, pl, pc, t, c, io, st1, cap);
    }
  }

  lemma ProcessShownBudget(o: Options, last: Snapshot, names: map<string, string>, pid: int,
    pl: Process, pc: Process, t: Task, c: CpuUse, io: IoUse, st: Pass, cap: int)
    requires cap >= o.lines && st.printed <= cap && !st.stop
    ensures Capped(st, ProcessShown(o, last, names, pid, pl, pc, t, c, io, st), cap)
  {
    var selected := if o.allPids && st.selected.None? then Some(pid) else st.selected;
    var st2 := st.(curr := st.curr.(shown := st.curr.shown + [pl.task.pid]), selected := selected);
    var name := DisplayName(names, pl);
    if name != "" {
      ProcessEmitBudget(o, last, pid, pl, pc, t, c, io, name, st2, cap);
    }
  }

  lemma ProcessEmitBudget(o: Options, last: Snapshot, pid: int, pl: Process, pc: Process,
    t: Task, c: CpuUse, io: IoUse, name: string, st: Pass, cap: int)
    requires cap >= o.lines && st.printed <= cap && !st.stop
    ensures Capped(st, ProcessEmit(o, last, pid, pl, pc, t, c, io, name, st), cap)
  {
    var moved := pl.task.cpu != pc.task.cpu;
    var row := ProcessRow(pid, pl.task.pid, pl.task.state, Truncate(name), pc.task.cpu, c, io,
      if moved then Some(pl.task.cpu) else None);
    var st3 := Emit(st, PutProcess(st.curr, pid, pc.(task := if moved then t.(cpuSwitch := true) else t)),
      row, st.printed + 1 >= o.lines);
    if !st3.stop {
      ThreadRunBudget(o, last, pid, pl, pl.threads, st3);
    }
  }

  /** Every line the process table adds is counted, and it ends at most one line past the budget. */
  lemma ProcessDeltaBudget(o: Options, last: Snapshot, names: map<string, string>, st: Pass)
    ensures var r := ProcessDelta(o, last, names, st);
      r.printed <= Max(st.printed, o.lines) + 1 && r.printed == st.printed + |r.rows|
  {
    ProcessRunBudget(o, last, names, last.pids, st.(rows := [], found := false, stop := false, ok := true), Max(st.printed, o.lines));
  }
}
