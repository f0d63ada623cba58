/**
 * `Main`, the object that drives the display: its fields are the state the
 * source keeps on `self` between and during refreshes (the selection
 * `opts.pid`, `how_many_printed_lines`, `found_user_selected_process` and the
 * history dictionaries). Each method does its work step by step, as the
 * source does, and is proved to end in the state the functions of
 * `Passes`, `History`, `Histogram` and `Navigation` describe.
 *
 * Snapshots are values here: a display method takes the current snapshot and
 * returns it annotated, and returns the rows it printed.
 */
module Monitor {
  import opened Common
  import opened Text
  import opened Records
  import opened Delta
  import opened Passes
  import opened History
  import opened Histogram
  import opened Navigation

  class Monitor {
    const opts: Options
    /** `opts.pid`: the selected id, None when there is none. */
    var selected: Option<int>
    /** `how_many_printed_lines`. */
    var printed: int
    /** `found_user_selected_process`. */
    var found: bool
    /** `cpu_history`, `cpu_switch_history`, `cpu_hist_min` and `cpu_hist_max`, by id. */
    var history: map<int, Trace>

    /**
     * The set-up of `main`: `-p` gives the selection, and every process is
     * shown when it is absent or 0 (`not self.opts.pid`); the table has three
     * rows fewer than the terminal; iowait is scaled by `ticks * delay`.
     */
    constructor(pid: Option<int>, showAll: bool, ignore: int, ticks: int, delay: real,
      rows: int, columns: int, noHistogram: bool)
      ensures opts.allPids <==> pid.None? || pid == Some(0)
      ensures opts.showAll == showAll && opts.ignore == ignore && opts.noHistogram == noHistogram
      ensures opts.ioScale == ticks as real * delay && opts.lines == rows - 3 && opts.columns == columns
      ensures selected == pid && printed == 0 && !found && history == map[]
    {
      opts := Options(pid.None? || pid == Some(0), showAll, ignore, ticks as real * delay,
        rows - 3, columns, noHistogram);
      selected := pid;
      printed := 0;
      found := false;
      history := map[];
    }

    /** The state of a pass as the functions of `Passes` see it. */
    function Now(curr: Snapshot, rows: seq<Row>, stop: bool, ok: bool): Pass
      reads this
    {
      Pass(curr, rows, printed, selected, found, stop, ok)
    }

    /**
     * `display_cpu_delta`: the header, then one row per core until the line
     * budget is reached. `ok` is false when an exception escaped.
     */
    method DisplayCpuDelta(last: Snapshot, curr: Snapshot) returns (next: Snapshot, rows: seq<Row>, ok: bool)
      modifies this
      ensures var r := CpuDelta(opts, last, old(Now(curr, [], false, true)));
        next == r.curr && rows == r.rows && ok == r.ok && printed == r.printed
        && selected == r.selected && found == r.found
      ensures history == old(history)
    {
      ghost var target := CpuDelta(opts, last, Now(curr, [], false, true));
      next, rows, ok := curr, [], true;
      printed := 1;
      var stop := false;
      if printed >= opts.lines {
        return;
      }
      var core := 0;
      while core < |last.cpus| && !stop && ok
        invariant core <= |last.cpus|
        invariant CoreRun(opts, last, core, Now(next, rows, stop, ok)) == target
        invariant selected == old(selected) && found == old(found) && history == old(history)
        decreases |last.cpus| - core
      {
        var c0 := last.cpus[core];
        if core >= |next.cpus| {
          ok := false;
        } else {
          var c1 := next.cpus[core];
          var total := c1.clock - c0.clock;
          if total == 0 {
            ok := false;
          } else {
            var d := Decay(false, opts.showAll, c0.didSomething, false, opts.ignore);
            next := next.(cpus := next.cpus[core := c1.(didSomething := d.did)]);
            if !d.skip {
              rows := rows + [CoreRow(core, CoreShares(c0, c1))];
              printed := printed + 1;
              stop := printed >= opts.lines;
            }
          }
        }
        core := core + 1;
      }
    }

    /**
     * `display_thread_delta` for process `pid`, entered right after the
     * process's row: one step per thread listed in the previous record, until
     * the line budget is reached or an exception escapes.
     */
    method DisplayThreadDelta(last: Snapshot, pid: int, curr: Snapshot, shown: seq<Row>)
      returns (next: Snapshot, rows: seq<Row>, stop: bool, ok: bool)
      requires pid in last.pstats
      modifies this
      ensures var r := ThreadRun(opts, last, pid, last.pstats[pid], last.pstats[pid].threads,
          old(Now(curr, shown, false, true)));
        Now(next, rows, stop, ok) == r
      ensures history == old(history)
    {
      var pl := last.pstats[pid];
      ghost var target := ThreadRun(opts, last, pid, pl, pl.threads, Now(curr, shown, false, true));
      next, rows, stop, ok := curr, shown, false, true;
      var j := 0;
      while j < |pl.threads| && !stop && ok
        invariant j <= |pl.threads|
        invariant ThreadRun(opts, last, pid, pl, pl.threads[j..], Now(next, rows, stop, ok)) == target
        invariant history == old(history)
        decreases |pl.threads| - j
      {
        ghost var before := Now(next, rows, stop, ok);
        assert pl.threads[j..] == [pl.threads[j]] + pl.threads[j + 1..];
        next, rows, stop, ok := ThreadStep(last, pid, pl, pl.threads[j], next, rows);
        assert Now(next, rows, stop, ok) == ThreadEntry(opts, last, pid, pl, pl.threads[j], before);
        j := j + 1;
      }
    }

    /** One thread of `display_thread_delta`: the loop body from `t = int(t)` to the iowait figures. */
    method ThreadStep(last: Snapshot, pid: int, pl: Process, tid: int, curr: Snapshot, shown: seq<Row>)
      returns (next: Snapshot, rows: seq<Row>, stop: bool, ok: bool)
      modifies this
      ensures Now(next, rows, stop, ok) == ThreadEntry(opts, last, pid, pl, tid, old(Now(curr, shown, false, true)))
      ensures history == old(history)
    {
      ghost var st := Now(curr, shown, false, true);
      next, rows, stop, ok := curr, shown, false, true;
      if pid !in curr.pstats || !pl.listed {
        ok := false;
        return;
      }
      if tid !in pl.tstats {
        return;
      }
      if !curr.pstats[pid].listed {
        ok := false;
        return;
      }
      if tid !in curr.pstats[pid].tstats {
        return;
      }
      var tl := pl.tstats[tid];
      var tc := curr.pstats[pid].tstats[tid];
      if tl.pid == pl.task.pid && |pl.threads| == 1 {
        return;
      }
      if !(0 <= tl.cpu < |last.cpus|) || tl.cpu >= |curr.cpus| {
        ok := false;
        return;
      }
      var total := curr.cpus[tl.cpu].clock - last.cpus[tl.cpu].clock;
      if total == 0 {
        ok := false;
        return;
      }
      var _, _, _ := ThreadEntryFigures(opts, last, pid, pl, tid, st);
      next, rows, stop, ok := ThreadCompute(pid, tid, tl, tc, total, curr, shown);
    }

    /** The thread's CPU figures against the clock delta `total`, and its iowait. */
    method ThreadCompute(pid: int, tid: int, tl: Task, tc: Task, total: int, curr: Snapshot, shown: seq<Row>)
      returns (next: Snapshot, rows: seq<Row>, stop: bool, ok: bool)
      requires pid in curr.pstats && total != 0
      modifies this
      ensures Now(next, rows, stop, ok) == ThreadFigures(opts, pid, tid, tl, tc, total, old(Now(curr, shown, false, true)), 0)
      ensures history == old(history)
    {
      var io := Iowait(tl, tc, opts.ioScale);
      if io.None? {
        next, rows, stop, ok := curr, shown, false, false;
        return;
      }
      next, rows, stop, ok := ThreadMeasure(pid, tid, tl, tc, CpuAgainst(tl, tc, total), io.value, curr, shown);
    }

    /** The thread's record update and idle filter, once its figures are known. */
    method ThreadMeasure(pid: int, tid: int, tl: Task, tc: Task, c: CpuUse, io: IoUse, curr: Snapshot, shown: seq<Row>)
      returns (next: Snapshot, rows: seq<Row>, stop: bool, ok: bool)
      requires pid in curr.pstats
      modifies this
      ensures Now(next, rows, stop, ok) == ThreadMeasured(opts, pid, tid, tl, tc, c, io, old(Now(curr, shown, false, true)))
      ensures history == old(history)
    {
      var d := Decay(false, opts.showAll, tl.didSomething, c.pct == 0.0 && io.pct == 0.0, opts.ignore);
      var t := Updated(tc, c, io, d.did);
      next, rows, stop, ok := PutThread(curr, pid, tid, t), shown, false, true;
      if !d.skip {
        next, rows, stop, ok := ThreadPrint(pid, tid, tl, tc, c, io, t, next, shown);
      }
    }

    /** A thread that passed the idle filter: recorded as shown, then its row. */
    method ThreadPrint(pid: int, tid: int, tl: Task, tc: Task, c: CpuUse, io: IoUse, t: Task, curr: Snapshot, shown: seq<Row>)
      returns (next: Snapshot, rows: seq<Row>, stop: bool, ok: bool)
      requires pid in curr.pstats
      modifies this
      ensures Now(next, rows, stop, ok) == ThreadShown(opts, pid, tid, tl, tc, c, io, t, old(Now(curr, shown, false, true)))
      ensures history == old(history)
    {
      ghost var st := Now(curr, shown, false, true);
      next, rows, stop, ok := curr.(shown := curr.shown + [tl.pid]), shown, false, true;
      var id := ParseInt(tl.pid);
      if id.None? {
        assert ThreadShown(opts, pid, tid, tl, tc, c, io, t, st) == st.(curr := next, ok := false);
        ok := false;
        return;
      }
      var moved := tl.cpu != tc.cpu;
      next := PutThread(next, pid, tid, if moved then t.(cpuSwitch := true) else t);
      var row := ThreadRow(id.value, pid, tl.pid, tl.state, tl.name, tc.cpu, c, io,
        if moved then Some(tl.cpu) else None);
      assert ThreadShown(opts, pid, tid, tl, tc, c, io, t, st) == Emit(st, next, row, st.printed + 1 >= opts.lines);
      rows := rows + [row];
      found := found || selected == Some(id.value);
      printed := printed + 1;
      stop := printed >= opts.lines;
    }

    /**
     * `display_process_delta`: the process table, threads after their
     * process, then, in auto-select mode, the selection is dropped when it was
     * not printed.
     */
    method DisplayProcessDelta(last: Snapshot, curr: Snapshot, names: map<string, string>)
      returns (next: Snapshot, rows: seq<Row>, ok: bool)
      modifies this
      ensures var r := ProcessDelta(opts, last, names, old(Now(curr, [], false, true)));
        next == r.curr && rows == r.rows && ok == r.ok && printed == r.printed
        && selected == r.selected && found == r.found
      ensures history == old(history)
    {
      found := false;
      ghost var run := ProcessRun(opts, last, names, last.pids, Now(curr, [], false, true));
      next, rows, ok := curr, [], true;
      var stop := false;
      var i := 0;
      while i < |last.pids| && !stop && ok
        invariant i <= |last.pids|
        invariant ProcessRun(opts, last, names, last.pids[i..], Now(next, rows, stop, ok)) == run
        invariant history == old(history)
        decreases |last.pids| - i
      {
        ghost var before := Now(next, rows, stop, ok);
        assert last.pids[i..] == [last.pids[i]] + last.pids[i + 1..];
        next, rows, stop, ok := ProcessStep(last, names, last.pids[i], next, rows);
        assert Now(next, rows, stop, ok) == ProcessEntry(opts, last, names, last.pids[i], before);
        i := i + 1;
      }
      if ok && !stop && !found && opts.allPids {
        selected := None;
      }
    }

    /** One pid of `display_process_delta`: the loop body from `pid = int(pid)` to the iowait figures. */
    method ProcessStep(last: Snapshot, names: map<string, string>, pid: int, curr: Snapshot, shown: seq<Row>)
      returns (next: Snapshot, rows: seq<Row>, stop: bool, ok: bool)
      modifies this
      ensures Now(next, rows, stop, ok) == ProcessEntry(opts, last, names, pid, old(Now(curr, shown, false, true)))
      ensures history == old(history)
    {
      next, rows, stop, ok := curr, shown, false, true;
      if !ProcessReady(opts, last, pid, Now(curr, shown, false, true)) {
        if pid in last.pstats && pid in next.pstats && !FilteredOut(opts, selected, pid, last.pstats[pid]) {
          ok := false;
        }
        return;
      }
      var pl := last.pstats[pid];
      var pc := next.pstats[pid];
      var total := next.cpus[pl.task.cpu].clock - last.cpus[pl.task.cpu].clock;
      var io := Iowait(pl.task, pc.task, opts.ioScale);
      if io.None? {
        ok := false;
        return;
      }
      next, rows, stop, ok := ProcessMeasure(last, names, pid, pl, pc, ProcessCpu(pl.task, pc.task, total), io.value,
        curr, shown);
    }

    /** The process's record update and idle filter, once its figures are known. */
    method ProcessMeasure(last: Snapshot, names: map<string, string>, pid: int, pl: Process, pc: Process,
      c: CpuUse, io: IoUse, curr: Snapshot, shown: seq<Row>)
      returns (next: Snapshot, rows: seq<Row>, stop: bool, ok: bool)
      requires pid in last.pstats && pl == last.pstats[pid]
      modifies this
      ensures Now(next, rows, stop, ok) == ProcessMeasured(opts, last, names, pid, pl, pc, c, io,
        old(Now(curr, shown, false, true)))
      ensures history == old(history)
    {
      var d := Decay(selected == Some(pid), opts.showAll, pl.task.didSomething,
        c.pct == 0.0 && io.pct == 0.0, opts.ignore);
      var t := Updated(pc.task, c, io, d.did);
      next, rows, stop, ok := PutProcess(curr, pid, pc.(task := t)), shown, false, true;
      if !d.skip {
        next, rows, stop, ok := ProcessPrint(last, names, pid, pl, pc, t, c, io, next, shown);
      }
    }

    /**
     * A process that passed the idle filter: recorded as shown, selected in
     * auto mode when nothing is, then its row and its threads.
     */
    method ProcessPrint(last: Snapshot, names: map<string, string>, pid: int, pl: Process, pc: Process,
      t: Task, c: CpuUse, io: IoUse, curr: Snapshot, shown: seq<Row>)
      returns (next: Snapshot, rows: seq<Row>, stop: bool, ok: bool)
      requires pid in last.pstats && pl == last.pstats[pid]
      modifies this
      ensures Now(next, rows, stop, ok) == ProcessShown(opts, last, names, pid, pl, pc, t, c, io,
        old(Now(curr, shown, false, true)))
      ensures history == old(history)
    {
      ghost var st := Now(curr, shown, false, true);
      next, rows, stop, ok := curr.(shown := curr.shown + [pl.task.pid]), shown, false, true;
      if opts.allPids && selected.None? {
        selected := Some(pid);
      }
      ghost var st2 := st.(curr := next, selected := selected);
      assert st2 == Now(next, rows, stop, ok);
      var name := DisplayName(names, pl);
      if name == "" {
        return;
      }
      assert ProcessShown(opts, last, names, pid, pl, pc, t, c, io, st)
        == ProcessEmit(opts, last, pid, pl, pc, t, c, io, name, st2);
      next, rows, stop, ok := ProcessEmitRow(last, pid, pl, pc, t, c, io, name, next, rows);
    }

    /** The process's row, the CPU-switch mark, the budget check, then `display_thread_delta`. */
    method ProcessEmitRow(last: Snapshot, pid: int, pl: Process, pc: Process,
      t: Task, c: CpuUse, io: IoUse, name: string, curr: Snapshot, shown: seq<Row>)
      returns (next: Snapshot, rows: seq<Row>, stop: bool, ok: bool)
      requires pid in last.pstats && pl == last.pstats[pid]
      modifies this
      ensures Now(next, rows, stop, ok) == ProcessEmit(opts, last, pid, pl, pc, t, c, io, name,
        old(Now(curr, shown, false, true)))
      ensures history == old(history)
    {
      ghost var st := Now(curr, shown, false, true);
      var moved := pl.task.cpu != pc.task.cpu;
      next := PutProcess(curr, pid, pc.(task := if moved then t.(cpuSwitch := true) else t));
      var row := ProcessRow(pid, pl.task.pid, pl.task.state, Truncate(name), pc.task.cpu, c, io,
        if moved then Some(pl.task.cpu) else None);
      ghost var st3 := Emit(st, next, row, st.printed + 1 >= opts.lines);
      rows, ok := shown + [row], true;
      found := found || selected == Some(pid);
      printed := printed + 1;
      stop := printed >= opts.lines;
      assert Now(next, rows, stop, ok) == st3;
      if !stop {
        next, rows, stop, ok := DisplayThreadDelta(last, pid, next, rows);
        stop := false;
      }
    }

    /**
     * `append_to_history`: for each listed pid, seed its entries, return at
     * the first pid without a record, otherwise add the process's sample and
     * then its threads' samples (skipping the main thread).
     */
    method AppendToHistory(s: Snapshot)
      modifies this
      ensures history == Appended(old(history), s)
      ensures selected == old(selected) && printed == old(printed) && found == old(found)
    {
      var i := 0;
      while i < |s.pids|
        invariant i <= |s.pids|
        invariant PidsFrom(history, s, i) == Appended(old(history), s)
        invariant selected == old(selected) && printed == old(printed) && found == old(found)
        decreases |s.pids| - i
      {
        var pid := s.pids[i];
        if pid !in history {
          history := history[pid := Empty];
        }
        if pid !in s.pstats {
          return;
        }
        var p := s.pstats[pid];
        var tr := history[pid];
        history := history[pid := tr.(series := tr.series + [p.task.cpuPct],
          switches := tr.switches + [p.task.cpuSwitch], lo := Value(p.task.cpuMin), hi := Value(p.task.cpuMax))];
        AppendThreads(pid, p);
        i := i + 1;
      }
    }

    /** The thread loop of `append_to_history` for process `pid` with record `p`. */
    method AppendThreads(pid: int, p: Process)
      modifies this
      ensures history == ThreadsFrom(old(history), pid, p, 0)
      ensures selected == old(selected) && printed == old(printed) && found == old(found)
    {
      var j := 0;
      while j < |p.threads|
        invariant j <= |p.threads|
        invariant ThreadsFrom(history, pid, p, j) == ThreadsFrom(old(history), pid, p, 0)
        invariant selected == old(selected) && printed == old(printed) && found == old(found)
        decreases |p.threads| - j
      {
        var tid := p.threads[j];
        if tid != pid {
          if tid !in history {
            history := history[tid := Empty];
          }
          if tid in p.tstats {
            var t := p.tstats[tid];
            var tr := history[tid];
            history := history[tid := tr.(series := tr.series + [t.cpuPct],
              switches := tr.switches + [t.cpuSwitch], lo := Value(t.cpuMin), hi := Value(t.cpuMax))];
          }
        }
        j := j + 1;
      }
    }

    /**
     * `display_histogram(opts.pid)`: the grid is built row by row and each
     * row cell by cell, over the last `columns - 10` samples.
     */
    method DisplayHistogram() returns (v: View)
      ensures v == Draw(history, selected, opts.lines, printed, opts.columns)
    {
      var left := opts.lines - printed;
      if left <= 2 {
        return NotDrawn;
      }
      left := left - 1;
      if selected.None? || selected.value !in history {
        return NotDrawn;
      }
      var tr := history[selected.value];
      if !Real(tr.hi) {
        return Crashed;
      }
      var top := tr.hi.bound.value;
      var len := |tr.series|;
      var grid: seq<GridRow> := [];
      var row := 0;
      while row < left
        invariant 0 <= row <= left
        invariant Real(tr.lo) || row == 0
        invariant |grid| == row
        invariant forall j | 0 <= j < row ::
          grid[j] == Line(tr.series, opts.columns, tr.lo.bound.value, top - tr.lo.bound.value, left, j)
      {
        var start := len - (opts.columns - 10);
        if start < 0 {
          start := 0;
        }
        if !Real(tr.lo) {
          return Crashed;
        }
        var lo := tr.lo.bound.value;
        var r := top - lo;
        var s := GridCells(tr.series, start, lo, r, left, row);
        QuotientValue(r, left as real, 1);
        grid := grid + [GridRow(lo + (left - row) as real * (r / left as real), s)];
        row := row + 1;
      }
      return Drawn(top, tr.lo.bound.value, grid);
    }

    /** The cells of grid row `row`: one per sample from `start` on, scaled to [lo, lo + r]. */
    static method GridCells(series: seq<Option<real>>, start: int, lo: real, r: real, height: int, row: int)
      returns (s: string)
      requires 0 <= start
      ensures |s| == Max(0, |series| - start)
      ensures forall k | 0 <= k < |s| :: s[k] == Cell(series[start + k], lo, r, height, row)
    {
      s := "";
      var x := start;
      while x < |series|
        invariant start <= x && (x <= |series| || x == start)
        invariant |s| == x - start
        invariant forall k | 0 <= k < x - start :: s[k] == Cell(series[start + k], lo, r, height, row)
      {
        if r <= 0.0 || series[x].None? {
          s := s + "?";
        } else {
          QuotientValue(series[x].value - lo, r, 1);
          var scaled := (series[x].value - lo) / r * height as real;
          if height as real - scaled > row as real {
            s := s + "_";
          } else {
            s := s + "#";
          }
        }
        x := x + 1;
      }
    }

    /**
     * One refresh of the main loop, from the current snapshot read to the key
     * handled: the core table, the process table, the history, the histogram
     * unless `-H`, then the key against the ids just printed. An exception
     * escaping any of them ends the program: `ok` false, and nothing after it
     * happens. `next` is the annotated snapshot that becomes the previous one.
     */
    method Step(last: Snapshot, curr: Snapshot, names: map<string, string>, key: Option<string>)
      returns (next: Snapshot, view: Option<View>, quit: bool, ok: bool)
      modifies this
      ensures var c := CpuDelta(opts, last, old(Now(curr, [], false, true)));
        !c.ok ==> !ok && next == c.curr && history == old(history) && selected == c.selected
      ensures var c := CpuDelta(opts, last, old(Now(curr, [], false, true)));
        var p := ProcessDelta(opts, last, names, c);
        c.ok && !p.ok ==> !ok && next == p.curr && history == old(history) && selected == p.selected
      ensures var c := CpuDelta(opts, last, old(Now(curr, [], false, true)));
        var p := ProcessDelta(opts, last, names, c);
        var v := if opts.noHistogram then None else Some(Draw(Appended(old(history), p.curr), p.selected, opts.lines, p.printed, opts.columns));
        c.ok && p.ok ==>
          next == p.curr && history == Appended(old(history), p.curr)
          && printed == p.printed && view == v && (v == Some(Crashed) ==> !ok && selected == p.selected)
      ensures var c := CpuDelta(opts, last, old(Now(curr, [], false, true)));
        var p := ProcessDelta(opts, last, names, c);
        var o := Handle(KeyEvent(key), p.curr.shown, p.selected);
        c.ok && p.ok && view != Some(Crashed) ==>
          ok == o.Selects? && quit == (KeyEvent(key) == Some(Quit))
          && selected == (if o.Selects? then o.selected else p.selected)
    {
      ghost var c := CpuDelta(opts, last, Now(curr, [], false, true));
      var rows;
      next, rows, ok := DisplayCpuDelta(last, curr);
      view, quit := None, false;
      if !ok {
        return;
      }
      ghost var p := ProcessDelta(opts, last, names, c);
      assert Now(next, [], false, true) == c.(rows := [], stop := false, ok := true);
      next, rows, ok := DisplayProcessDelta(last, next, names);
      if !ok {
        return;
      }
      AppendToHistory(next);
      if !opts.noHistogram {
        var v := DisplayHistogram();
        view := Some(v);
        if v.Crashed? {
          ok := false;
          return;
        }
      }
      quit, ok := HandleUserInput(key, next.shown);
    }

    /**
     * `handle_user_input`, given the key read: "up" and "down" scan the ids
     * shown and move the selection; "quit" is returned to the caller.
     * `ok` is false when `int()` raised on an entry.
     */
    method HandleUserInput(key: Option<string>, ids: seq<string>) returns (quit: bool, ok: bool)
      modifies this
      ensures var o := Handle(KeyEvent(key), ids, old(selected));
        ok == o.Selects? && (ok ==> selected == o.selected) && (!ok ==> selected == old(selected))
      ensures quit <==> KeyEvent(key) == Some(Quit)
      ensures printed == old(printed) && found == old(found) && history == old(history)
    {
      var e := KeyEvent(key);
      quit, ok := e == Some(Quit), true;
      if e == Some(Up) {
        ok := SelectPrevious(ids);
      } else if e == Some(Down) {
        ok := SelectNext(ids);
      }
    }

    /** The "up" scan: remember the previous entry and move there on meeting the selection. */
    method SelectPrevious(ids: seq<string>) returns (ok: bool)
      modifies this
      ensures var o := UpFrom(Parsed(ids), old(selected), 0, None);
        ok == o.Selects? && (ok ==> selected == o.selected) && (!ok ==> selected == old(selected))
      ensures printed == old(printed) && found == old(found) && history == old(history)
    {
      var last: Option<int> := None;
      var k := 0;
      while k < |ids|
        invariant k <= |ids|
        invariant UpFrom(Parsed(ids), selected, k, last) == UpFrom(Parsed(ids), old(selected), 0, None)
        invariant selected == old(selected)
        invariant printed == old(printed) && found == old(found) && history == old(history)
        decreases |ids| - k
      {
        var pid := ParseInt(ids[k]);
        if pid.None? {
          return false;
        }
        if selected == pid {
          if last.Some? {
            selected := last;
          }
          return true;
        }
        last := pid;
        k := k + 1;
      }
      return true;
    }

    /** The "down" scan: on meeting the selection, the next entry becomes the selection. */
    method SelectNext(ids: seq<string>) returns (ok: bool)
      modifies this
      ensures var o := DownFrom(Parsed(ids), old(selected), 0, false);
        ok == o.Selects? && (ok ==> selected == o.selected) && (!ok ==> selected == old(selected))
      ensures printed == old(printed) && found == old(found) && history == old(history)
    {
      var useNext := false;
      var k := 0;
      while k < |ids|
        invariant k <= |ids|
        invariant DownFrom(Parsed(ids), selected, k, useNext) == DownFrom(Parsed(ids), old(selected), 0, false)
        invariant selected == old(selected)
        invariant printed == old(printed) && found == old(found) && history == old(history)
        decreases |ids| - k
      {
        var pid := ParseInt(ids[k]);
        if pid.None? {
          return false;
        }
        if useNext {
          selected := pid;
          return true;
        }
        if selected == pid {
          useNext := true;
        }
        k := k + 1;
      }
      return true;
    }
  }
}
