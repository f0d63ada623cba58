/**
 * The per-id CPU history `append_to_history` keeps between refreshes:
 * `cpu_history` and `cpu_switch_history` grow by one sample per cycle, while
 * `cpu_hist_min` and `cpu_hist_max` hold the latest bounds. The four
 * dictionaries are always written together under the same id, so the model
 * keeps one map from id to a `Trace` holding the four entries.
 */
module History {
  import opened Common
  import opened Records

  /**
   * An entry of `cpu_hist_min` / `cpu_hist_max`: the empty list the entry is
   * seeded with, or the bound last copied from a record (which may be None).
   */
  datatype Bound = Unset | Value(bound: Option<real>)

  /** The four dictionary entries of one id. */
  datatype Trace = Trace(series: seq<Option<real>>, switches: seq<bool>, lo: Bound, hi: Bound)

  /** The entries a new id is seeded with. */
  const Empty := Trace([], [], Unset, Unset)

  /** The store, seeded for `id` when it has no entry yet. */
  function Seeded(h: map<int, Trace>, id: int): (r: map<int, Trace>)
    ensures id in r && r.Keys == h.Keys + {id}
    ensures forall k | k in h :: r[k] == h[k]
    ensures id !in h ==> r[id] == Empty
  {
    if id in h then h else h[id := Empty]
  }

  /** One sample of a record added to an id's entries. */
  function Recorded(tr: Trace, t: Task): Trace
  {
    Trace(tr.series + [t.cpuPct], tr.switches + [t.cpuSwitch], Value(t.cpuMin), Value(t.cpuMax))
  }

  /** The thread loop of `append_to_history` for process `pid`, from thread list position j on. */
  function ThreadsFrom(h: map<int, Trace>, pid: int, p: Process, j: nat): map<int, Trace>
    requires j <= |p.threads|
    decreases |p.threads| - j
  {
    if j == |p.threads| then h
    else
      var tid := p.threads[j];
      if tid == pid then ThreadsFrom(h, pid, p, j + 1)
      else
        var h1 := Seeded(h, tid);
        if tid !in p.tstats then ThreadsFrom(h1, pid, p, j + 1)
        else ThreadsFrom(h1[tid := Recorded(h1[tid], p.tstats[tid])], pid, p, j + 1)
  }

  /**
   * The pid loop from position i on: the pid is seeded, the loop returns at a
   * pid without a record, and otherwise the process's sample and then its
   * threads' samples are added.
   */
  function PidsFrom(h: map<int, Trace>, s: Snapshot, i: nat): map<int, Trace>
    requires i <= |s.pids|
    decreases |s.pids| - i
  {
    if i == |s.pids| then h
    else
      var pid := s.pids[i];
      var h1 := Seeded(h, pid);
      if pid !in s.pstats then h1
      else
        var p := s.pstats[pid];
        PidsFrom(ThreadsFrom(h1[pid := Recorded(h1[pid], p.task)], pid, p, 0), s, i + 1)
  }

  /** `append_to_history(s)` on store `h`. */
  function Appended(h: map<int, Trace>, s: Snapshot): map<int, Trace>
  {
    PidsFrom(h, s, 0)
  }

  // ---------------------------------------------------------------------
  // What one call does to the store
  // ---------------------------------------------------------------------

  /** `id` has the same entries (or none) in both stores. */
  predicate Same(h: map<int, Trace>, r: map<int, Trace>, id: int)
  {
    (id in h <==> id in r) && (id in h ==> r[id] == h[id])
  }

  /**
   * The thread loop touches no id outside the thread list, and never the
   * process's own id: a thread id equal to its pid is skipped.
   */
  lemma {:induction false} ThreadsUntouched(h: map<int, Trace>, pid: int, p: Process, j: nat, id: int)
    requires j <= |p.threads|
    requires id == pid || forall m | j <= m < |p.threads| :: p.threads[m] != id
    ensures Same(h, ThreadsFrom(h, pid, p, j), id)
    decreases |p.threads| - j
  {
    if j < |p.threads| {
      var tid := p.threads[j];
      if tid == pid {
        ThreadsUntouched(h, pid, p, j + 1, id);
      } else {
        var h1 := Seeded(h, tid);
        if tid !in p.tstats {
          ThreadsUntouched(h1, pid, p, j + 1, id);
        } else {
          ThreadsUntouched(h1[tid := Recorded(h1[tid], p.tstats[tid])], pid, p, j + 1, id);
        }
      }
    }
  }

  /** The process's own id is never recorded by its thread loop. */
  lemma OwnIdSkipped(h: map<int, Trace>, pid: int, p: Process)
    ensures Same(h, ThreadsFrom(h, pid, p, 0), pid)
  {
    ThreadsUntouched(h, pid, p, 0, pid);
  }

  /**
   * A thread listed once, other than the main thread, with a record: its
   * series and switch list grow by exactly that record's sample and its bounds
   * are overwritten with the record's.
   */
  lemma {:induction false} ThreadRecorded(h: map<int, Trace>, pid: int, p: Process, j: nat, m: nat)
    requires j <= m < |p.threads|
    requires p.threads[m] != pid && p.threads[m] in p.tstats
    requires forall n | j <= n < |p.threads| && n != m :: p.threads[n] != p.threads[m]
    ensures var tid := p.threads[m];
      var before := if tid in h then h[tid] else Empty;
      var t := p.tstats[tid];
      tid in ThreadsFrom(h, pid, p, j)
      && ThreadsFrom(h, pid, p, j)[tid].series == before.series + [t.cpuPct]
      && ThreadsFrom(h, pid, p, j)[tid].switches == before.switches + [t.cpuSwitch]
      && ThreadsFrom(h, pid, p, j)[tid].lo == Value(t.cpuMin)
      && ThreadsFrom(h, pid, p, j)[tid].hi == Value(t.cpuMax)
    decreases m - j
  {
    var tid := p.threads[j];
    var next := if tid == pid then h
      else if tid !in p.tstats then Seeded(h, tid)
      else Seeded(h, tid)[tid := Recorded(Seeded(h, tid)[tid], p.tstats[tid])];
    assert ThreadsFrom(h, pid, p, j) == ThreadsFrom(next, pid, p, j + 1);
    if j == m {
      ThreadsUntouched(next, pid, p, j + 1, tid);
    } else {
      assert Same(h, next, p.threads[m]);
      ThreadRecorded(next, pid, p, j + 1, m);
    }
  }

  /** Where the pid loop returns: the first position from i on whose pid has no record, or the end. */
  function Reach(s: Snapshot, i: nat): (k: nat)
    requires i <= |s.pids|
    ensures i <= k <= |s.pids|
    ensures forall j | i <= j < k :: s.pids[j] in s.pstats
    ensures k < |s.pids| ==> s.pids[k] !in s.pstats
    decreases |s.pids| - i
  {
    if i == |s.pids| || s.pids[i] !in s.pstats then i else Reach(s, i + 1)
  }

  /**
   * `id` is reached by the pid loop from position i: it is one of the pids up
   * to and including the one the loop returns at, or a thread of a process
   * before that.
   */
  ghost predicate Visits(s: Snapshot, i: nat, id: int)
    requires i <= |s.pids|
  {
    (exists j | i <= j <= Reach(s, i) && j < |s.pids| :: s.pids[j] == id)
    || (exists j | i <= j < Reach(s, i) :: id in s.pstats[s.pids[j]].threads)
  }

  /**
   * An id the loop does not reach keeps its entries, or stays without any: in
   * particular every pid listed after the first pid without a record, unless
   * it was reached earlier.
   */
  lemma {:induction false} PidsUntouched(h: map<int, Trace>, s: Snapshot, i: nat, id: int)
    requires i <= |s.pids| && !Visits(s, i, id)
    ensures Same(h, PidsFrom(h, s, i), id)
    decreases |s.pids| - i
  {
    if i < |s.pids| {
      var pid := s.pids[i];
      assert pid != id;
      var h1 := Seeded(h, pid);
      if pid in s.pstats {
        var p := s.pstats[pid];
        var h2 := h1[pid := Recorded(h1[pid], p.task)];
        assert id !in p.threads;
        ThreadsUntouched(h2, pid, p, 0, id);
        assert Reach(s, i) == Reach(s, i + 1);
        PidsUntouched(ThreadsFrom(h2, pid, p, 0), s, i + 1, id);
      }
    }
  }

  /**
   * A pid the loop processes, listed once and in no other reached process's
   * thread list: its series and switch list grow by exactly the record's
   * sample, and its bounds are overwritten with the record's.
   */
  lemma {:induction false} PidRecorded(h: map<int, Trace>, s: Snapshot, i: nat, k: nat)
    requires i <= |s.pids| && i <= k < Reach(s, i)
    requires forall j | i <= j < |s.pids| && j != k :: s.pids[j] != s.pids[k]
    requires forall j | i <= j < Reach(s, i) && j != k :: s.pids[k] !in s.pstats[s.pids[j]].threads
    ensures var pid := s.pids[k];
      var before := if pid in h then h[pid] else Empty;
      var t := s.pstats[pid].task;
      pid in PidsFrom(h, s, i)
      && PidsFrom(h, s, i)[pid].series == before.series + [t.cpuPct]
      && PidsFrom(h, s, i)[pid].switches == before.switches + [t.cpuSwitch]
      && PidsFrom(h, s, i)[pid].lo == Value(t.cpuMin)
      && PidsFrom(h, s, i)[pid].hi == Value(t.cpuMax)
    decreases k - i
  {
    var pid := s.pids[i];
    var p := s.pstats[pid];
    var h1 := Seeded(h, pid);
    var h2 := h1[pid := Recorded(h1[pid], p.task)];
    var h3 := ThreadsFrom(h2, pid, p, 0);
    assert PidsFrom(h, s, i) == PidsFrom(h3, s, i + 1);
    assert Reach(s, i) == Reach(s, i + 1);
    if i == k {
      OwnIdSkipped(h2, pid, p);
      assert !Visits(s, i + 1, pid);
      PidsUntouched(h3, s, i + 1, pid);
    } else {
      ThreadsUntouched(h2, pid, p, 0, s.pids[k]);
      assert Same(h, h3, s.pids[k]);
      PidRecorded(h3, s, i + 1, k);
    }
  }
}
