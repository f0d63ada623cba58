/**
 * The snapshot parser: `CpuSnapshot` (one `cpuN` line of /proc/stat),
 * `GetPidShapshot` and `Thread` (a /proc/<pid>/stat or
 * /proc/<pid>/task/<tid>/stat record) and `SystemSnapshot`, which gathers them.
 * File reads are left to the caller: the model receives the lines and
 * directory listings those reads returned.
 */
module Records {
  import opened Common
  import opened Text
  import opened NameFix

  /** One core's counters from a `cpuN` line, with `clock` their sum and the idle-decay counter. */
  datatype CpuSample = CpuSample(
    user: int, nice: int, system: int, idle: int, iowait: int, irq: int, softirq: int,
    clock: int, didSomething: int)

  /** `clock` is the sum of the seven counters. */
  predicate ClockIsSum(c: CpuSample)
  {
    c.clock == c.user + c.nice + c.system + c.idle + c.iowait + c.irq + c.softirq
  }

  /**
   * A process or thread record: the fields the engine reads (`pid` is the text
   * of field 1, kept as text as the source keeps it) and the derived fields the
   * engine fills in. None stands for Python's None; `cpuSwitch` false stands
   * for the initial None, since the engine only ever stores True.
   */
  datatype Task = Task(
    pid: string, name: string, state: string,
    utime: int, stime: int, cpu: int, blkio: int,
    cpuPct: Option<real>, cpuMin: Option<real>, cpuMax: Option<real>,
    ioMin: Option<real>, ioMax: Option<real>,
    didSomething: int, cpuSwitch: bool)

  /**
   * A process record with the ids listed under its task directory and the
   * thread records read. `listed` is false when the task directory could not
   * be listed: the source then never assigns `tstats`, so reading the table
   * raises AttributeError (here `threads` and `tstats` are left empty).
   */
  datatype Process = Process(task: Task, threads: seq<int>, tstats: map<int, Task>, listed: bool)

  /**
   * `SystemSnapshot`: the cores (`cpuinfo`, keyed 0..cpus-1), the listed pids,
   * the process records that could be read, and `pids_and_tids`, the ids the
   * table shows this cycle (as text).
   */
  datatype Snapshot = Snapshot(cpus: seq<CpuSample>, pids: seq<int>, pstats: map<int, Process>, shown: seq<string>)

  // ---------------------------------------------------------------------
  // Status records
  // ---------------------------------------------------------------------

  /** Fields lo..hi-1 all go through `int()` without raising. */
  predicate AllInts(sp: seq<string>, lo: nat, hi: nat)
    requires lo <= hi <= |sp|
  {
    forall k | lo <= k < hi :: ParseInt(sp[k]).Some?
  }

  /** The record split on single spaces after the name clean-up. */
  function Fields(stat: string): seq<string>
  {
    Split(Normalised(stat))
  }

  /** The record decodes when fields 3..40 are integers and field 42, if present, is one too. */
  predicate Decodes(sp: seq<string>)
  {
    |sp| >= 41 && AllInts(sp, 3, 41) && (|sp| > 42 ==> ParseInt(sp[42]).Some?)
  }

  /**
   * The body of `Thread.__init__` / `GetPidShapshot.__init__`: clean the name,
   * split, read fields by position. An `int()` that raises or a record too short
   * for index 40 makes the constructor raise; that is None here. `blkio_ticks`
   * is read from index 42 when the record has more than 42 fields, else -1.
   */
  function DecodeTask(stat: string): (t: Option<Task>)
    ensures t.Some? <==> Decodes(Fields(stat))
    ensures t.Some? ==> (var sp := Fields(stat);
      t.value.pid == sp[0] && t.value.name == sp[1] && t.value.state == sp[2]
      && Some(t.value.utime) == ParseInt(sp[13]) && Some(t.value.stime) == ParseInt(sp[14])
      && Some(t.value.cpu) == ParseInt(sp[38])
      && (if |sp| > 42 then Some(t.value.blkio) == ParseInt(sp[42]) else t.value.blkio == -1))
    ensures t.Some? ==> (t.value.cpuPct.None? && t.value.cpuMin.None? && t.value.cpuMax.None?
      && t.value.ioMin.None? && t.value.ioMax.None? && t.value.didSomething == 0 && !t.value.cpuSwitch)
  {
    var sp := Fields(stat);
    if !Decodes(sp) then None
    else
      Some(Task(
        pid := sp[0], name := sp[1], state := sp[2],
        utime := ParseInt(sp[13]).value, stime := ParseInt(sp[14]).value,
        cpu := ParseInt(sp[38]).value,
        blkio := if |sp| > 42 then ParseInt(sp[42]).value else -1,
        cpuPct := None, cpuMin := None, cpuMax := None, ioMin := None, ioMax := None,
        didSomething := 0, cpuSwitch := false))
  }

  function FormatAll(numbers: seq<int>): (fs: seq<string>)
    ensures |fs| == |numbers|
    ensures forall k | 0 <= k < |numbers| :: fs[k] == FormatInt(numbers[k])
  {
    if numbers == [] then [] else [FormatInt(numbers[0])] + FormatAll(numbers[1..])
  }

  /**
   * A status record as the kernel writes it and `readline` returns it: pid,
   * the command name in parentheses, state, then the numeric fields from
   * field 4 on, separated by single spaces, and a closing newline.
   */
  function StatLine(pid: string, comm: string, state: string, numbers: seq<int>): string
  {
    Join([pid, "(" + comm + ")", state] + FormatAll(numbers)) + "\n"
  }

  predicate NoParens(s: string) { '(' !in s && ')' !in s }

  lemma {:induction false} JoinAvoids(fs: seq<string>, c: char)
    requires |fs| >= 1 && c != ' '
    requires forall k | 0 <= k < |fs| :: c !in fs[k]
    ensures c !in Join(fs)
  {
    if |fs| > 1 {
      JoinAvoids(fs[1..], c);
    }
  }

  lemma FormatIntHasNoParen(n: int)
    ensures NoParens(FormatInt(n))
  {
    var d := Digits(if n < 0 then -n else n);
    assert forall k | 0 <= k < |d| :: IsDigit(d[k]);
    if n < 0 {
      assert forall k | 0 <= k < |FormatInt(n)| :: FormatInt(n)[k] == if k == 0 then '-' else d[k - 1];
    }
  }

  /** The record as the three text fields, the name and the rest. */
  lemma StatLineParts(pid: string, comm: string, state: string, numbers: seq<int>)
    ensures StatLine(pid, comm, state, numbers)
      == pid + " " + "(" + comm + ")" + (" " + Join([state] + FormatAll(numbers)) + "\n")
  {
    var fs := [pid, "(" + comm + ")", state] + FormatAll(numbers);
    assert fs[1..][1..] == [state] + FormatAll(numbers);
    assert Join(fs[1..]) == "(" + comm + ")" + " " + Join([state] + FormatAll(numbers));
    assert Join(fs) == pid + " " + Join(fs[1..]);
  }

  /**
   * The name loop on a kernel-style record turns exactly the spaces of the
   * command name into '_': the pid before it has no '(' and the fields after
   * it no ')', so no other space lies inside parentheses.
   */
  lemma StatLineNormalised(pid: string, comm: string, state: string, numbers: seq<int>)
    requires '(' !in pid && ')' !in state && '\n' !in comm
    ensures Normalised(StatLine(pid, comm, state, numbers)) == StatLine(pid, Underscored(comm), state, numbers)
  {
    var fs := [state] + FormatAll(numbers);
    forall k | 0 <= k < |fs| ensures ')' !in fs[k] {
      if k >= 1 {
        FormatIntHasNoParen(numbers[k - 1]);
      }
    }
    JoinAvoids(fs, ')');
    var b := " " + Join(fs) + "\n";
    assert ')' !in b;
    assert '(' !in pid + " ";
    StatLineParts(pid, comm, state, numbers);
    StatLineParts(pid, Underscored(comm), state, numbers);
    NormalisedFrame(pid + " ", comm, b);
  }

  /**
   * A kernel-style record splits, after the name loop, into its fields: the
   * name is one field with its spaces turned into '_', the newline stays on
   * the last field, and each number parses to itself.
   */
  lemma StatLineFields(pid: string, comm: string, state: string, numbers: seq<int>)
    requires '(' !in pid && ')' !in state && '\n' !in comm
    requires ' ' !in pid && ' ' !in state
    ensures var sp := Fields(StatLine(pid, comm, state, numbers));
      |sp| == |numbers| + 3 && sp[0] == pid && sp[1] == "(" + Underscored(comm) + ")"
      && sp[2] == (if numbers == [] then state + "\n" else state)
      && forall k | 3 <= k < |sp| :: ParseInt(sp[k]) == Some(numbers[k - 3])
  {
    var u := Underscored(comm);
    StatLineNormalised(pid, comm, state, numbers);
    var fs := StatLineSplit(pid, u, state, numbers);
    var sp := Fields(StatLine(pid, comm, state, numbers));
    assert sp == Split(StatLine(pid, u, state, numbers));
    RecordFields(pid, "(" + u + ")", state, numbers, FormatAll(numbers), sp);
  }

  /** The fields of a split record, its newline on the last field, read back. */
  lemma RecordFields(a: string, b: string, c: string, numbers: seq<int>, ns: seq<string>, sp: seq<string>)
    requires |ns| == |numbers| && forall k | 0 <= k < |ns| :: ns[k] == FormatInt(numbers[k])
    requires var fs := [a, b, c] + ns; sp == fs[..|fs| - 1] + [fs[|fs| - 1] + "\n"]
    ensures |sp| == |numbers| + 3 && sp[0] == a && sp[1] == b
      && sp[2] == (if numbers == [] then c + "\n" else c)
      && forall k | 3 <= k < |sp| :: ParseInt(sp[k]) == Some(numbers[k - 3])
  {
    var fs := [a, b, c] + ns;
    var n := |fs|;
    assert n == |ns| + 3;
    assert forall k | 0 <= k < n - 1 :: sp[k] == fs[k];
    assert sp[n - 1] == fs[n - 1] + "\n";
    forall k | 3 <= k < n ensures ParseInt(sp[k]) == Some(numbers[k - 3]) {
      assert fs[k] == ns[k - 3];
      ParsesBack(sp[k], numbers[k - 3], k == n - 1);
    }
  }

  /** A formatted number, possibly followed by the newline, parses back to it. */
  lemma ParsesBack(x: string, v: int, newline: bool)
    requires x == FormatInt(v) + (if newline then "\n" else "")
    ensures ParseInt(x) == Some(v)
  {
    if newline {
      ParseNewline(v);
    } else {
      assert x == FormatInt(v);
      FormatParse(v);
    }
  }

  /** A record whose fields hold no space splits back into them, the newline on the last. */
  lemma StatLineSplit(pid: string, name: string, state: string, numbers: seq<int>)
    returns (fs: seq<string>)
    requires ' ' !in pid && ' ' !in name && ' ' !in state
    ensures fs == [pid, "(" + name + ")", state] + FormatAll(numbers)
    ensures Split(StatLine(pid, name, state, numbers)) == fs[..|fs| - 1] + [fs[|fs| - 1] + "\n"]
  {
    fs := [pid, "(" + name + ")", state] + FormatAll(numbers);
    assert ' ' !in "(" + name + ")";
    forall k | 0 <= k < |fs| ensures ' ' !in fs[k] {
      if k >= 3 {
        FormatIntHasNoSpace(numbers[k - 3]);
      }
    }
    SplitNewline(fs);
  }

  /**
   * Decoding a record laid out as the kernel writes it gives back its fields:
   * the name with its spaces turned into '_', utime from field 14 (index 13),
   * stime field 15, the core field 39, and `blkio_ticks` index 42 when
   * present, else -1.
   */
  lemma DecodeStatLine(pid: string, comm: string, state: string, numbers: seq<int>)
    requires |numbers| >= 38
    requires '(' !in pid && ')' !in state && '\n' !in comm
    requires ' ' !in pid && ' ' !in state
    ensures DecodeTask(StatLine(pid, comm, state, numbers)) == Some(Task(
      pid, "(" + Underscored(comm) + ")", state, numbers[10], numbers[11], numbers[35],
      if |numbers| > 39 then numbers[39] else -1,
      None, None, None, None, None, 0, false))
  {
    var sp := Fields(StatLine(pid, comm, state, numbers));
    StatLineFields(pid, comm, state, numbers);
    assert AllInts(sp, 3, 41);
    assert Decodes(sp);
  }

  // ---------------------------------------------------------------------
  // Core lines of /proc/stat
  // ---------------------------------------------------------------------

  /** A sample from the seven counters in /proc/stat order, `clock` being their sum. */
  function CpuFrom(v: seq<int>): (c: CpuSample)
    requires |v| == 7
    ensures ClockIsSum(c) && c.didSomething == 0
  {
    CpuSample(v[0], v[1], v[2], v[3], v[4], v[5], v[6], v[0] + v[1] + v[2] + v[3] + v[4] + v[5] + v[6], 0)
  }

  /**
   * `CpuSnapshot.__init__`: fields 1..7 of the line split on single spaces, and
   * `clock` their sum. A missing or non-integer field raises; that is None here.
   */
  function DecodeCpu(line: string): (c: Option<CpuSample>)
    ensures c.Some? ==> ClockIsSum(c.value) && c.value.didSomething == 0
    ensures c.Some? <==> |Split(line)| >= 8 && AllInts(Split(line), 1, 8)
  {
    var sp := Split(line);
    if |sp| < 8 || !AllInts(sp, 1, 8) then None
    else Some(CpuFrom(seq(7, k requires 0 <= k < 7 => ParseInt(sp[k + 1]).value)))
  }

  /** A `cpuN` line with the given counters, as the kernel writes it and `readlines` returns it. */
  function CpuLine(tag: string, counters: seq<int>): string
  {
    Join([tag] + FormatAll(counters)) + "\n"
  }

  /** A core line decodes to its seven counters and their sum. */
  lemma DecodeCpuLine(tag: string, counters: seq<int>)
    requires |counters| >= 7 && ' ' !in tag
    ensures DecodeCpu(CpuLine(tag, counters)) == Some(CpuFrom(counters[..7]))
  {
    var line := CpuLine(tag, counters);
    CpuLineFields(tag, counters);
    var sp := Split(line);
    assert AllInts(sp, 1, 8);
    assert seq(7, k requires 0 <= k < 7 => ParseInt(sp[k + 1]).value) == counters[..7];
  }

  /** The fields of a core line after its tag read back as its counters; the closing newline is ignored. */
  lemma CpuLineFields(tag: string, counters: seq<int>)
    requires |counters| >= 1 && ' ' !in tag
    ensures |Split(CpuLine(tag, counters))| == |counters| + 1
    ensures Split(CpuLine(tag, counters))[0] == tag
    ensures forall k | 1 <= k <= |counters| :: ParseInt(Split(CpuLine(tag, counters))[k]) == Some(counters[k - 1])
  {
    var fs := [tag] + FormatAll(counters);
    var n := |fs|;
    forall k | 0 <= k < n ensures ' ' !in fs[k] {
      if k >= 1 {
        FormatIntHasNoSpace(counters[k - 1]);
      }
    }
    SplitNewline(fs);
    var sp := Split(CpuLine(tag, counters));
    assert sp == fs[..n - 1] + [fs[n - 1] + "\n"];
    assert sp[0] == tag;
    forall k | 1 <= k < n ensures ParseInt(sp[k]) == Some(counters[k - 1]) {
      assert fs[k] == FormatInt(counters[k - 1]);
      if k < n - 1 {
        assert sp[k] == fs[k];
      }
      ParsesBack(sp[k], counters[k - 1], k == n - 1);
    }
  }

  /** A per-core line: starts with "cpu" but is not the "cpu " total line. */
  predicate IsCoreLine(line: string)
  {
    |line| >= 3 && line[..3] == "cpu" && !(|line| >= 4 && line[..4] == "cpu ")
  }

  /** The per-core lines of /proc/stat, in file order. */
  function CoreLines(lines: seq<string>): (cs: seq<string>)
    ensures |lines| == 1 ==> cs == (if IsCoreLine(lines[0]) then lines else [])
    ensures forall k | 0 <= k < |cs| :: IsCoreLine(cs[k])
  {
    if lines == [] then []
    else
      var last := lines[|lines| - 1];
      CoreLines(lines[..|lines| - 1]) + (if IsCoreLine(last) then [last] else [])
  }

  /** Every core line of the file, and nothing else, is kept. */
  lemma {:induction false} CoreLinesMembers(lines: seq<string>)
    ensures forall line :: line in CoreLines(lines) <==> line in lines && IsCoreLine(line)
  {
    if lines != [] {
      CoreLinesMembers(lines[..|lines| - 1]);
      assert lines == lines[..|lines| - 1] + [lines[|lines| - 1]];
    }
  }

  /** The core lines of a file are those of its first part followed by those of the rest. */
  lemma {:induction false} CoreLinesAppend(a: seq<string>, b: seq<string>)
    ensures CoreLines(a + b) == CoreLines(a) + CoreLines(b)
  {
    if b != [] {
      var ab := a + b;
      assert ab[..|ab| - 1] == a + b[..|b| - 1];
      assert ab[|ab| - 1] == b[|b| - 1];
      CoreLinesAppend(a, b[..|b| - 1]);
    } else {
      assert a + b == a;
    }
  }

  /**
   * `SystemSnapshot.get_cpus_snapshot`: sample k is the decoding of the k-th
   * core line. If any core line fails to decode, `self.cpus` is never set and
   * the snapshot has no usable core list (None).
   */
  function DecodeCpus(lines: seq<string>): (r: Option<seq<CpuSample>>)
    ensures r.Some? ==> |r.value| == |CoreLines(lines)|
  {
    if lines == [] then Some([])
    else
      match DecodeCpus(lines[..|lines| - 1])
      case None => None
      case Some(cores) =>
        var line := lines[|lines| - 1];
        if !IsCoreLine(line) then Some(cores)
        else
          match DecodeCpu(line)
          case None => None
          case Some(c) => Some(cores + [c])
  }

  /** One step of `DecodeCpus`: the list so far, extended by the decoding of `line` when it is a core line. */
  function CpusStep(r0: Option<seq<CpuSample>>, line: string): Option<seq<CpuSample>>
  {
    if r0.None? then None
    else if !IsCoreLine(line) then r0
    else if DecodeCpu(line).None? then None
    else Some(r0.value + [DecodeCpu(line).value])
  }

  lemma CpusUnfold(lines: seq<string>)
    requires lines != []
    ensures CoreLines(lines) == CoreLines(lines[..|lines| - 1])
      + (if IsCoreLine(lines[|lines| - 1]) then [lines[|lines| - 1]] else [])
    ensures DecodeCpus(lines) == CpusStep(DecodeCpus(lines[..|lines| - 1]), lines[|lines| - 1])
  {
  }

  /** The core list exists exactly when every core line decodes. */
  lemma {:induction false} DecodeCpusExists(lines: seq<string>)
    ensures DecodeCpus(lines).Some? <==> forall k | 0 <= k < |CoreLines(lines)| :: DecodeCpu(CoreLines(lines)[k]).Some?
  {
    if lines != [] {
      var init := lines[..|lines| - 1];
      DecodeCpusExists(init);
      CpusUnfold(lines);
      StepExists(lines[|lines| - 1], CoreLines(init), CoreLines(lines), DecodeCpus(init));
    }
  }

  lemma StepExists(line: string, before: seq<string>, all: seq<string>, r0: Option<seq<CpuSample>>)
    requires all == before + (if IsCoreLine(line) then [line] else [])
    requires r0.Some? <==> forall k | 0 <= k < |before| :: DecodeCpu(before[k]).Some?
    ensures CpusStep(r0, line).Some? <==> forall k | 0 <= k < |all| :: DecodeCpu(all[k]).Some?
  {
    if CpusStep(r0, line).Some? {
      forall k | 0 <= k < |all|
        ensures DecodeCpu(all[k]).Some?
      {
        if k < |before| {
          assert all[k] == before[k];
        }
      }
    } else if r0.None? {
      var k :| 0 <= k < |before| && DecodeCpu(before[k]).None?;
      assert all[k] == before[k];
    } else {
      assert all[|before|] == line;
    }
  }

  /** Sample k of the core list is the decoding of the k-th core line. */
  lemma {:induction false} DecodeCpusSamples(lines: seq<string>)
    requires DecodeCpus(lines).Some?
    ensures forall k | 0 <= k < |CoreLines(lines)| :: Some(DecodeCpus(lines).value[k]) == DecodeCpu(CoreLines(lines)[k])
  {
    if lines != [] {
      var init := lines[..|lines| - 1];
      CpusUnfold(lines);
      DecodeCpusSamples(init);
      StepSamples(lines[|lines| - 1], CoreLines(init), CoreLines(lines), DecodeCpus(init).value);
    }
  }

  lemma StepSamples(line: string, before: seq<string>, all: seq<string>, cores: seq<CpuSample>)
    requires all == before + (if IsCoreLine(line) then [line] else [])
    requires |cores| == |before| && forall k | 0 <= k < |before| :: Some(cores[k]) == DecodeCpu(before[k])
    requires CpusStep(Some(cores), line).Some?
    ensures forall k | 0 <= k < |all| :: Some(CpusStep(Some(cores), line).value[k]) == DecodeCpu(all[k])
  {
    forall k | 0 <= k < |all|
      ensures Some(CpusStep(Some(cores), line).value[k]) == DecodeCpu(all[k])
    {
      if k < |before| {
        assert all[k] == before[k];
      }
    }
  }

  // ---------------------------------------------------------------------
  // Process records and the snapshot
  // ---------------------------------------------------------------------

  /**
   * What the reads for one pid returned: the status line, and the listing of
   * its task directory (None when listing failed) with, for each entry, the
   * line read from its status file (None when that read failed).
   */
  datatype RawProcess = RawProcess(stat: string, taskDir: Option<seq<(string, Option<string>)>>)

  /** The entries of a listing whose names are all digits (`thread.isdigit()`), in order. */
  function DigitEntries(entries: seq<(string, Option<string>)>): (ds: seq<(string, Option<string>)>)
    ensures |entries| == 1 ==> ds == (if IsDigits(entries[0].0) then entries else [])
    ensures forall k | 0 <= k < |ds| :: IsDigits(ds[k].0)
    ensures forall e :: e in ds <==> e in entries && IsDigits(e.0)
  {
    if entries == [] then []
    else
      assert entries == [entries[0]] + entries[1..];
      (if IsDigits(entries[0].0) then [entries[0]] else []) + DigitEntries(entries[1..])
  }

  /** Filtering keeps the order of the listing: it distributes over concatenation. */
  lemma {:induction false} DigitEntriesAppend(a: seq<(string, Option<string>)>, b: seq<(string, Option<string>)>)
    ensures DigitEntries(a + b) == DigitEntries(a) + DigitEntries(b)
  {
    if a == [] {
      assert a + b == b;
    } else {
      assert (a + b)[0] == a[0] && (a + b)[1..] == a[1..] + b;
      DigitEntriesAppend(a[1..], b);
    }
  }

  /** `int(name)` on a name of digits. */
  function Id(name: string): nat
    requires IsDigits(name)
  {
    DigitsValue(name)
  }

  /** The entries' names as integers (`int(thread)`). */
  function Ids(entries: seq<(string, Option<string>)>): (ids: seq<int>)
    requires forall k | 0 <= k < |entries| :: IsDigits(entries[k].0)
    ensures |ids| == |entries|
    ensures forall k | 0 <= k < |entries| :: ids[k] == Id(entries[k].0)
  {
    if entries == [] then []
    else
      assert IsDigits(entries[0].0);
      [Id(entries[0].0)] + Ids(entries[1..])
  }

  /**
   * One thread entry, read: its id and the record its status line decodes to
   * (None when the file could not be read or the record does not decode, the
   * two ways the loop's body raises).
   */
  function ReadEntry(e: (string, Option<string>)): (nat, Option<Task>)
    requires IsDigits(e.0)
  {
    (Id(e.0), if e.1.None? then None else DecodeTask(e.1.value))
  }

  function ReadEntries(entries: seq<(string, Option<string>)>): (rs: seq<(nat, Option<Task>)>)
    requires forall k | 0 <= k < |entries| :: IsDigits(entries[k].0)
    ensures |rs| == |entries| && forall k | 0 <= k < |entries| :: rs[k] == ReadEntry(entries[k])
  {
    seq(|entries|, k requires 0 <= k < |entries| => ReadEntry(entries[k]))
  }

  /** How many entries, from the first, are read before the first one that fails. */
  function ReadPrefix(rs: seq<(nat, Option<Task>)>): (n: nat)
    ensures n <= |rs|
    ensures forall k | 0 <= k < n :: rs[k].1.Some?
    ensures n < |rs| ==> rs[n].1.None?
  {
    if rs == [] || rs[0].1.None? then 0 else 1 + ReadPrefix(rs[1..])
  }

  /**
   * The thread loop of `GetPidShapshot.__init__`, over the entries read: the
   * records are added in order until the first one that cannot be read or
   * decoded, whose exception ends the loop (the records already added are
   * kept).
   */
  function ThreadStats(rs: seq<(nat, Option<Task>)>): (m: map<int, Task>)
    ensures forall id | id in m :: exists k | 0 <= k < |rs| :: rs[k].0 == id
  {
    if rs == [] || rs[0].1.None? then map[]
    else
      var rest := ThreadStats(rs[1..]);
      assert forall id | id in rest :: exists k | 0 <= k < |rs| :: rs[k].0 == id by {
        forall id | id in rest ensures exists k | 0 <= k < |rs| :: rs[k].0 == id {
          var j :| 0 <= j < |rs[1..]| && rs[1..][j].0 == id;
          assert rs[j + 1].0 == id;
        }
      }
      map[rs[0].0 := rs[0].1.value] + rest
  }

  /** The thread table holds exactly the ids of the entries read before the first failure. */
  lemma {:induction false} ThreadStatsKeys(rs: seq<(nat, Option<Task>)>)
    ensures forall id :: id in ThreadStats(rs) <==> exists k | 0 <= k < ReadPrefix(rs) :: rs[k].0 == id
  {
    if rs != [] && rs[0].1.Some? {
      var tail := rs[1..];
      ThreadStatsKeys(tail);
      assert ThreadStats(rs) == map[rs[0].0 := rs[0].1.value] + ThreadStats(tail);
      assert ReadPrefix(rs) == 1 + ReadPrefix(tail);
      forall id
        ensures id in ThreadStats(rs) <==> exists k | 0 <= k < ReadPrefix(rs) :: rs[k].0 == id
      {
        if id in ThreadStats(tail) {
          var j :| 0 <= j < ReadPrefix(tail) && tail[j].0 == id;
          assert rs[j + 1].0 == id;
        }
        if exists k | 0 <= k < ReadPrefix(rs) :: rs[k].0 == id {
          var k :| 0 <= k < ReadPrefix(rs) && rs[k].0 == id;
          if k > 0 {
            assert tail[k - 1].0 == id;
          }
        }
      }
    }
  }

  /**
   * The record stored for a thread id is the one read from the last entry
   * with that id before the first failure (a later entry overwrites an
   * earlier one, as the dictionary assignment does).
   */
  lemma {:induction false} ThreadStatsValues(rs: seq<(nat, Option<Task>)>, k: nat)
    requires k < ReadPrefix(rs)
    requires forall k2 | k < k2 < ReadPrefix(rs) :: rs[k2].0 != rs[k].0
    ensures rs[k].0 in ThreadStats(rs) && ThreadStats(rs)[rs[k].0] == rs[k].1.value
  {
    var tail := rs[1..];
    assert ThreadStats(rs) == map[rs[0].0 := rs[0].1.value] + ThreadStats(tail);
    assert ReadPrefix(rs) == 1 + ReadPrefix(tail);
    if k == 0 {
      ThreadStatsKeys(tail);
      forall j | 0 <= j < ReadPrefix(tail)
        ensures tail[j].0 != rs[0].0
      {
        assert tail[j] == rs[j + 1];
      }
      assert rs[0].0 !in ThreadStats(tail);
    } else {
      forall k2 | k - 1 < k2 < ReadPrefix(tail)
        ensures tail[k2].0 != tail[k - 1].0
      {
        assert tail[k2] == rs[k2 + 1];
      }
      ThreadStatsValues(tail, k - 1);
    }
  }

  /**
   * `GetPidShapshot`: None when the status line does not decode (the caller
   * drops the pid). The task is that line's decoding. A failed task-directory
   * listing leaves `threads` empty and `tstats` unset (`listed` false);
   * otherwise the threads are the digit entries and their table is read.
   */
  function DecodeProcess(raw: RawProcess): (p: Option<Process>)
    ensures p.Some? <==> DecodeTask(raw.stat).Some?
    ensures p.Some? ==> Some(p.value.task) == DecodeTask(raw.stat)
    ensures p.Some? ==> (p.value.listed <==> raw.taskDir.Some?)
    ensures p.Some? && !p.value.listed ==> p.value.threads == [] && p.value.tstats == map[]
    ensures p.Some? && p.value.listed ==> (var ds := DigitEntries(raw.taskDir.value);
      p.value.threads == Ids(ds) && p.value.tstats == ThreadStats(ReadEntries(ds)))
    ensures p.Some? ==> forall id | id in p.value.tstats :: id in p.value.threads
  {
    match DecodeTask(raw.stat)
    case None => None
    case Some(t) =>
      match raw.taskDir
      case None => Some(Process(t, [], map[], false))
      case Some(entries) =>
        var ds := DigitEntries(entries);
        ThreadIdsListed(ds);
        Some(Process(t, Ids(ds), ThreadStats(ReadEntries(ds)), true))
  }

  /** Every thread with a record is one of the listed threads. */
  lemma ThreadIdsListed(ds: seq<(string, Option<string>)>)
    requires forall k | 0 <= k < |ds| :: IsDigits(ds[k].0)
    ensures forall id | id in ThreadStats(ReadEntries(ds)) :: id in Ids(ds)
  {
    var rs := ReadEntries(ds);
    forall id | id in ThreadStats(rs) ensures id in Ids(ds) {
      var k :| 0 <= k < |rs| && rs[k].0 == id;
      assert Ids(ds)[k] == id;
    }
  }

  /** The digit-only names of a directory listing, as integers, in order. */
  function PidList(names: seq<string>): (pids: seq<int>)
    ensures |names| == 1 ==> pids == (if IsDigits(names[0]) then [Id(names[0])] else [])
    ensures forall v :: v in pids <==> exists k | 0 <= k < |names| :: IsDigits(names[k]) && Id(names[k]) == v
  {
    if names == [] then []
    else
      var n := names[|names| - 1];
      var init := names[..|names| - 1];
      assert forall k | 0 <= k < |init| :: init[k] == names[k];
      PidList(init) + (if IsDigits(n) then [Id(n)] else [])
  }

  /** The pid list keeps the order of the `/proc` listing: it distributes over concatenation. */
  lemma {:induction false} PidListAppend(a: seq<string>, b: seq<string>)
    ensures PidList(a + b) == PidList(a) + PidList(b)
  {
    if b == [] {
      assert a + b == a;
    } else {
      var ab := a + b;
      assert ab[..|ab| - 1] == a + b[..|b| - 1];
      assert ab[|ab| - 1] == b[|b| - 1];
      PidListAppend(a, b[..|b| - 1]);
    }
  }

  /** Each pid's reads, decoded: `get_process_info` stores a record for a name whose reads decode. */
  function DecodeAll(raws: map<string, RawProcess>): (procs: map<string, Option<Process>>)
    ensures forall n :: n in procs <==> n in raws
    ensures forall n | n in raws :: procs[n] == DecodeProcess(raws[n])
  {
    map n | n in raws :: DecodeProcess(raws[n])
  }

  /** A listed name with a decoded record. */
  predicate Stored(n: string, procs: map<string, Option<Process>>)
  {
    IsDigits(n) && n in procs && procs[n].Some?
  }

  /**
   * `get_processes_snapshot`, over each pid's decoded reads: every listed pid
   * whose status file was read and decoded gets a record; the others are
   * dropped silently but stay in the pid list.
   */
  function ProcessTable(names: seq<string>, procs: map<string, Option<Process>>): (table: map<int, Process>)
    ensures forall pid | pid in table :: pid in PidList(names)
  {
    if names == [] then map[]
    else
      var rest := ProcessTable(names[..|names| - 1], procs);
      var n := names[|names| - 1];
      if Stored(n, procs) then rest[Id(n) := procs[n].value]
      else rest
  }

  /** A pid has a record exactly when some listed name with its value was read and decodes. */
  lemma {:induction false} ProcessTableKeys(names: seq<string>, procs: map<string, Option<Process>>)
    ensures forall pid :: pid in ProcessTable(names, procs) <==>
      exists k | 0 <= k < |names| :: Stored(names[k], procs) && Id(names[k]) == pid
  {
    if names != [] {
      var init := names[..|names| - 1];
      ProcessTableKeys(init, procs);
      assert forall k | 0 <= k < |init| :: init[k] == names[k];
    }
  }

  /**
   * A stored pid's record is the decoding of the reads for the last listed
   * name with its value (a later name overwrites an earlier one).
   */
  lemma {:induction false} ProcessTableValues(names: seq<string>, procs: map<string, Option<Process>>, k: nat)
    requires k < |names| && Stored(names[k], procs)
    requires forall k2 | k < k2 < |names| :: !(Stored(names[k2], procs) && Id(names[k2]) == Id(names[k]))
    ensures Id(names[k]) in ProcessTable(names, procs)
    ensures ProcessTable(names, procs)[Id(names[k])] == procs[names[k]].value
  {
    var init := names[..|names| - 1];
    if k < |names| - 1 {
      assert forall j | 0 <= j < |init| :: init[j] == names[j];
      ProcessTableValues(init, procs, k);
    }
  }

  /**
   * `SystemSnapshot.__init__`: None when the core list cannot be built, a
   * snapshot whose `cpus` is never set. Otherwise the cores, the pid list and
   * the process table are those decoded above, and nothing is shown yet.
   */
  function DecodeSnapshot(statLines: seq<string>, procNames: seq<string>, raws: map<string, RawProcess>): (s: Option<Snapshot>)
    ensures s.Some? <==> DecodeCpus(statLines).Some?
    ensures s.Some? ==> s.value.cpus == DecodeCpus(statLines).value && s.value.shown == []
    ensures s.Some? ==> s.value.pids == PidList(procNames) && s.value.pstats == ProcessTable(procNames, DecodeAll(raws))
    ensures s.Some? ==> forall pid | pid in s.value.pstats :: pid in s.value.pids
  {
    match DecodeCpus(statLines)
    case None => None
    case Some(cores) => Some(Snapshot(cores, PidList(procNames), ProcessTable(procNames, DecodeAll(raws)), []))
  }
}
