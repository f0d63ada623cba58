/**
 * Keyboard navigation: `curses_get_ch`'s mapping from the keys read to
 * events, and what `handle_user_input` does to the selection (`opts.pid`)
 * when it scans the ids the table showed (`pids_and_tids`, as text).
 */
module Navigation {
  import opened Common
  import opened Text

  datatype Event = Quit | Down | Up | Right | Left

  /** `curses_get_ch`: the key string read (None when none came within the delay) as an event. */
  function KeyEvent(key: Option<string>): Option<Event>
  {
    match key
    case None => None
    case Some(k) =>
      if k == "q" then Some(Quit)
      else if k == "j" then Some(Down)
      else if k == "k" then Some(Up)
      else if k == "\U{1B}[A" then Some(Up)
      else if k == "\U{1B}[B" then Some(Down)
      else if k == "\U{1B}[C" then Some(Right)
      else if k == "\U{1B}[D" then Some(Left)
      else None
  }

  /** What a scan leaves: the new selection, or ValueError from `int()` on an entry that is not a number. */
  datatype Outcome = Selects(selected: Option<int>) | Raises

  /** The entries as `int()` reads them, None where it raises. */
  function Parsed(ids: seq<string>): (nums: seq<Option<int>>)
    ensures |nums| == |ids| && forall k | 0 <= k < |ids| :: nums[k] == ParseInt(ids[k])
  {
    seq(|ids|, k requires 0 <= k < |ids| => ParseInt(ids[k]))
  }

  /**
   * The "up" scan from position k, `last` being the previous entry's value:
   * at the selected id, the selection moves to `last` if there is one, and
   * the scan returns.
   */
  function UpFrom(nums: seq<Option<int>>, selected: Option<int>, k: nat, last: Option<int>): Outcome
    requires k <= |nums|
    decreases |nums| - k
  {
    if k == |nums| then Selects(selected)
    else
      match nums[k]
      case None => Raises
      case Some(pid) =>
        if selected == Some(pid) then Selects(if last.Some? then last else selected)
        else UpFrom(nums, selected, k + 1, Some(pid))
  }

  /**
   * The "down" scan from position k: the entry after the one equal to the
   * selection becomes the selection, and the scan returns.
   */
  function DownFrom(nums: seq<Option<int>>, selected: Option<int>, k: nat, useNext: bool): Outcome
    requires k <= |nums|
    decreases |nums| - k
  {
    if k == |nums| then Selects(selected)
    else
      match nums[k]
      case None => Raises
      case Some(pid) =>
        if useNext then Selects(Some(pid))
        else DownFrom(nums, selected, k + 1, selected == Some(pid))
  }

  /** `handle_user_input` once the event is known (quitting is left to the caller). */
  function Handle(e: Option<Event>, ids: seq<string>, selected: Option<int>): Outcome
  {
    if e == Some(Up) then UpFrom(Parsed(ids), selected, 0, None)
    else if e == Some(Down) then DownFrom(Parsed(ids), selected, 0, false)
    else Selects(selected)
  }

  // ---------------------------------------------------------------------
  // The keys
  // ---------------------------------------------------------------------

  /** 'k' and ESC [ A go up, 'j' and ESC [ B go down, 'q' quits, and no other key is an up, down or quit event. */
  lemma KeyMap(key: Option<string>)
    ensures KeyEvent(key) == Some(Up) <==> key == Some("k") || key == Some("\U{1B}[A")
    ensures KeyEvent(key) == Some(Down) <==> key == Some("j") || key == Some("\U{1B}[B")
    ensures KeyEvent(key) == Some(Quit) <==> key == Some("q")
    ensures KeyEvent(key) == Some(Right) <==> key == Some("\U{1B}[C")
    ensures KeyEvent(key) == Some(Left) <==> key == Some("\U{1B}[D")
  {
  }

  // ---------------------------------------------------------------------
  // The scans against the list of ids
  // ---------------------------------------------------------------------

  /** Every entry of the list is a number. */
  predicate Numeric(nums: seq<Option<int>>)
  {
    forall k | 0 <= k < |nums| :: nums[k].Some?
  }

  /** The list's entries as numbers. */
  function Values(nums: seq<Option<int>>): (xs: seq<int>)
    requires Numeric(nums)
    ensures |xs| == |nums| && forall k | 0 <= k < |nums| :: xs[k] == nums[k].value
  {
    seq(|nums|, k requires 0 <= k < |nums| => nums[k].value)
  }

  /** Position i holds the first occurrence of v. */
  predicate FirstAt(xs: seq<int>, i: int, v: int)
  {
    0 <= i < |xs| && xs[i] == v && forall j | 0 <= j < i :: xs[j] != v
  }

  lemma {:induction false} UpScan(nums: seq<Option<int>>, v: int, i: nat, k: nat, last: Option<int>)
    requires Numeric(nums) && FirstAt(Values(nums), i, v) && k <= i
    requires last == if k > 0 then Some(Values(nums)[k - 1]) else None
    ensures UpFrom(nums, Some(v), k, last) == Selects(Some(if i > 0 then Values(nums)[i - 1] else v))
    decreases i - k
  {
    if k < i {
      assert Values(nums)[k] != v;
      UpScan(nums, v, i, k + 1, Some(Values(nums)[k]));
    }
  }

  /**
   * "up" on a list of numbers selects the id just before the first entry
   * equal to the selection, and changes nothing when that entry is the first.
   */
  lemma UpMoves(nums: seq<Option<int>>, v: int, i: nat)
    requires Numeric(nums) && FirstAt(Values(nums), i, v)
    ensures UpFrom(nums, Some(v), 0, None) == Selects(if i > 0 then Some(Values(nums)[i - 1]) else Some(v))
  {
    UpScan(nums, v, i, 0, None);
  }

  lemma {:induction false} DownScan(nums: seq<Option<int>>, v: int, i: nat, k: nat)
    requires Numeric(nums) && FirstAt(Values(nums), i, v) && k <= i
    ensures DownFrom(nums, Some(v), k, false) == Selects(if i + 1 < |nums| then Some(Values(nums)[i + 1]) else Some(v))
    decreases i - k
  {
    if k < i {
      assert Values(nums)[k] != v;
      DownScan(nums, v, i, k + 1);
    } else if i + 1 < |nums| {
      assert nums[i + 1].Some?;
    }
  }

  /**
   * "down" on a list of numbers selects the id just after the first entry
   * equal to the selection, and changes nothing when that entry is the last.
   */
  lemma DownMoves(nums: seq<Option<int>>, v: int, i: nat)
    requires Numeric(nums) && FirstAt(Values(nums), i, v)
    ensures DownFrom(nums, Some(v), 0, false) == Selects(if i + 1 < |nums| then Some(Values(nums)[i + 1]) else Some(v))
  {
    DownScan(nums, v, i, 0);
  }

  /**
   * An id listed twice in a row (a multi-threaded process's main thread is
   * listed as a process and again as a thread) stops "down": the selection
   * moves to the repeated entry, which is itself.
   */
  lemma DownStuckOnRepeat(nums: seq<Option<int>>, v: int, i: nat)
    requires Numeric(nums) && FirstAt(Values(nums), i, v)
    requires i + 1 < |nums| && Values(nums)[i + 1] == v
    ensures DownFrom(nums, Some(v), 0, false) == Selects(Some(v))
  {
    DownMoves(nums, v, i);
  }

  lemma {:induction false} AbsentScans(nums: seq<Option<int>>, selected: Option<int>, k: nat, last: Option<int>)
    requires Numeric(nums) && k <= |nums|
    requires selected.None? || selected.value !in Values(nums)[k..]
    ensures UpFrom(nums, selected, k, last) == Selects(selected)
    ensures DownFrom(nums, selected, k, false) == Selects(selected)
    decreases |nums| - k
  {
    if k < |nums| {
      assert Values(nums)[k] == Values(nums)[k..][0];
      assert Values(nums)[k + 1..] == Values(nums)[k..][1..];
      AbsentScans(nums, selected, k + 1, Some(Values(nums)[k]));
    }
  }

  /** With no selection, or one the list does not hold, neither key changes anything. */
  lemma UnlistedSelectionStays(ids: seq<string>, selected: Option<int>, e: Option<Event>)
    requires Numeric(Parsed(ids))
    requires selected.None? || selected.value !in Values(Parsed(ids))
    ensures Handle(e, ids, selected) == Selects(selected)
  {
    assert Values(Parsed(ids))[0..] == Values(Parsed(ids));
    AbsentScans(Parsed(ids), selected, 0, None);
  }

  /**
   * The scans read the entries in order up to where they return, so "up"
   * raises exactly when an entry that is not a number comes before the first
   * entry equal to the selection.
   */
  lemma {:induction false} UpRaises(nums: seq<Option<int>>, selected: Option<int>, k: nat, last: Option<int>)
    requires k <= |nums|
    ensures UpFrom(nums, selected, k, last) == Raises <==>
      exists b | k <= b < |nums| :: nums[b].None?
        && forall j | k <= j < b :: nums[j].Some? && selected != nums[j]
    decreases |nums| - k
  {
    if k < |nums| {
      UpRaises(nums, selected, k + 1, if nums[k].Some? then nums[k] else last);
      if nums[k].Some? && selected != nums[k] {
        var rest := exists b | k + 1 <= b < |nums| ::
          nums[b].None? && forall j | k + 1 <= j < b :: nums[j].Some? && selected != nums[j];
        if rest {
          var b :| k + 1 <= b < |nums| && nums[b].None?
            && forall j | k + 1 <= j < b :: nums[j].Some? && selected != nums[j];
          assert forall j | k <= j < b :: nums[j].Some? && selected != nums[j];
        }
      }
    }
  }

  /**
   * The "down" scan raises exactly when it meets an entry whose pid did not
   * parse before it has selected anything: no earlier entry was reached with
   * `useNext` set.
   */
  lemma {:induction false} DownRaises(nums: seq<Option<int>>, selected: Option<int>, k: nat, useNext: bool)
    requires k <= |nums|
    ensures DownFrom(nums, selected, k, useNext) == Raises <==>
      exists b | k <= b < |nums| :: nums[b].None? && (b > k ==> !useNext)
        && forall j | k <= j < b :: nums[j].Some? && (j + 1 < b ==> selected != nums[j])
    decreases |nums| - k
  {
    if k < |nums| && nums[k].Some? && !useNext {
      var next := selected == nums[k];
      DownRaises(nums, selected, k + 1, next);
      var rest := exists b | k + 1 <= b < |nums| :: (nums[b].None? && (b > k + 1 ==> !next)
        && forall j | k + 1 <= j < b :: nums[j].Some? && (j + 1 < b ==> selected != nums[j]));
      if rest {
        var b :| k + 1 <= b < |nums| && nums[b].None? && (b > k + 1 ==> !next)
          && forall j | k + 1 <= j < b :: nums[j].Some? && (j + 1 < b ==> selected != nums[j]);
        assert forall j | k <= j < b :: nums[j].Some? && (j + 1 < b ==> selected != nums[j]);
      }
      if exists b | k <= b < |nums| :: (nums[b].None? && (b > k ==> !useNext)
        && forall j | k <= j < b :: nums[j].Some? && (j + 1 < b ==> selected != nums[j]))
      {
        var b :| k <= b < |nums| && nums[b].None? && (b > k ==> !useNext)
          && forall j | k <= j < b :: nums[j].Some? && (j + 1 < b ==> selected != nums[j]);
        assert b > k;
        assert b > k + 1 ==> !next;
      }
    }
  }
}
