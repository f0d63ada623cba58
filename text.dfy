/**
 * Text primitives the record decoder relies on: Python's `str.split(' ')`,
 * Python 2's `int()` on a field, and the control-character filter applied
 * to a process command line (`SystemSnapshot.process_name_filter`).
 */
module Text {
  import opened Common

  /** Number of occurrences of `c` in `s`. */
  function Count(s: string, c: char): nat
  {
    if s == [] then 0 else (if s[0] == c then 1 else 0) + Count(s[1..], c)
  }

  lemma {:induction false} CountAppend(a: string, b: string, c: char)
    ensures Count(a + b, c) == Count(a, c) + Count(b, c)
  {
    if a == [] {
      assert a + b == b;
    } else {
      assert (a + b)[1..] == a[1..] + b;
      CountAppend(a[1..], b, c);
    }
  }

  lemma {:induction false} CountAbsent(s: string, c: char)
    requires c !in s
    ensures Count(s, c) == 0
  {
    if s != [] {
      assert c !in s[1..];
      CountAbsent(s[1..], c);
    }
  }

  /** First position of `c` in `s`. */
  function IndexOf(s: string, c: char): (p: nat)
    requires c in s
    ensures p < |s| && s[p] == c && c !in s[..p]
  {
    if s[0] == c then 0 else 1 + IndexOf(s[1..], c)
  }

  // ---------------------------------------------------------------------
  // str.split(' ') and its inverse ' '.join(...)
  // ---------------------------------------------------------------------

  /**
   * Python's `s.split(' ')`: the pieces between single spaces. Two adjacent
   * spaces give an empty field, and there is always one more field than
   * there are spaces.
   */
  function Split(s: string): (fields: seq<string>)
    ensures |fields| == Count(s, ' ') + 1
    ensures forall k | 0 <= k < |fields| :: ' ' !in fields[k]
    decreases |s|
  {
    if ' ' !in s then
      CountAbsent(s, ' ');
      [s]
    else
      var p := IndexOf(s, ' ');
      assert s == s[..p] + ([' '] + s[p + 1..]);
      CountAppend(s[..p], [' '] + s[p + 1..], ' ');
      CountAppend([' '], s[p + 1..], ' ');
      CountAbsent(s[..p], ' ');
      [s[..p]] + Split(s[p + 1..])
  }

  /** Python's `' '.join(fields)`. */
  function Join(fields: seq<string>): string
    requires |fields| >= 1
  {
    if |fields| == 1 then fields[0] else fields[0] + " " + Join(fields[1..])
  }

  /** Splitting and joining again gives back the record. */
  lemma {:induction false} JoinSplit(s: string)
    ensures Join(Split(s)) == s
    decreases |s|
  {
    if ' ' in s {
      var p := IndexOf(s, ' ');
      var rest := s[p + 1..];
      JoinSplit(rest);
      var fields := Split(s);
      assert fields == [s[..p]] + Split(rest);
      assert fields[1..] == Split(rest);
      assert Join(fields) == s[..p] + " " + Join(Split(rest));
      assert s == s[..p] + " " + rest;
    }
  }

  /** Joining fields that hold no space and splitting again gives back the fields. */
  lemma {:induction false} SplitJoin(fields: seq<string>)
    requires |fields| >= 1
    requires forall k | 0 <= k < |fields| :: ' ' !in fields[k]
    ensures Split(Join(fields)) == fields
  {
    if |fields| == 1 {
      assert Join(fields) == fields[0];
    } else {
      var rest := Join(fields[1..]);
      assert Join(fields) == fields[0] + " " + rest;
      SplitStep(fields[0], rest);
      SplitJoin(fields[1..]);
      assert fields == [fields[0]] + fields[1..];
    }
  }

  /** A line ending in a newline joins as if the newline belonged to its last field. */
  lemma {:induction false} JoinNewline(fields: seq<string>)
    requires |fields| >= 1
    ensures Join(fields) + "\n" == Join(fields[..|fields| - 1] + [fields[|fields| - 1] + "\n"])
  {
    if |fields| > 1 {
      JoinNewline(fields[1..]);
      var g := fields[..|fields| - 1] + [fields[|fields| - 1] + "\n"];
      assert g[1..] == fields[1..][..|fields| - 2] + [fields[|fields| - 1] + "\n"];
      assert Join(fields) + "\n" == fields[0] + " " + (Join(fields[1..]) + "\n");
    }
  }

  /** Splitting a joined line that ends in a newline leaves the newline on the last field. */
  lemma SplitNewline(fields: seq<string>)
    requires |fields| >= 1
    requires forall k | 0 <= k < |fields| :: ' ' !in fields[k]
    ensures Split(Join(fields) + "\n") == fields[..|fields| - 1] + [fields[|fields| - 1] + "\n"]
  {
    var n := |fields|;
    var last := fields[n - 1] + "\n";
    var gs := fields[..n - 1] + [last];
    JoinNewline(fields);
    forall k | 0 <= k < |gs| ensures ' ' !in gs[k] {
      if k < n - 1 {
        assert gs[k] == fields[k];
      } else {
        NoSpaceNewline(fields[n - 1]);
      }
    }
    SplitJoin(gs);
  }

  lemma NoSpaceNewline(f: string)
    requires ' ' !in f
    ensures ' ' !in f + "\n"
  {
    assert forall i | 0 <= i < |f| :: (f + "\n")[i] == f[i];
  }

  /** Splitting stops at the first space. */
  lemma SplitStep(a: string, b: string)
    requires ' ' !in a
    ensures Split(a + " " + b) == [a] + Split(b)
  {
    IndexOfAfter(a, b, ' ');
  }

  /** The first `c` of `s` is at or before any position holding `c`. */
  lemma {:induction false} IndexOfAtMost(s: string, c: char, q: nat)
    requires q < |s| && s[q] == c
    ensures c in s && IndexOf(s, c) <= q
  {
    if s[0] != c {
      assert s[1..][q - 1] == c;
      IndexOfAtMost(s[1..], c, q - 1);
    }
  }

  /** The first `c` of `a + [c] + b` is the one after `a` when `a` holds none. */
  lemma IndexOfAfter(a: string, b: string, c: char)
    requires c !in a
    ensures c in a + [c] + b && IndexOf(a + [c] + b, c) == |a|
    ensures (a + [c] + b)[..|a|] == a && (a + [c] + b)[|a| + 1..] == b
  {
    var s := a + [c] + b;
    assert s[|a|] == c;
    IndexOfAtMost(s, c, |a|);
    assert forall k | 0 <= k < |a| :: s[k] == a[k];
    assert s[..|a|] == a;
    assert s[|a| + 1..] == b;
  }


  // ---------------------------------------------------------------------
  // int() on a field (Python 2, base 10)
  // ---------------------------------------------------------------------

  predicate IsDigit(c: char) { '0' <= c <= '9' }

  /** Python's `str.isdigit()` on a byte string: non-empty, all ASCII digits. */
  predicate IsDigits(s: string)
  {
    |s| > 0 && forall k | 0 <= k < |s| :: IsDigit(s[k])
  }

  /** The characters Python 2's `int()` strips from both ends. */
  predicate IsWhite(c: char)
  {
    c == ' ' || c == '\t' || c == '\n' || c == '\r' || c == '\U{B}' || c == '\U{C}'
  }

  /** Length of the run of white space at the start of `s`. */
  function Leading(s: string): (n: nat)
    ensures n <= |s| && (n == |s| || !IsWhite(s[n]))
    ensures forall k | 0 <= k < n :: IsWhite(s[k])
  {
    if s != [] && IsWhite(s[0]) then 1 + Leading(s[1..]) else 0
  }

  /** Length of the run of white space at the end of `s`. */
  function Trailing(s: string): (n: nat)
    ensures n <= |s| && (n == |s| || !IsWhite(s[|s| - 1 - n]))
    ensures forall k | |s| - n <= k < |s| :: IsWhite(s[k])
  {
    if s != [] && IsWhite(s[|s| - 1]) then 1 + Trailing(s[..|s| - 1]) else 0
  }

  /** `s` without its leading white space (`lstrip()`). */
  function StripLeft(s: string): (t: string)
    ensures t == [] || !IsWhite(t[0])
  {
    s[Leading(s)..]
  }

  /** `s` without its trailing white space (`rstrip()`). */
  function StripRight(s: string): (t: string)
    ensures t == [] || !IsWhite(t[|t| - 1])
  {
    s[..|s| - Trailing(s)]
  }

  /** Value of a run of decimal digits, most significant first. */
  function DigitsValue(s: string): nat
    requires forall k | 0 <= k < |s| :: IsDigit(s[k])
  {
    if s == [] then 0
    else
      var d := s[|s| - 1];
      assert IsDigit(d);
      DigitsValue(s[..|s| - 1]) * 10 + (d as int - '0' as int)
  }

  /**
   * Python 2's `int(field)`: surrounding whitespace is ignored, one optional
   * sign, whitespace after the sign is skipped too, then at least one decimal
   * digit. Anything else raises ValueError, which the model returns as None.
   */
  function ParseInt(s: string): Option<int>
  {
    var t := StripRight(StripLeft(s));
    if |t| > 0 && (t[0] == '-' || t[0] == '+') then
      match Unsigned(StripLeft(t[1..]))
      case None => None
      case Some(magnitude) => Some(if t[0] == '-' then -magnitude else magnitude)
    else
      Unsigned(t)
  }

  /** A bare run of decimal digits and its value; None for anything else. */
  function Unsigned(u: string): (r: Option<int>)
    ensures r.Some? <==> IsDigits(u)
    ensures r.Some? ==> r.value == DigitsValue(u)
  {
    if IsDigits(u) then Some(DigitsValue(u)) else None
  }

  /** Decimal digits of a natural number, most significant first. */
  function Digits(n: nat): (s: string)
    ensures IsDigits(s)
  {
    if n < 10 then ['0' + n as char] else Digits(n / 10) + ['0' + (n % 10) as char]
  }

  /** Python's `str(n)` for an integer. */
  function FormatInt(n: int): string
  {
    if n < 0 then "-" + Digits(-n) else Digits(n)
  }

  lemma {:induction false} DigitsRoundTrip(n: nat)
    ensures DigitsValue(Digits(n)) == n
  {
    var s := Digits(n);
    if n >= 10 {
      DigitsRoundTrip(n / 10);
      assert s[..|s| - 1] == Digits(n / 10);
    }
  }

  /** `int(str(n)) == n`: a formatted integer is read back exactly. */
  lemma FormatParse(n: int)
    ensures ParseInt(FormatInt(n)) == Some(n)
  {
    if n < 0 {
      NegativeParse(n);
    } else {
      DigitsParse(n);
    }
  }

  lemma DigitsParse(n: int)
    requires n >= 0
    ensures ParseInt(FormatInt(n)) == Some(n)
  {
    var d := Digits(n);
    DigitsRoundTrip(n);
    assert FormatInt(n) == d;
    assert IsDigit(d[0]) && IsDigit(d[|d| - 1]);
    Unstripped(d);
    assert !(d[0] == '-' || d[0] == '+');
  }

  lemma NegativeParse(n: int)
    requires n < 0
    ensures ParseInt(FormatInt(n)) == Some(n)
  {
    var d := Digits(-n);
    var s := "-" + d;
    DigitsRoundTrip(-n);
    assert FormatInt(n) == s;
    assert IsDigit(d[0]) && IsDigit(d[|d| - 1]) && s[|s| - 1] == d[|d| - 1];
    assert s[1..] == d;
    Unstripped(d);
    SignedDigits(s, d);
  }

  /** Python 2's `int()` also skips white space between the sign and the digits. */
  lemma SignThenSpace(d: string)
    requires IsDigits(d)
    ensures ParseInt("- " + d) == Some(-(DigitsValue(d) as int))
    ensures ParseInt("+ " + d) == Some(DigitsValue(d))
  {
    assert IsDigit(d[0]) && IsDigit(d[|d| - 1]);
    var w := " " + d;
    assert w[1..] == d;
    Unstripped(d);
    assert Leading(w) == 1;
    var m := "-" + w;
    var p := "+" + w;
    assert m == "- " + d && p == "+ " + d;
    assert m[|m| - 1] == d[|d| - 1] && p[|p| - 1] == d[|d| - 1];
    assert m[1..] == w && p[1..] == w;
    SignedDigits(m, d);
    SignedDigits(p, d);
  }

  /** The signed branch of `ParseInt` on a string with nothing to strip at either end. */
  lemma SignedDigits(s: string, d: string)
    requires |s| > 1 && (s[0] == '-' || s[0] == '+') && !IsWhite(s[|s| - 1])
    requires StripLeft(s[1..]) == d && IsDigits(d)
    ensures ParseInt(s) == Some(if s[0] == '-' then -(DigitsValue(d) as int) else DigitsValue(d))
  {
    Unstripped(s);
  }

  /** `int()` ignores the newline `readline` leaves at the end of a record. */
  lemma ParseNewline(n: int)
    ensures ParseInt(FormatInt(n) + "\n") == Some(n)
  {
    var s := FormatInt(n);
    var d := Digits(if n < 0 then -n else n);
    assert IsDigit(d[0]) && IsDigit(d[|d| - 1]);
    if n < 0 {
      assert s == "-" + d;
    } else {
      assert s == d;
    }
    ParseIgnoresNewline(s);
    FormatParse(n);
  }

  lemma ParseIgnoresNewline(s: string)
    requires s != [] && !IsWhite(s[0]) && !IsWhite(s[|s| - 1])
    ensures ParseInt(s + "\n") == ParseInt(s)
  {
    var sn := s + "\n";
    assert sn[0] == s[0] && sn[..|sn| - 1] == s;
    Unstripped(s);
    assert Leading(sn) == 0 && Trailing(sn) == 1;
    assert StripRight(StripLeft(sn)) == s;
  }

  /** Stripping changes nothing when neither end is white space. */
  lemma Unstripped(s: string)
    requires s != [] && !IsWhite(s[0]) && !IsWhite(s[|s| - 1])
    ensures StripLeft(s) == s && StripRight(s) == s
  {
    assert Leading(s) == 0 && Trailing(s) == 0;
  }


  /** Every field of a formatted integer is free of spaces, so it survives `split(' ')`. */
  lemma FormatIntHasNoSpace(n: int)
    ensures ' ' !in FormatInt(n)
  {
    var d := Digits(if n < 0 then -n else n);
    assert forall k | 0 <= k < |d| :: d[k] != ' ';
    if n < 0 {
      assert forall k | 0 <= k < |FormatInt(n)| :: FormatInt(n)[k] == if k == 0 then '-' else d[k - 1];
    }
  }

  // ---------------------------------------------------------------------
  // process_name_filter
  // ---------------------------------------------------------------------

  /** A character `process_name_filter` keeps: code above 31, or a tab. */
  predicate Printable(c: char)
  {
    c as int > 31 || c as int == 9
  }

  /**
   * `SystemSnapshot.process_name_filter`: builds the result one character at
   * a time, replacing each control character other than tab by a space.
   */
  method ProcessNameFilter(s: string) returns (r: string)
    ensures |r| == |s|
    ensures forall k | 0 <= k < |s| :: r[k] == if Printable(s[k]) then s[k] else ' '
  {
    r := "";
    for i := 0 to |s|
      invariant |r| == i
      invariant forall k | 0 <= k < i :: r[k] == if Printable(s[k]) then s[k] else ' '
    {
      if Printable(s[i]) {
        r := r + [s[i]];
      } else {
        r := r + " ";
      }
    }
  }

  /** The filter's output holds no control character except tab, and filtering it again changes nothing. */
  lemma FilterIsIdempotent(s: string, r: string)
    requires |r| == |s|
    requires forall k | 0 <= k < |s| :: r[k] == if Printable(s[k]) then s[k] else ' '
    ensures forall k | 0 <= k < |r| :: Printable(r[k])
    ensures forall k | 0 <= k < |r| :: r[k] == if Printable(r[k]) then r[k] else ' '
  {
  }
}
