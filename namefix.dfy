/**
 * The name clean-up that `Thread.__init__` and `GetPidShapshot.__init__` run
 * before splitting a `/proc/<pid>/stat` record on spaces: the substitution
 * `re.sub(r'\((.*) (.*)\)', r'(\1_\2)', stat)` repeated until it changes
 * nothing, so that a command name such as `(Web Content)` becomes one field.
 */
module NameFix {
  import opened Common
  import opened Text

  /** First position at or after `i` holding a newline, or |s|: the regex `.` stops there. */
  function LineEnd(s: string, i: nat): (e: nat)
    requires i <= |s|
    ensures i <= e <= |s|
    ensures forall p | i <= p < e :: s[p] != '\n'
    ensures e < |s| ==> s[e] == '\n'
    decreases |s| - i
  {
    if i == |s| || s[i] == '\n' then i else LineEnd(s, i + 1)
  }

  /** Largest position in [lo, hi) holding `c`, if any. */
  function LastIndex(s: string, c: char, lo: nat, hi: nat): (r: Option<nat>)
    requires lo <= hi <= |s|
    ensures r.Some? ==> lo <= r.value < hi && s[r.value] == c
    ensures r.Some? ==> forall p | r.value < p < hi :: s[p] != c
    ensures r.None? ==> forall p | lo <= p < hi :: s[p] != c
    decreases hi - lo
  {
    if lo == hi then None
    else if s[hi - 1] == c then Some(hi - 1)
    else LastIndex(s, c, lo, hi - 1)
  }

  /**
   * The match of `\((.*) (.*)\)` that starts at the '(' in position i, as
   * (position of the space replaced, position of the closing ')'). Both groups
   * are greedy and `.` does not match a newline, so the closing parenthesis is
   * the last ')' on the line and the space is the last one before it.
   */
  function MatchAt(s: string, i: nat): (m: Option<(nat, nat)>)
    requires i < |s| && s[i] == '('
    ensures m.Some? ==> i < m.value.0 < m.value.1 < |s|
    ensures m.Some? ==> s[m.value.0] == ' ' && s[m.value.1] == ')'
  {
    var e := LineEnd(s, i + 1);
    match LastIndex(s, ')', i + 1, e)
    case None => None
    case Some(k) =>
      match LastIndex(s, ' ', i + 1, k)
      case None => None
      case Some(j) => Some((j, k))
  }

  /** The leftmost match that starts at or after position i (what the regex search finds). */
  function FirstMatch(s: string, i: nat): (m: Option<(nat, nat)>)
    requires i <= |s|
    ensures m.Some? ==> i < m.value.0 < m.value.1 < |s|
    ensures m.Some? ==> s[m.value.0] == ' ' && s[m.value.1] == ')'
    decreases |s| - i
  {
    if i == |s| then None
    else if s[i] == '(' && MatchAt(s, i).Some? then MatchAt(s, i)
    else FirstMatch(s, i + 1)
  }

  /**
   * The substitution from position i on: the search resumes after each
   * match's ')' in the original string, and every match found has its space
   * turned into '_'.
   */
  function RewriteFrom(s: string, i: nat): (r: string)
    requires i <= |s|
    ensures |r| == |s|
    ensures FirstMatch(s, i).None? ==> r == s
    decreases |s| - i
  {
    match FirstMatch(s, i)
    case None => s
    case Some((j, k)) => RewriteFrom(s, k + 1)[j := '_']
  }

  /** One call of `re.sub`: every non-overlapping match, left to right. */
  function RewriteOnce(s: string): string
  {
    RewriteFrom(s, 0)
  }

  /** `r` differs from `s` only where a space became '_'. */
  ghost predicate SpacesOnly(s: string, r: string)
  {
    |r| == |s| && forall p | 0 <= p < |s| :: r[p] == s[p] || (s[p] == ' ' && r[p] == '_')
  }

  /** Nothing but spaces is ever changed. */
  lemma {:induction false} RewriteFromSpaces(s: string, i: nat)
    requires i <= |s|
    ensures SpacesOnly(s, RewriteFrom(s, i))
    decreases |s| - i
  {
    match FirstMatch(s, i)
    case None =>
    case Some((j, k)) =>
      RewriteFromSpaces(s, k + 1);
  }

  /** A string with a match is changed: the space of the first match becomes '_'. */
  lemma RewriteFromMarks(s: string, i: nat)
    requires i <= |s| && FirstMatch(s, i).Some?
    ensures RewriteFrom(s, i)[FirstMatch(s, i).value.0] == '_'
  {
  }

  /** A rewrite that changed something has strictly fewer spaces: the loop below terminates. */
  lemma {:induction false} FewerSpaces(s: string, r: string)
    requires SpacesOnly(s, r)
    ensures Count(r, ' ') <= Count(s, ' ')
    ensures r != s ==> Count(r, ' ') < Count(s, ' ')
  {
    if s != [] {
      assert r[0] == s[0] || (s[0] == ' ' && r[0] == '_');
      assert r == [r[0]] + r[1..] && s == [s[0]] + s[1..];
      FewerSpaces(s[1..], r[1..]);
    }
  }

  /**
   * The fixed point the `while True` loop reaches: rewrite until nothing
   * changes.
   */
  function Normalised(s: string): (r: string)
    ensures |r| == |s|
    ensures RewriteOnce(r) == r
    ensures SpacesOnly(s, r)
    decreases Count(s, ' ')
  {
    var n := RewriteOnce(s);
    RewriteFromSpaces(s, 0);
    if n == s then s
    else
      FewerSpaces(s, n);
      Normalised(n)
  }

  /** The loop at pytop2.py:987-991 (and its twin at 1077-1081). */
  method NormaliseName(stat: string) returns (r: string)
    ensures r == Normalised(stat)
    ensures RewriteOnce(r) == r
  {
    r := stat;
    while true
      invariant Normalised(r) == Normalised(stat)
      decreases Count(r, ' ')
    {
      var n := RewriteOnce(r);
      if n == r {
        break;
      }
      RewriteFromSpaces(r, 0);
      FewerSpaces(r, n);
      r := n;
    }
  }

  // ---------------------------------------------------------------------
  // What a fixed point means
  // ---------------------------------------------------------------------

  /** No newline strictly between positions i and k. */
  ghost predicate OneLine(s: string, i: nat, k: nat)
    requires i <= k <= |s|
  {
    forall p | i < p < k :: s[p] != '\n'
  }

  /** Some '(' is followed on its own line by a space and later a ')'. */
  ghost predicate SpaceInParens(s: string)
  {
    exists i, j, k | 0 <= i < j < k < |s| ::
      s[i] == '(' && s[j] == ' ' && s[k] == ')' && OneLine(s, i, k)
  }

  lemma MatchAtFinds(s: string, i: nat, j: nat, k: nat)
    requires i < j < k < |s| && s[i] == '(' && s[j] == ' ' && s[k] == ')' && OneLine(s, i, k)
    ensures MatchAt(s, i).Some?
  {
    var e := LineEnd(s, i + 1);
    assert forall p | i < p <= k :: s[p] != '\n';
    assert k < e;
    var kk := LastIndex(s, ')', i + 1, e);
    assert kk.Some? && kk.value >= k;
    assert s[j] == ' ' && i + 1 <= j < kk.value;
  }

  lemma MatchAtWitness(s: string, i: nat)
    requires i < |s| && s[i] == '(' && MatchAt(s, i).Some?
    ensures OneLine(s, i, MatchAt(s, i).value.1)
  {
    var e := LineEnd(s, i + 1);
    assert MatchAt(s, i).value.1 < e;
  }

  lemma {:induction false} FirstMatchNone(s: string, i: nat)
    requires i <= |s| && FirstMatch(s, i).None?
    ensures forall a, j, k | i <= a < j < k < |s| ::
      !(s[a] == '(' && s[j] == ' ' && s[k] == ')' && OneLine(s, a, k))
    decreases |s| - i
  {
    if i < |s| {
      FirstMatchNone(s, i + 1);
      forall j, k | i < j < k < |s| && s[i] == '(' && s[j] == ' ' && s[k] == ')' && OneLine(s, i, k)
        ensures false
      {
        MatchAtFinds(s, i, j, k);
      }
    }
  }

  lemma {:induction false} FirstMatchSome(s: string, i: nat)
    requires i <= |s| && FirstMatch(s, i).Some?
    ensures SpaceInParens(s)
    decreases |s| - i
  {
    if s[i] == '(' && MatchAt(s, i).Some? {
      var m := MatchAt(s, i).value;
      MatchAtWitness(s, i);
      assert s[i] == '(' && s[m.0] == ' ' && s[m.1] == ')' && OneLine(s, i, m.1);
    } else {
      FirstMatchSome(s, i + 1);
    }
  }

  /**
   * The substitution leaves a record unchanged exactly when no '(' is
   * followed, on the same line, by a space and then a ')'.
   */
  lemma RewriteFixedIff(s: string)
    ensures RewriteOnce(s) == s <==> !SpaceInParens(s)
  {
    if FirstMatch(s, 0).None? {
      FirstMatchNone(s, 0);
    } else {
      FirstMatchSome(s, 0);
      var j := FirstMatch(s, 0).value.0;
      RewriteFromMarks(s, 0);
      assert RewriteOnce(s)[j] != s[j];
    }
  }

  /** After normalisation no space is left inside a parenthesised name. */
  lemma NormalisedHasNoSpaceInParens(s: string)
    ensures !SpaceInParens(Normalised(s))
  {
    RewriteFixedIff(Normalised(s));
  }

  lemma {:induction false} NoParenNoMatch(s: string, i: nat)
    requires i <= |s|
    requires forall p | i <= p < |s| :: s[p] != ')'
    ensures FirstMatch(s, i).None?
    decreases |s| - i
  {
    if i < |s| {
      NoParenNoMatch(s, i + 1);
    }
  }

  /**
   * On a single-line record (what `readline` gives: no newline before its
   * last character) each pass of the loop turns exactly one space into '_'.
   */
  lemma OnePassOneSpace(s: string)
    requires forall p | 0 <= p < |s| - 1 :: s[p] != '\n'
    requires RewriteOnce(s) != s
    ensures Count(RewriteOnce(s), ' ') == Count(s, ' ') - 1
  {
    assert FirstMatch(s, 0).Some?;
    OneMatch(s);
    CountSwap(s, FirstMatch(s, 0).value.0, RewriteOnce(s));
  }

  /** On a single line the substitution replaces the one space of the first match and nothing else. */
  lemma OneMatch(s: string)
    requires (forall p | 0 <= p < |s| - 1 :: s[p] != '\n') && FirstMatch(s, 0).Some?
    ensures RewriteOnce(s) == s[FirstMatch(s, 0).value.0 := '_']
  {
    var k := FirstMatch(s, 0).value.1;
    NothingAfterMatch(s);
    NoParenNoMatch(s, k + 1);
  }

  /** On a single line the first match ends at the last ')'. */
  lemma NothingAfterMatch(s: string)
    requires (forall p | 0 <= p < |s| - 1 :: s[p] != '\n') && FirstMatch(s, 0).Some?
    ensures forall p | FirstMatch(s, 0).value.1 < p < |s| :: s[p] != ')'
  {
    var m := FirstMatch(s, 0);
    FirstMatchStart(s, 0);
    var i :| 0 <= i < m.value.0 && s[i] == '(' && MatchAt(s, i) == m;
    LastParen(s, i);
  }

  /** On a single line the match from a '(' ends at the last ')' of the record. */
  lemma LastParen(s: string, i: nat)
    requires forall p | 0 <= p < |s| - 1 :: s[p] != '\n'
    requires i < |s| && s[i] == '(' && MatchAt(s, i).Some?
    ensures forall p | MatchAt(s, i).value.1 < p < |s| :: s[p] != ')'
  {
    var e := LineEnd(s, i + 1);
    assert e == |s| || (e == |s| - 1 && s[e] == '\n');
    var k := LastIndex(s, ')', i + 1, e);
    assert k.Some? && MatchAt(s, i).value.1 == k.value;
  }

  lemma CountSwap(s: string, j: nat, r: string)
    requires j < |s| && s[j] == ' ' && r == s[j := '_']
    ensures Count(r, ' ') + 1 == Count(s, ' ')
  {
    var a, b := s[..j], s[j + 1..];
    assert s == a + " " + b;
    assert r == a + "_" + b;
    CountAppend(a + "_", b, ' ');
    CountAppend(a + " ", b, ' ');
    CountAppend(a, "_", ' ');
    CountAppend(a, " ", ' ');
  }

  lemma {:induction false} FirstMatchStart(s: string, a: nat)
    requires a <= |s| && FirstMatch(s, a).Some?
    ensures exists i | a <= i < FirstMatch(s, a).value.0 :: s[i] == '(' && MatchAt(s, i) == FirstMatch(s, a)
    decreases |s| - a
  {
    if !(s[a] == '(' && MatchAt(s, a).Some?) {
      FirstMatchStart(s, a + 1);
    }
  }

  // ---------------------------------------------------------------------
  // Exactly which spaces the loop replaces
  // ---------------------------------------------------------------------

  /** Position p lies between a '(' before it and a ')' after it on the same line. */
  ghost predicate Inside(s: string, p: nat)
  {
    exists a, b | 0 <= a < p < b < |s| :: s[a] == '(' && s[b] == ')' && OneLine(s, a, b)
  }

  /** A pass only changes positions that lie inside parentheses. */
  lemma {:induction false} RewriteFromInside(s: string, i: nat)
    requires i <= |s|
    ensures forall p | 0 <= p < |s| && RewriteFrom(s, i)[p] != s[p] :: Inside(s, p)
    decreases |s| - i
  {
    if FirstMatch(s, i).Some? {
      var (j, k) := FirstMatch(s, i).value;
      RewriteFromInside(s, k + 1);
      FirstMatchInside(s, i);
      assert RewriteFrom(s, i) == RewriteFrom(s, k + 1)[j := '_'];
    }
  }

  /** The space a match replaces lies inside parentheses. */
  lemma FirstMatchInside(s: string, i: nat)
    requires i <= |s| && FirstMatch(s, i).Some?
    ensures Inside(s, FirstMatch(s, i).value.0)
  {
    var (j, k) := FirstMatch(s, i).value;
    FirstMatchStart(s, i);
    var a :| i <= a < j && s[a] == '(' && MatchAt(s, a) == FirstMatch(s, i);
    MatchAtWitness(s, a);
    assert s[a] == '(' && s[k] == ')' && OneLine(s, a, k);
  }

  /** Turning spaces into '_' moves no parenthesis and no newline, so what was inside stays inside. */
  lemma SameInside(s: string, n: string, p: nat)
    requires SpacesOnly(s, n) && p < |s| && Inside(n, p)
    ensures Inside(s, p)
  {
    var a, b :| 0 <= a < p < b < |n| && n[a] == '(' && n[b] == ')' && OneLine(n, a, b);
    assert s[a] == '(' && s[b] == ')';
    assert OneLine(s, a, b);
  }

  /** The loop only changes positions that lie inside parentheses in the record it was given. */
  lemma {:induction false} NormalisedInside(s: string)
    ensures forall p | 0 <= p < |s| && Normalised(s)[p] != s[p] :: Inside(s, p)
    decreases Count(s, ' ')
  {
    var n := RewriteOnce(s);
    RewriteFromSpaces(s, 0);
    RewriteFromInside(s, 0);
    if n != s {
      FewerSpaces(s, n);
      NormalisedInside(n);
      assert Normalised(s) == Normalised(n);
      forall p | 0 <= p < |s| && Normalised(s)[p] != s[p]
        ensures Inside(s, p)
      {
        if n[p] == s[p] {
          SameInside(s, n, p);
        }
      }
    }
  }

  /**
   * What the loop does to each character: a space with a '(' before it and a
   * ')' after it on its line becomes '_', and every other character is kept.
   * In particular the spaces that separate the fields outside the name survive.
   */
  lemma NormalisedExactly(s: string)
    ensures forall p | 0 <= p < |s| :: Normalised(s)[p] == if s[p] == ' ' && Inside(s, p) then '_' else s[p]
  {
    var r := Normalised(s);
    NormalisedInside(s);
    NormalisedHasNoSpaceInParens(s);
    forall p | 0 <= p < |s|
      ensures r[p] == if s[p] == ' ' && Inside(s, p) then '_' else s[p]
    {
      if s[p] == ' ' && Inside(s, p) {
        InsideSpaceReplaced(s, r, p);
      }
    }
  }

  /** A string with no space left inside parentheses has replaced every space that was inside them. */
  lemma InsideSpaceReplaced(s: string, r: string, p: nat)
    requires SpacesOnly(s, r) && !SpaceInParens(r)
    requires p < |s| && s[p] == ' ' && Inside(s, p)
    ensures r[p] == '_'
  {
    var a, b :| 0 <= a < p < b < |s| && s[a] == '(' && s[b] == ')' && OneLine(s, a, b);
    assert r[a] == '(' && r[b] == ')' && OneLine(r, a, b);
  }

  /** `w` with each space replaced by '_'. */
  function Underscored(w: string): (u: string)
    ensures |u| == |w| && ' ' !in u
    ensures forall p | 0 <= p < |w| :: u[p] == if w[p] == ' ' then '_' else w[p]
  {
    seq(|w|, p requires 0 <= p < |w| => if w[p] == ' ' then '_' else w[p])
  }

  /**
   * A record whose name is the one parenthesised span: with no '(' before it,
   * no ')' after it and no newline inside it, the loop turns exactly the
   * name's spaces into '_' and leaves the rest of the record as it was.
   */
  lemma NormalisedFrame(a: string, w: string, b: string)
    requires '(' !in a && ')' !in b && '\n' !in w
    ensures Normalised(a + "(" + w + ")" + b) == a + "(" + Underscored(w) + ")" + b
  {
    var s := a + "(" + w + ")" + b;
    var t := a + "(" + Underscored(w) + ")" + b;
    var o, c := |a| + 1, |a| + 1 + |w|;
    NormalisedExactly(s);
    assert |t| == |s|;
    assert forall p | 0 <= p < |a| :: s[p] == a[p] && t[p] == a[p];
    assert s[|a|] == '(' && t[|a|] == '(' && s[c] == ')' && t[c] == ')';
    assert forall p | o <= p < c :: s[p] == w[p - o] && t[p] == Underscored(w)[p - o];
    assert forall p | c < p < |s| :: s[p] == b[p - c - 1] && t[p] == b[p - c - 1];
    forall p | 0 <= p < |s|
      ensures Normalised(s)[p] == t[p]
    {
      if o <= p < c {
        if s[p] == ' ' {
          assert OneLine(s, |a|, c);
          assert Inside(s, p);
        }
      }
    }
  }
}
