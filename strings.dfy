/** Python string operations the upload builder relies on: `str(int)` for
    integers and `str.replace` (every occurrence, left to right, without
    overlap), together with `str.split` / `str.join` as an independent
    description of what a replacement keeps. */
module Strings {

  // ---------------------------------------------------------------------------
  // str(int): decimal rendering of an integer
  // ---------------------------------------------------------------------------

  predicate IsDigit(c: char) {
    '0' <= c <= '9'
  }

  predicate AllDigits(s: string) {
    forall i :: 0 <= i < |s| ==> IsDigit(s[i])
  }

  /** A canonical unsigned decimal: non-empty, digits only, no leading zero
      unless the numeral is "0" itself. */
  predicate IsCanonicalNatural(s: string) {
    |s| > 0 && AllDigits(s) && (s[0] == '0' ==> |s| == 1)
  }

  /** What Python's `str` produces for an `int`: an optional minus sign
      followed by a canonical unsigned decimal, and never "-0". */
  predicate IsCanonicalDecimal(s: string) {
    if |s| > 0 && s[0] == '-' then IsCanonicalNatural(s[1..]) && s[1..] != "0"
    else IsCanonicalNatural(s)
  }

  function DigitChar(d: nat): (c: char)
    requires d < 10
    ensures IsDigit(c) && c as int - '0' as int == d
  {
    (('0' as int) + d) as char
  }

  function DigitValue(c: char): (d: nat)
    requires IsDigit(c)
    ensures d < 10 && DigitChar(d) == c
  {
    c as int - '0' as int
  }

  function NatToString(n: nat): string
    decreases n
  {
    if n < 10 then [DigitChar(n)] else NatToString(n / 10) + [DigitChar(n % 10)]
  }

  lemma {:induction false} NatToStringCanonical(n: nat)
    ensures IsCanonicalNatural(NatToString(n))
    ensures NatToString(n) == "0" <==> n == 0
    decreases n
  {
    if n >= 10 {
      NatToStringCanonical(n / 10);
      var s := NatToString(n);
      assert s == NatToString(n / 10) + [DigitChar(n % 10)];
      assert s[0] == NatToString(n / 10)[0];
      assert NatToString(n / 10) != "0";
    }
  }

  /** Python's `str(i)` for an integer `i`. */
  function IntToString(i: int): (s: string)
    ensures IsCanonicalDecimal(s)
    ensures |s| > 0 && (s[0] == '-' <==> i < 0)
  {
    if i < 0 then
      NatToStringCanonical(-i);
      var s := "-" + NatToString(-i);
      assert s[1..] == NatToString(-i);
      s
    else
      NatToStringCanonical(i);
      NatToString(i)
  }

  /** Reading a string of digits back as a number (the partner of NatToString). */
  function ParseNat(s: string): nat
    requires AllDigits(s)
    decreases |s|
  {
    if s == [] then 0 else ParseNat(s[..|s| - 1]) * 10 + DigitValue(s[|s| - 1])
  }

  /** Reading a canonical decimal back as an integer (the partner of IntToString). */
  function ParseInt(s: string): int
    requires IsCanonicalDecimal(s)
  {
    if |s| > 0 && s[0] == '-' then -(ParseNat(s[1..]) as int) else ParseNat(s)
  }

  lemma {:induction false} ParseNatToString(n: nat)
    ensures AllDigits(NatToString(n)) && ParseNat(NatToString(n)) == n
    decreases n
  {
    NatToStringCanonical(n);
    if n >= 10 {
      ParseNatToString(n / 10);
      var s := NatToString(n);
      assert s[..|s| - 1] == NatToString(n / 10);
      assert DigitValue(s[|s| - 1]) == n % 10;
    }
  }

  /** `str(int)` loses nothing: the decimal text reads back as the same integer. */
  lemma IntToStringRoundTrip(i: int)
    ensures ParseInt(IntToString(i)) == i
  {
    if i < 0 {
      ParseNatToString(-i);
      NatToStringCanonical(-i);
      var s := IntToString(i);
      assert s[1..] == NatToString(-i);
    } else {
      ParseNatToString(i);
      NatToStringCanonical(i);
    }
  }

  /** Different integers give different form values. */
  lemma IntToStringInjective(i: int, j: int)
    requires IntToString(i) == IntToString(j)
    ensures i == j
  {
    IntToStringRoundTrip(i);
    IntToStringRoundTrip(j);
  }

  // ---------------------------------------------------------------------------
  // str.replace, str.split, str.join
  // ---------------------------------------------------------------------------

  /** `pat` starts at position `i` of `s`. */
  predicate OccursAt(s: string, pat: string, i: nat) {
    i + |pat| <= |s| && s[i..i + |pat|] == pat
  }

  predicate Contains(s: string, pat: string) {
    exists i: nat | i <= |s| :: OccursAt(s, pat, i)
  }

  /** Python's `s.replace(pat, rep)` for an empty `pat`: `rep` goes before
      every character and at the end. */
  function InsertEverywhere(s: string, rep: string): (r: string)
    ensures |r| == |s| + (|s| + 1) * |rep|
  {
    if s == [] then rep else rep + [s[0]] + InsertEverywhere(s[1..], rep)
  }

  /** Python's `s.replace(pat, rep)`: scanning left to right, every
      occurrence of `pat` that does not overlap an earlier replaced one
      becomes `rep`. ReplaceIsJoinOfSplit and SplitCutsAtFirst state this
      without the scan: the pieces between replaced occurrences are those
      of a split that always cuts at the leftmost occurrence. */
  function ReplaceAll(s: string, pat: string, rep: string): string
    decreases |s|
  {
    if pat == [] then InsertEverywhere(s, rep)
    else if |s| < |pat| then s
    else if s[..|pat|] == pat then rep + ReplaceAll(s[|pat|..], pat, rep)
    else [s[0]] + ReplaceAll(s[1..], pat, rep)
  }

  /** Python's `s.split(pat)` for a non-empty separator `pat`. */
  function Split(s: string, pat: string): (parts: seq<string>)
    requires pat != []
    ensures |parts| >= 1
    decreases |s|
  {
    if |s| < |pat| then [s]
    else if s[..|pat|] == pat then [""] + Split(s[|pat|..], pat)
    else
      var rest := Split(s[1..], pat);
      [[s[0]] + rest[0]] + rest[1..]
  }

  /** Python's `sep.join(parts)`. */
  function Join(sep: string, parts: seq<string>): string
    decreases |parts|
  {
    if parts == [] then ""
    else if |parts| == 1 then parts[0]
    else parts[0] + sep + Join(sep, parts[1..])
  }

  lemma JoinExtendHead(sep: string, a: string, parts: seq<string>)
    requires |parts| >= 1
    ensures Join(sep, [a + parts[0]] + parts[1..]) == a + Join(sep, parts)
  {
    var ps := [a + parts[0]] + parts[1..];
    if |parts| > 1 {
      assert ps[1..] == parts[1..];
    }
  }

  /** The first piece of a split is a prefix of the string. */
  lemma {:induction false} SplitHeadIsPrefix(s: string, pat: string)
    requires pat != []
    ensures |Split(s, pat)[0]| <= |s| && s[..|Split(s, pat)[0]|] == Split(s, pat)[0]
    decreases |s|
  {
    if |s| >= |pat| && s[..|pat|] != pat {
      SplitHeadIsPrefix(s[1..], pat);
    }
  }

  /** Splitting and joining with the same separator gives the string back. */
  lemma {:induction false} SplitJoinRoundTrip(s: string, pat: string)
    requires pat != []
    ensures Join(pat, Split(s, pat)) == s
    decreases |s|
  {
    if |s| < |pat| {
    } else if s[..|pat|] == pat {
      var rest := Split(s[|pat|..], pat);
      SplitJoinRoundTrip(s[|pat|..], pat);
      assert Join(pat, [""] + rest) == "" + pat + Join(pat, rest) by {
        assert ([""] + rest)[1..] == rest;
      }
      assert s == pat + s[|pat|..];
    } else {
      var rest := Split(s[1..], pat);
      SplitJoinRoundTrip(s[1..], pat);
      assert Split(s, pat) == [[s[0]] + rest[0]] + rest[1..];
      JoinExtendHead(pat, [s[0]], rest);
      assert s == [s[0]] + s[1..];
    }
  }

  /** No piece of a split contains the separator. */
  lemma {:induction false} SplitPiecesFree(s: string, pat: string, k: nat)
    requires pat != [] && k < |Split(s, pat)|
    ensures !Contains(Split(s, pat)[k], pat)
    decreases |s|
  {
    if |s| < |pat| {
    } else if s[..|pat|] == pat {
      if k > 0 {
        SplitPiecesFree(s[|pat|..], pat, k - 1);
      }
    } else {
      var rest := Split(s[1..], pat);
      if k > 0 {
        SplitPiecesFree(s[1..], pat, k);
      } else {
        var piece := [s[0]] + rest[0];
        SplitPiecesFree(s[1..], pat, 0);
        SplitHeadIsPrefix(s[1..], pat);
        assert piece == s[..|piece|];
        forall i: nat | i <= |piece|
          ensures !OccursAt(piece, pat, i)
        {
          if i == 0 && |pat| <= |piece| {
            assert piece[..|pat|] == s[..|pat|];
          } else if i > 0 && i + |pat| <= |piece| {
            assert piece[i..i + |pat|] == rest[0][i - 1..i - 1 + |pat|];
            assert !OccursAt(rest[0], pat, i - 1);
          }
        }
      }
    }
  }

  /** A split cuts at the leftmost occurrence of the separator and splits
      the rest after it again: no occurrence starts inside the first piece,
      the string is a single piece exactly when nothing is cut, and
      otherwise the separator follows the first piece. With overlapping
      occurrences (`"aaa"` split on `"aa"`) this fixes the left-most cut,
      as Python's `str.split` makes it. */
  lemma SplitCutsAtFirst(s: string, pat: string)
    requires pat != []
    ensures var parts := Split(s, pat);
            && (forall j: nat | j < |parts[0]| :: !OccursAt(s, pat, j))
            && (|parts| == 1 ==> parts[0] == s)
            && (|parts| > 1 ==> OccursAt(s, pat, |parts[0]|)
                                && parts[1..] == Split(s[|parts[0]| + |pat|..], pat))
  {
    SplitHeadBeforeFirst(s, pat);
    SplitJoinRoundTrip(s, pat);
    SplitCutFollowsHead(s, pat);
    SplitTail(s, pat);
  }

  /** No occurrence of the separator starts inside the first piece. */
  lemma {:induction false} SplitHeadBeforeFirst(s: string, pat: string)
    requires pat != []
    ensures forall j: nat | j < |Split(s, pat)[0]| :: !OccursAt(s, pat, j)
    decreases |s|
  {
    if |s| >= |pat| && s[..|pat|] != pat {
      var rest := Split(s[1..], pat);
      SplitHeadBeforeFirst(s[1..], pat);
      assert Split(s, pat)[0] == [s[0]] + rest[0];
      forall j: nat | j < |Split(s, pat)[0]|
        ensures !OccursAt(s, pat, j)
      {
        if j > 0 && j + |pat| <= |s| {
          TailSlice(s, j - 1, j - 1 + |pat|);
          assert !OccursAt(s[1..], pat, j - 1);
        }
      }
    }
  }

  /** A slice of the tail of `s` is the slice of `s` one further on. */
  lemma TailSlice(s: string, i: nat, j: nat)
    requires 0 < |s| && i <= j <= |s| - 1
    ensures s[1..][i..j] == s[i + 1..j + 1]
    ensures s[1..][i..] == s[i + 1..]
  {
    assert |s[1..][i..j]| == |s[i + 1..j + 1]|;
    forall k | 0 <= k < j - i
      ensures s[1..][i..j][k] == s[i + 1..j + 1][k]
    {
    }
  }

  /** When a split cuts, the separator follows the first piece. */
  lemma {:induction false} SplitCutFollowsHead(s: string, pat: string)
    requires pat != []
    ensures |Split(s, pat)| > 1 ==> OccursAt(s, pat, |Split(s, pat)[0]|)
    decreases |s|
  {
    if |s| >= |pat| && s[..|pat|] != pat {
      var rest := Split(s[1..], pat);
      if |rest| > 1 {
        var h := |rest[0]|;
        assert OccursAt(s[1..], pat, h) by {
          SplitCutFollowsHead(s[1..], pat);
        }
        TailSlice(s, h, h + |pat|);
        assert |Split(s, pat)[0]| == h + 1;
      }
    }
  }

  /** When a split cuts, the other pieces are the split of what comes
      after the separator. */
  lemma {:induction false} SplitTail(s: string, pat: string)
    requires pat != []
    ensures |Split(s, pat)| > 1 ==>
              |Split(s, pat)[0]| + |pat| <= |s|
              && Split(s, pat)[1..] == Split(s[|Split(s, pat)[0]| + |pat|..], pat)
    decreases |s|
  {
    var parts := Split(s, pat);
    if |s| < |pat| {
      assert |parts| == 1;
    } else if s[..|pat|] == pat {
      var rest := Split(s[|pat|..], pat);
      assert parts == [""] + rest;
      assert parts[1..] == rest && |parts[0]| + |pat| == |pat|;
    } else if |parts| > 1 {
      var rest := Split(s[1..], pat);
      var h := |rest[0]|;
      assert parts == [[s[0]] + rest[0]] + rest[1..];
      assert |parts[0]| == h + 1 && parts[1..] == rest[1..];
      assert h + |pat| <= |s[1..]| by {
        SplitTail(s[1..], pat);
      }
      var after := s[1..][h + |pat|..];
      assert rest[1..] == Split(after, pat) by {
        SplitTail(s[1..], pat);
      }
      TailSlice(s, h, h + |pat|);
      assert s[|parts[0]| + |pat|..] == after;
    }
  }

  /** `s.replace(pat, rep) == rep.join(s.split(pat))`: the replacement keeps
      every character between the occurrences and changes only the
      occurrences themselves. */
  lemma {:induction false} ReplaceIsJoinOfSplit(s: string, pat: string, rep: string)
    requires pat != []
    ensures ReplaceAll(s, pat, rep) == Join(rep, Split(s, pat))
    decreases |s|
  {
    if |s| < |pat| {
    } else if s[..|pat|] == pat {
      var rest := Split(s[|pat|..], pat);
      ReplaceIsJoinOfSplit(s[|pat|..], pat, rep);
      assert ([""] + rest)[1..] == rest;
    } else {
      var rest := Split(s[1..], pat);
      ReplaceIsJoinOfSplit(s[1..], pat, rep);
      JoinExtendHead(rep, [s[0]], rest);
    }
  }

  /** A string that does not contain `pat` is left as it is. */
  lemma {:induction false} ReplaceAbsent(s: string, pat: string, rep: string)
    requires pat != [] && !Contains(s, pat)
    ensures ReplaceAll(s, pat, rep) == s
    decreases |s|
  {
    if |s| >= |pat| {
      assert !OccursAt(s, pat, 0);
      forall i: nat | i <= |s[1..]|
        ensures !OccursAt(s[1..], pat, i)
      {
        assert !OccursAt(s, pat, i + 1);
        if i + |pat| <= |s[1..]| {
          assert s[1..][i..i + |pat|] == s[i + 1..i + 1 + |pat|];
        }
      }
      ReplaceAbsent(s[1..], pat, rep);
      assert s == [s[0]] + s[1..];
    }
  }
}
