/**
  Text helpers with the semantics of Rust's `str::split` on a one-character
  pattern, which the path matcher (split on '/') and the query parser (split on
  '&' and '=') both rely on.
 */
module Strings {

  /** Number of occurrences of `c` in `s`. */
  function Occurrences(s: string, c: char): nat {
    if |s| == 0 then 0
    else (if s[0] == c then 1 else 0) + Occurrences(s[1..], c)
  }

  /** `a` occurs as a contiguous piece of `b`. */
  ghost predicate IsInfix(a: string, b: string) {
    exists j, k :: 0 <= j <= k <= |b| && b[j..k] == a
  }

  /**
    The pieces of `s` between occurrences of `c`: n separators give n + 1
    pieces, pieces may be empty and never contain `c`, and the first piece is
    the text before the first separator.
   */
  function Split(s: string, c: char): (r: seq<string>)
    ensures |r| == Occurrences(s, c) + 1
    ensures forall i :: 0 <= i < |r| ==> c !in r[i]
    ensures r[0] <= s
    ensures |r| == 1 <==> c !in s
    ensures |r| == 1 ==> r[0] == s
    ensures |r| > 1 ==> |r[0]| < |s| && s[|r[0]|] == c
    decreases |s|
  {
    if |s| == 0 then [""]
    else
      var rest := Split(s[1..], c);
      if s[0] == c then [""] + rest
      else
        assert s == [s[0]] + s[1..];
        [[s[0]] + rest[0]] + rest[1..]
  }

  /** Glue `parts` back together with `c` between neighbours. */
  function Join(parts: seq<string>, c: char): string {
    if |parts| == 0 then ""
    else if |parts| == 1 then parts[0]
    else parts[0] + [c] + Join(parts[1..], c)
  }

  /** Splitting loses nothing: joining the pieces with the separator gives the input back. */
  lemma {:induction false} JoinSplit(s: string, c: char)
    ensures Join(Split(s, c), c) == s
    decreases |s|
  {
    if |s| > 0 {
      var rest := Split(s[1..], c);
      JoinSplit(s[1..], c);
      if s[0] == c {
        assert Split(s, c)[1..] == rest;
      } else {
        var r := Split(s, c);
        if |rest| == 1 {
          assert r == [[s[0]] + rest[0]];
        } else {
          assert r[1..] == rest[1..];
          assert Join(rest, c) == rest[0] + [c] + Join(rest[1..], c);
        }
      }
    }
  }

  /** Two texts with the same pieces are the same text. */
  lemma SplitInjective(s: string, t: string, c: char)
    requires Split(s, c) == Split(t, c)
    ensures s == t
  {
    JoinSplit(s, c);
    JoinSplit(t, c);
  }

  /** The pieces after the first are the pieces of the text after the first separator. */
  lemma {:induction false} SplitTail(s: string, c: char)
    requires |Split(s, c)| > 1
    ensures Split(s, c)[1..] == Split(s[|Split(s, c)[0]| + 1..], c)
    decreases |s|
  {
    var rest := Split(s[1..], c);
    if s[0] != c {
      SplitTail(s[1..], c);
      assert s[1..][|rest[0]| + 1..] == s[|rest[0]| + 2..];
    }
  }

  /** Every piece is a contiguous substring of the input, with nothing decoded. */
  lemma {:induction false} SplitPieceIsInfix(s: string, c: char, i: nat)
    requires i < |Split(s, c)|
    ensures IsInfix(Split(s, c)[i], s)
    decreases |s|
  {
    var p := Split(s, c)[i];
    if i == 0 {
      assert s[0..|p|] == p;
    } else if s[0] == c {
      assert p == Split(s[1..], c)[i - 1];
      SplitPieceIsInfix(s[1..], c, i - 1);
      InfixOfTail(p, s);
    } else {
      assert p == Split(s[1..], c)[i];
      SplitPieceIsInfix(s[1..], c, i);
      InfixOfTail(p, s);
    }
  }

  lemma InfixOfTail(a: string, s: string)
    requires |s| > 0 && IsInfix(a, s[1..])
    ensures IsInfix(a, s)
  {
    var j, k :| 0 <= j <= k <= |s[1..]| && s[1..][j..k] == a;
    assert s[j + 1..k + 1] == a;
  }

  /** A substring of a substring of `b` is a substring of `b`. */
  lemma InfixTransitive(a: string, b: string, d: string)
    requires IsInfix(a, b) && IsInfix(b, d)
    ensures IsInfix(a, d)
  {
    var j, k :| 0 <= j <= k <= |b| && b[j..k] == a;
    var m, n :| 0 <= m <= n <= |d| && d[m..n] == b;
    assert |d[m + j..m + k]| == |a|;
    forall t | 0 <= t < |a|
      ensures d[m + j..m + k][t] == a[t]
    {
      assert a[t] == b[j + t] == d[m + j + t];
    }
    assert d[m + j..m + k] == a;
  }

  lemma PrefixIsInfix(a: string, b: string)
    requires a <= b
    ensures IsInfix(a, b)
  {
    assert b[0..|a|] == a;
  }

  lemma SuffixIsInfix(b: string, i: nat)
    requires i <= |b|
    ensures IsInfix(b[i..], b)
  {
    assert b[i..|b|] == b[i..];
  }

  /** A separator-free head followed by a separator splits off as the first piece. */
  lemma {:induction false} SplitCons(a: string, c: char, rest: string)
    requires c !in a
    ensures Split(a + [c] + rest, c) == [a] + Split(rest, c)
    decreases |a|
  {
    var s := a + [c] + rest;
    if |a| == 0 {
      assert s == [c] + rest;
      assert s[1..] == rest;
    } else {
      assert s[0] == a[0] && s[1..] == a[1..] + [c] + rest;
      SplitCons(a[1..], c, rest);
      assert [a[0]] + a[1..] == a;
    }
  }

  /** Three separator-free pieces joined by the separator split back into those pieces. */
  lemma {:induction false} SplitThree(a: string, b: string, d: string, c: char)
    requires c !in a && c !in b && c !in d
    ensures Split(a + [c] + (b + [c] + d), c) == [a, b, d]
  {
    SplitCons(a, c, b + [c] + d);
    SplitCons(b, c, d);
    assert Split(d, c) == [d];
  }
}
