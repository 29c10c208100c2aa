/** Longest common subsequences: the reference notion, the suffix recurrence, and why trimming keeps it. */
module Lcs {
  import opened Basics

  /** `c` can be obtained from `s` by leaving elements out. */
  predicate IsSubseq<T(==)>(c: seq<T>, s: seq<T>)
    decreases |s|
  {
    || c == []
    || (s != [] && ((c[0] == s[0] && IsSubseq(c[1..], s[1..])) || IsSubseq(c, s[1..])))
  }

  predicate IsCommon<T(==)>(c: seq<T>, a: seq<T>, b: seq<T>) {
    IsSubseq(c, a) && IsSubseq(c, b)
  }

  /** `n` is the length of a longest common subsequence of `a` and `b`. */
  ghost predicate IsLcsLength<T(!new)>(n: nat, a: seq<T>, b: seq<T>) {
    && (exists c :: IsCommon(c, a, b) && |c| == n)
    && (forall c :: IsCommon(c, a, b) ==> |c| <= n)
  }

  /** The recurrence the diff table is filled with. */
  function LcsLen<T(==)>(a: seq<T>, b: seq<T>): (n: nat)
    ensures n <= |a| && n <= |b|
    decreases |a| + |b|
  {
    if a == [] || b == [] then 0
    else if a[0] == b[0] then 1 + LcsLen(a[1..], b[1..])
    else Max(LcsLen(a[1..], b), LcsLen(a, b[1..]))
  }

  lemma {:induction false} SubseqTail<T>(c: seq<T>, s: seq<T>)
    requires IsSubseq(c, s) && c != []
    ensures s != [] && IsSubseq(c[1..], s[1..]) && IsSubseq(c[1..], s)
    decreases |s|
  {
    if c[0] == s[0] && IsSubseq(c[1..], s[1..]) {
    } else {
      SubseqTail(c, s[1..]);
    }
  }

  lemma {:induction false} SubseqInit<T>(c: seq<T>, s: seq<T>)
    requires IsSubseq(c, s) && c != []
    ensures s != [] && IsSubseq(c[..|c| - 1], s[..|s| - 1])
    decreases |s|
  {
    var s' := s[..|s| - 1];
    if |c| > 1 {
      SubseqTail(c, s);
      assert s[1..] != [];
      assert s'[0] == s[0] && s'[1..] == s[1..][..|s[1..]| - 1];
      if c[0] == s[0] && IsSubseq(c[1..], s[1..]) {
        SubseqInit(c[1..], s[1..]);
        assert c[..|c| - 1][1..] == c[1..][..|c[1..]| - 1];
      } else {
        SubseqInit(c, s[1..]);
      }
    }
  }

  lemma {:induction false} SubseqAppend<T>(c: seq<T>, s: seq<T>, x: T)
    requires IsSubseq(c, s)
    ensures IsSubseq(c + [x], s + [x])
    decreases |s|
  {
    var cx, sx := c + [x], s + [x];
    if s == [] {
      assert cx[1..] == [];
    } else {
      assert sx[1..] == s[1..] + [x];
      if c == [] {
        SubseqAppend(c, s[1..], x);
      } else if c[0] == s[0] && IsSubseq(c[1..], s[1..]) {
        SubseqAppend(c[1..], s[1..], x);
        assert cx[1..] == c[1..] + [x];
      } else {
        SubseqAppend(c, s[1..], x);
      }
    }
  }

  /** No common subsequence is longer than the recurrence says. */
  lemma {:induction false} LcsUpper<T>(c: seq<T>, a: seq<T>, b: seq<T>)
    requires IsCommon(c, a, b)
    ensures |c| <= LcsLen(a, b)
    decreases |a| + |b|
  {
    if c != [] {
      SubseqTail(c, a);
      SubseqTail(c, b);
      if a[0] == b[0] {
        LcsUpper(c[1..], a[1..], b[1..]);
      } else if c[0] != a[0] {
        LcsUpper(c, a[1..], b);
      } else {
        LcsUpper(c, a, b[1..]);
      }
    }
  }

  /** Some common subsequence is as long as the recurrence says. */
  lemma {:induction false} LcsWitness<T>(a: seq<T>, b: seq<T>) returns (c: seq<T>)
    ensures IsCommon(c, a, b) && |c| == LcsLen(a, b)
    decreases |a| + |b|
  {
    if a == [] || b == [] {
      c := [];
    } else if a[0] == b[0] {
      var d := LcsWitness(a[1..], b[1..]);
      c := [a[0]] + d;
      assert c[1..] == d;
    } else if LcsLen(a[1..], b) >= LcsLen(a, b[1..]) {
      c := LcsWitness(a[1..], b);
    } else {
      c := LcsWitness(a, b[1..]);
    }
  }

  /** The recurrence computes exactly the longest-common-subsequence length. */
  lemma LcsLenIsLcs<T(!new)>(a: seq<T>, b: seq<T>, n: nat)
    ensures IsLcsLength(n, a, b) <==> n == LcsLen(a, b)
  {
    var c := LcsWitness(a, b);
    forall d | IsCommon(d, a, b) ensures |d| <= LcsLen(a, b) {
      LcsUpper(d, a, b);
    }
    if IsLcsLength(n, a, b) {
      var d :| IsCommon(d, a, b) && |d| == n;
    }
  }

  lemma LcsTrimLast<T>(a: seq<T>, b: seq<T>, x: T)
    ensures LcsLen(a + [x], b + [x]) == LcsLen(a, b) + 1
  {
    var ax, bx := a + [x], b + [x];
    var c := LcsWitness(a, b);
    SubseqAppend(c, a, x);
    SubseqAppend(c, b, x);
    LcsUpper(c + [x], ax, bx);
    var d := LcsWitness(ax, bx);
    SubseqInit(d, ax);
    SubseqInit(d, bx);
    assert ax[..|ax| - 1] == a && bx[..|bx| - 1] == b;
    LcsUpper(d[..|d| - 1], a, b);
  }

  lemma {:induction false} LcsTrimSuffix<T>(a: seq<T>, b: seq<T>, s: seq<T>)
    ensures LcsLen(a + s, b + s) == LcsLen(a, b) + |s|
    decreases |s|
  {
    if s == [] {
      assert a + s == a && b + s == b;
    } else {
      var x := s[|s| - 1];
      var s' := s[..|s| - 1];
      LcsTrimSuffix(a, b, s');
      LcsTrimLast(a + s', b + s', x);
      assert a + s == (a + s') + [x] && b + s == (b + s') + [x];
    }
  }

  lemma {:induction false} LcsTrimPrefix<T>(p: seq<T>, a: seq<T>, b: seq<T>)
    ensures LcsLen(p + a, p + b) == |p| + LcsLen(a, b)
    decreases |p|
  {
    if p == [] {
      assert p + a == a && p + b == b;
    } else {
      LcsTrimPrefix(p[1..], a, b);
      assert (p + a)[1..] == p[1..] + a && (p + b)[1..] == p[1..] + b;
    }
  }

  /** Trimming a common prefix and a common suffix loses nothing. */
  lemma LcsTrim<T>(p: seq<T>, a: seq<T>, b: seq<T>, s: seq<T>)
    ensures LcsLen(p + a + s, p + b + s) == |p| + LcsLen(a, b) + |s|
  {
    LcsTrimSuffix(p + a, p + b, s);
    LcsTrimPrefix(p, a, b);
  }
}
