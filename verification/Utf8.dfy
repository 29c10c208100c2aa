/** UTF-8 as in sections 3 and 4 of RFC 3629: valid sequences, rune starts, and cut windows of valid text. */
module Utf8 {
  import opened Basics
  import opened Bytes

  const UTF_MAX: nat := 4

  predicate IsCont(b: byte) { 0x80 <= b <= 0xBF }

  predicate RuneStart(b: byte) { !IsCont(b) }

  /** The length announced by a first byte, 0 for a byte that starts no sequence. */
  function Announced(b: byte): nat {
    if b < 0x80 then 1
    else if 0xC2 <= b <= 0xDF then 2
    else if 0xE0 <= b <= 0xEF then 3
    else if 0xF0 <= b <= 0xF4 then 4
    else 0
  }

  /** The second byte allowed after first byte `b`: no overlong forms, no surrogates, nothing above U+10FFFF. */
  predicate SecondOk(b: byte, c: byte) {
    if b == 0xE0 then 0xA0 <= c <= 0xBF
    else if b == 0xED then 0x80 <= c <= 0x9F
    else if b == 0xF0 then 0x90 <= c <= 0xBF
    else if b == 0xF4 then 0x80 <= c <= 0x8F
    else IsCont(c)
  }

  /** The length of the valid sequence that `s[i..j]` starts with, 0 when there is none. */
  function SeqLen(s: seq<byte>, i: nat, j: nat): (n: nat)
    requires i <= j <= |s|
    ensures i + n <= j && n <= UTF_MAX
    ensures n > 0 ==> RuneStart(s[i]) && forall k :: i < k < i + n ==> IsCont(s[k])
  {
    if i == j then 0
    else
      var n := Announced(s[i]);
      if i + n <= j && (n > 1 ==> SecondOk(s[i], s[i + 1])) && (n > 2 ==> IsCont(s[i + 2]))
        && (n > 3 ==> IsCont(s[i + 3]))
      then n else 0
  }

  /** `s[i..j]` is a sequence of whole valid characters. */
  predicate ValidIn(s: seq<byte>, i: nat, j: nat)
    requires i <= j <= |s|
    decreases j - i
  {
    i == j || (SeqLen(s, i, j) > 0 && ValidIn(s, i + SeqLen(s, i, j), j))
  }

  predicate Valid(s: seq<byte>) { ValidIn(s, 0, |s|) }

  /** Whether `s[i..]` starts with a complete character; an invalid start counts as complete. */
  predicate FullRune(s: seq<byte>, i: nat)
    requires i < |s|
  {
    var n := Announced(s[i]);
    || i + n <= |s|
    || (i + 1 < |s| && !SecondOk(s[i], s[i + 1]))
    || (i + 2 < |s| && !IsCont(s[i + 2]))
  }

  /** A character starts, or the stretch ends, at `m`. */
  predicate StartsAt(s: seq<byte>, m: nat, j: nat)
    requires m <= j <= |s|
  {
    m < j ==> RuneStart(s[m])
  }

  lemma {:induction false} ValidConcat(s: seq<byte>, i: nat, j: nat, k: nat)
    requires i <= j <= k <= |s| && ValidIn(s, i, j) && ValidIn(s, j, k)
    ensures ValidIn(s, i, k)
    decreases j - i
  {
    if i < j {
      ValidConcat(s, i + SeqLen(s, i, j), j, k);
      assert SeqLen(s, i, k) == SeqLen(s, i, j);
    }
  }

  /** A rune start splits valid text into two valid texts. */
  lemma {:induction false} SplitAtStart(s: seq<byte>, i: nat, j: nat, k: nat)
    requires i <= j <= k <= |s| && ValidIn(s, i, k) && StartsAt(s, j, k)
    ensures ValidIn(s, i, j) && ValidIn(s, j, k)
    decreases k - i
  {
    if i < j {
      var n := SeqLen(s, i, k);
      SplitAtStart(s, i + n, j, k);
      assert SeqLen(s, i, j) == n;
    }
  }

  /** Where a valid beginning of valid text ends, a character starts. */
  lemma {:induction false} PrefixEndsAtStart(s: seq<byte>, i: nat, j: nat, k: nat)
    requires i <= j <= k <= |s| && ValidIn(s, i, j) && ValidIn(s, i, k)
    ensures ValidIn(s, j, k) && StartsAt(s, j, k)
    decreases j - i
  {
    if i < j {
      assert SeqLen(s, i, k) == SeqLen(s, i, j);
      PrefixEndsAtStart(s, i + SeqLen(s, i, j), j, k);
    }
  }

  /** Valid text has a rune start among any four neighbouring bytes. */
  lemma {:induction false} StartNearby(s: seq<byte>, i: nat, p: nat, k: nat)
    requires i <= p && p + UTF_MAX <= k <= |s| && ValidIn(s, i, k)
    ensures exists q :: p <= q < p + UTF_MAX && RuneStart(s[q])
    decreases k - i
  {
    var n := SeqLen(s, i, k);
    if i == p {
      assert RuneStart(s[p]);
    } else if i + n <= p {
      StartNearby(s, i + n, p, k);
    } else {
      assert SeqLen(s, i + n, k) > 0;
      assert RuneStart(s[i + n]);
    }
  }

  /** Validity of a stretch does not depend on what surrounds it. */
  lemma {:induction false} ValidShift(s: seq<byte>, x: nat, y: nat, i: nat, j: nat)
    requires x <= y <= |s| && i <= j <= y - x
    ensures ValidIn(s[x..y], i, j) <==> ValidIn(s, x + i, x + j)
    decreases j - i
  {
    if i < j {
      SeqLenShift(s, x, y, i, j);
      var n := SeqLen(s[x..y], i, j);
      if n > 0 {
        ValidShift(s, x, y, i + n, j);
      }
    }
  }

  lemma SeqLenShift(s: seq<byte>, x: nat, y: nat, i: nat, j: nat)
    requires x <= y <= |s| && i <= j <= y - x
    ensures SeqLen(s[x..y], i, j) == SeqLen(s, x + i, x + j)
  {
  }

  // ----- the edges of a cut window -----

  /** The first rune start at or after `i`, looking at no more than three bytes of the head. */
  function HeadEdge(data: seq<byte>, i: nat): (r: nat)
    requires i <= |data| && i < UTF_MAX
    ensures i <= r <= |data| && r < UTF_MAX
    ensures forall k :: i <= k < r ==> IsCont(data[k])
    ensures r < |data| && r < UTF_MAX - 1 ==> RuneStart(data[r])
    decreases |data| - i
  {
    if i < |data| && i < UTF_MAX - 1 && !RuneStart(data[i]) then HeadEdge(data, i + 1) else i
  }

  /** The end of `data` without a sequence cut off at the end: the nearest rune start back from `i` decides. */
  function TailEdge(data: seq<byte>, start: nat, i: int): (r: nat)
    requires start <= |data| && i < |data| && start - 1 <= i
    ensures start <= r <= |data|
    decreases i + 1
  {
    if i < start || i < |data| - UTF_MAX then |data|
    else if RuneStart(data[i]) then (if FullRune(data, i) then |data| else i)
    else TailEdge(data, start, i - 1)
  }

  /** Where `data` begins and ends once sequences cut at either end are left out. */
  function Edges(data: seq<byte>): (r: (nat, nat))
    ensures r.0 <= r.1 <= |data|
  {
    var start := HeadEdge(data, 0);
    (start, TailEdge(data, start, |data| - 1))
  }

  method Utf8Edges(data: seq<byte>) returns (start: nat, end: nat)
    ensures (start, end) == Edges(data)
  {
    start, end := 0, |data|;
    while start < end && start < UTF_MAX - 1 && !RuneStart(data[start])
      invariant start <= end == |data| && start < UTF_MAX && HeadEdge(data, 0) == HeadEdge(data, start)
    {
      start := start + 1;
    }
    var i := end - 1;
    while i >= start && i >= end - UTF_MAX
      invariant start - 1 <= i < end == |data|
      invariant TailEdge(data, start, |data| - 1) == TailEdge(data, start, i)
    {
      if RuneStart(data[i]) {
        if !FullRune(data, i) {
          end := i;
        }
        break;
      }
      i := i - 1;
    }
  }

  /**
   * Up to `e`, the window `s[x..y]` of text valid up to `k` holds whole characters; it drops something only when `y`
   * cuts one.
   */
  ghost predicate GoodTail(s: seq<byte>, x: nat, y: nat, k: nat, e: nat) {
    && x <= e <= y <= k <= |s| && ValidIn(s, x, e)
    && (e < y ==> y < e + UTF_MAX && !StartsAt(s, y, k) && y < e + SeqLen(s, e, k))
  }

  /** The tail edge of a window that starts on a character of valid text, scanned back to `i`. */
  lemma {:induction false} TailScan(s: seq<byte>, x: nat, y: nat, k: nat, a: nat, i: nat)
    requires x + a <= i < y <= k <= |s| && y - UTF_MAX <= i && ValidIn(s, x + a, k)
    requires forall q :: i < q < y ==> IsCont(s[q])
    ensures GoodTail(s, x + a, y, k, x + TailEdge(s[x..y], a, i - x))
    decreases i
  {
    assert s[x..y][i - x] == s[i];
    if RuneStart(s[i]) {
      TailAtStart(s, x, y, k, a, i);
    } else if i == x + a {
      assert false;
    } else if i == y - UTF_MAX {
      StartNearby(s, x + a, i, k);
      assert false;
    } else {
      TailScan(s, x, y, k, a, i - 1);
    }
  }

  lemma TailAtStart(s: seq<byte>, x: nat, y: nat, k: nat, a: nat, i: nat)
    requires x + a <= i < y <= k <= |s| && y - UTF_MAX <= i && ValidIn(s, x + a, k) && RuneStart(s[i])
    requires forall q :: i < q < y ==> IsCont(s[q])
    ensures GoodTail(s, x + a, y, k, if FullRune(s[x..y], i - x) then y else i)
  {
    SplitAtStart(s, x + a, i, k);
    var n := SeqLen(s, i, k);
    CutRune(s, x, y, k, i);
    if i + n <= y {
      if i + n < k {
        assert SeqLen(s, i + n, k) > 0;
      }
      assert i + n == y;
      SplitAtStart(s, x + a, y, k);
    }
  }

  /** A proper prefix of a valid character is not a full one. */
  lemma CutRune(s: seq<byte>, x: nat, y: nat, k: nat, i: nat)
    requires x <= i < y <= k <= |s| && SeqLen(s, i, k) > 0
    ensures FullRune(s[x..y], i - x) <==> i + SeqLen(s, i, k) <= y
  {
    var w := s[x..y];
    assert w[i - x] == s[i];
    if i + 1 < y {
      assert w[i - x + 1] == s[i + 1];
    }
    if i + 2 < y {
      assert w[i - x + 2] == s[i + 2];
    }
  }

  lemma HeadIsStart(s: seq<byte>, x: nat, y: nat)
    requires Valid(s) && x <= y <= |s|
    ensures StartsAt(s, x + HeadEdge(s[x..y], 0), y)
  {
    var w := s[x..y];
    var a := HeadEdge(w, 0);
    if x + a < y && a == UTF_MAX - 1 {
      forall k | x <= k < x + a ensures IsCont(s[k]) {
        assert w[k - x] == s[k];
      }
      StartNearby(s, 0, x, |s|);
    }
  }

  /** The edges of any cut window of valid text: whole characters between them, nothing dropped that was whole. */
  lemma EdgesOfWindow(s: seq<byte>, x: nat, y: nat)
    requires Valid(s) && x <= y <= |s|
    ensures var (a, b) := Edges(s[x..y]); StartsAt(s, x + a, y) && GoodTail(s, x + a, y, |s|, x + b)
  {
    hide ValidIn, GoodTail, TailEdge, HeadEdge;
    var a := HeadEdge(s[x..y], 0);
    HeadIsStart(s, x, y);
    if x + a < y {
      SplitAtStart(s, 0, x + a, |s|);
      TailScan(s, x, y, |s|, a, y - 1);
    } else {
      NothingWhole(s, x, y);
    }
  }

  /** A window without a rune start is dropped altogether. */
  lemma NothingWhole(s: seq<byte>, x: nat, y: nat)
    requires x <= y <= |s|
    ensures TailEdge(s[x..y], y - x, y - x - 1) == y - x && GoodTail(s, y, y, |s|, y)
  {
  }

  lemma ValidSlice(s: seq<byte>, i: nat, j: nat)
    requires i <= j <= |s|
    ensures Valid(s[i..j]) <==> ValidIn(s, i, j)
  {
    ValidShift(s, i, j, 0, j - i);
  }

  lemma ValidPart(s: seq<byte>, x: nat, y: nat, a: nat, b: nat)
    requires x <= y <= |s| && a <= b <= y - x && ValidIn(s, x + a, x + b)
    ensures Valid(s[x..y][a..b])
  {
    ValidSlice(s, x + a, x + b);
    SliceOfSlice(s, x, y, a, b);
  }

  lemma EdgesValid(s: seq<byte>, x: nat, y: nat)
    requires Valid(s) && x <= y <= |s|
    ensures var (a, b) := Edges(s[x..y]); Valid(s[x..y][a..b])
  {
    EdgesOfWindow(s, x, y);
    var (a, b) := Edges(s[x..y]);
    ValidPart(s, x, y, a, b);
  }
}
