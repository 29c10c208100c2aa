/** Bounded capture of a command's output, and rune-safe truncation. */
module Output {
  import opened Basics
  import opened Bytes
  import opened Utf8

  /** The first or the last `n` bytes of a stream, or all of it. */
  function Keep(stream: seq<byte>, n: nat, tail: bool): seq<byte> {
    if |stream| <= n then stream else if tail then stream[|stream| - n..] else stream[..n]
  }

  /** The storage of a full ring read from its oldest byte. */
  function Ring(buf: seq<byte>, start: nat): (r: seq<byte>)
    requires start <= |buf|
    ensures |r| == |buf|
  {
    buf[start..] + buf[..start]
  }

  /** A writer that keeps at most `limit` bytes: the first ones, or in tail mode the last ones in a ring. */
  class CappedBuffer {
    const limit: nat
    const tail: bool
    var buf: seq<byte>
    var start: nat
    var full: bool
    var total: nat
    ghost var stream: seq<byte>  // everything written

    /** The bytes kept, in the order they were written. */
    function Kept(): seq<byte>
      reads this
      requires start <= |buf|
    {
      if !tail || !full then buf else Ring(buf, start)
    }

    ghost predicate Valid()
      reads this
    {
      && total == |stream| && start <= |buf| <= limit
      && (full ==> tail && |buf| == limit > 0 && start < limit) && (!full ==> start == 0)
      && (tail && limit > 0 && |stream| > limit ==> full)
      && Kept() == Keep(stream, limit, tail) && (full ==> |stream| >= limit)
    }

    constructor (limit: int, tail: bool)
      ensures Valid() && this.limit == Max(limit, 0) && this.tail == tail && stream == []
    {
      this.limit, this.tail := Max(limit, 0), tail;
      buf, start, full, total, stream := [], 0, false, 0, [];
    }

    /** Overwrites the oldest bytes of the full ring with `p`, wrapping at the end of the storage. */
    method Wrap(p: seq<byte>)
      requires |buf| == limit && start < limit
      modifies this`buf, this`start
      ensures |buf| == limit && start < limit
      ensures Ring(buf, start) == (old(Ring(buf, start)) + p)[|p|..]
    {
      ghost var was := Ring(buf, start);
      assert p[|p|..] == [];
      var rest := p;
      ghost var done: nat := 0;
      assert was == (was + p[..0])[0..];
      while |rest| > 0
        invariant done + |rest| == |p| && rest == p[done..]
        invariant |buf| == limit && start < limit
        invariant Ring(buf, start) == (was + p[..done])[done..]
        decreases |rest|
      {
        var c := Min(limit - start, |rest|);
        RingStep(buf, start, was, p, done, c, limit);
        buf := buf[..start] + rest[..c] + buf[start + c..];
        rest := rest[c..];
        start := (start + c) % limit;
        done := done + c;
      }
      assert p[..|p|] == p;
    }

    method Write(p: seq<byte>)
      requires Valid()
      modifies this
      ensures Valid() && stream == old(stream) + p
    {
      hide Ring;
      ghost var was := stream;
      total := total + |p|;
      stream := stream + p;
      if limit == 0 {
        KeepNothing(stream, tail);
        return;
      }
      if !tail {
        HeadGrows(was, p, limit);
        var room := limit - |buf|;
        if room > 0 {
          buf := buf + p[..Min(|p|, room)];
        }
        return;
      }
      if |p| >= limit {
        LastOfLong(was, p, limit);
        buf := p[|p| - limit..];
        start, full := 0, true;
        RingAtZero(buf);
        return;
      }
      WriteShort(was, p);
    }

    /** A tail-mode write that is shorter than the limit: appended while there is room, then wrapped. */
    method WriteShort(ghost was: seq<byte>, p: seq<byte>)
      requires tail && |p| < limit && start <= |buf| <= limit && total == |stream| && stream == was + p
      requires if full then |buf| == limit && start < limit && Ring(buf, start) == Keep(was, limit, true)
               else start == 0 && |was| <= limit && buf == was
      requires full ==> |was| >= limit
      modifies this`buf, this`start, this`full
      ensures Valid()
    {
      hide Ring;
      var rest := p;
      ghost var sofar := was;
      if !full {
        if |buf| + |p| <= limit {
          buf := buf + p;
          return;
        }
        var fill := limit - |buf|;
        buf := buf + p[..fill];
        rest := p[fill..];
        full, start := true, 0;
        RingAtZero(buf);
        sofar := was + p[..fill];
        FillRing(was, p, fill);
      }
      RingKeeps(sofar, rest, limit);
      Wrap(rest);
    }

    /** The bytes kept, oldest first. */
    method Bytes() returns (out: seq<byte>)
      requires Valid()
      ensures out == Keep(stream, limit, tail)
    {
      if !tail || !full || start == 0 {
        RingAtZero(buf);
        return buf;
      }
      out := buf[start..] + buf[..start];
    }

    predicate Truncated()
      reads this
    {
      total > |buf|
    }
  }

  lemma KeepNothing(s: seq<byte>, tail: bool)
    ensures Keep(s, 0, tail) == []
  {
  }

  lemma HeadGrows(was: seq<byte>, p: seq<byte>, limit: nat)
    ensures var k := Keep(was, limit, false);
            Keep(was + p, limit, false) == if limit > |k| then k + p[..Min(|p|, limit - |k|)] else k
  {
    var k, room := Keep(was, limit, false), limit - |was|;
    if |was| < limit {
      if |p| <= room {
        assert p[..|p|] == p;
      } else {
        assert (was + p)[..limit] == was + p[..room];
      }
    } else {
      assert (was + p)[..limit] == was[..limit];
      assert was[..|was|] == was;
    }
  }

  lemma LastOfLong(was: seq<byte>, p: seq<byte>, limit: nat)
    requires |p| >= limit
    ensures Keep(was + p, limit, true) == p[|p| - limit..]
  {
    var s := was + p;
    if |s| > limit {
      assert s[|s| - limit..] == p[|p| - limit..];
    } else {
      assert was == [] || limit == 0;
      assert s[|s| - limit..] == p[|p| - limit..];
      if limit == |s| {
        assert s[0..] == s;
      }
    }
  }

  lemma FillRing(was: seq<byte>, p: seq<byte>, fill: nat)
    requires fill <= |p|
    ensures was + p[..fill] + p[fill..] == was + p
  {
  }

  lemma RingAtZero(buf: seq<byte>)
    ensures Ring(buf, 0) == buf
  {
    assert buf[0..] + buf[..0] == buf;
  }

  /** Overwriting the oldest `c` bytes of a full ring moves the window over the stream by `c`. */
  lemma RingStep(buf: seq<byte>, start: nat, was: seq<byte>, p: seq<byte>, done: nat, c: nat, limit: nat)
    requires |buf| == limit == |was| && start < limit && 0 < c <= limit - start && done + c <= |p|
    requires Ring(buf, start) == (was + p[..done])[done..]
    ensures var b := buf[..start] + p[done..][..c] + buf[start + c..];
            var s := (start + c) % limit;
            |b| == limit && s < limit && Ring(b, s) == (was + p[..done + c])[done + c..]
    ensures p[done..][c..] == p[done + c..]
  {
    hide Ring;
    var d, x := p[done..][..c], was + p[..done];
    GrowPrefix(was, p, done, c);
    SlideWindow(x, d, done);
    Wraps(start, c, limit);
    RingRotates(buf, start, d, (start + c) % limit);
  }

  lemma Wraps(start: nat, c: nat, limit: nat)
    requires start < limit && start + c <= limit
    ensures (start + c) % limit == if start + c == limit then 0 else start + c
  {
  }

  lemma GrowPrefix(was: seq<byte>, p: seq<byte>, done: nat, c: nat)
    requires done + c <= |p|
    ensures was + p[..done + c] == was + p[..done] + p[done..][..c]
    ensures p[done..][c..] == p[done + c..]
  {
    DropDrop(p, done, c);
    assert p[..done + c] == p[..done] + p[done..][..c];
    Reassoc(was, p[..done], p[done..][..c]);
  }

  lemma SlideWindow(x: seq<byte>, d: seq<byte>, done: nat)
    requires done + |d| <= |x|
    ensures (x + d)[done + |d|..] == x[done..][|d|..] + d
  {
    DropConcat(x, d, done + |d|);
    DropDrop(x, done, |d|);
  }

  /** The last bytes of a longer stream are the last of what was kept and what came after. */
  lemma RingKeeps(x: seq<byte>, d: seq<byte>, limit: nat)
    requires |x| >= limit >= |d|
    ensures Keep(x + d, limit, true) == (Keep(x, limit, true) + d)[|d|..]
  {
    var i := |x| - limit;
    KeepsLast(x, limit);
    KeepsLast(x + d, limit);
    hide Keep;
    DropConcat(x, d, i);
    DropDrop(x + d, i, |d|);
  }

  lemma KeepsLast(x: seq<byte>, limit: nat)
    requires |x| >= limit
    ensures Keep(x, limit, true) == x[|x| - limit..]
  {
    if |x| == limit {
      assert x[0..] == x;
    }
  }

  lemma RingRotates(buf: seq<byte>, start: nat, d: seq<byte>, s: nat)
    requires start + |d| <= |buf| && s == if start + |d| == |buf| then 0 else start + |d|
    ensures var b := buf[..start] + d + buf[start + |d|..];
            |b| == |buf| && Ring(b, s) == Ring(buf, start)[|d|..] + d
  {
    hide Ring;
    SkipRing(buf, start, |d|);
    if start + |d| == |buf| {
      LastStretch(buf, start, d);
    } else {
      SplitRing(buf[..start], d, buf[s..], s);
    }
  }

  lemma LastStretch(buf: seq<byte>, start: nat, d: seq<byte>)
    requires |buf| == start + |d|
    ensures var b := buf[..start] + d + buf[start + |d|..];
            |b| == |buf| && Ring(b, 0) == buf[start + |d|..] + buf[..start] + d
  {
    var s := start + |d|;
    assert buf[s..] == [];
    RingAtZero(buf[..start] + d + buf[s..]);
  }

  lemma SkipRing(buf: seq<byte>, start: nat, c: nat)
    requires start + c <= |buf|
    ensures Ring(buf, start)[c..] == buf[start + c..] + buf[..start]
  {
    assert buf[start..][c..] == buf[start + c..];
  }

  lemma SplitRing(x: seq<byte>, d: seq<byte>, y: seq<byte>, s: nat)
    requires s == |x| + |d|
    ensures Ring(x + d + y, s) == y + x + d
  {
    var b := x + d + y;
    assert b[s..] == y && b[..s] == x + d;
    assert y + (x + d) == y + x + d;
  }

  // ----- truncation -----

  /** No character is cut when `n` bytes of `s` are kept, its first or its last ones. */
  predicate CutsClean(s: seq<byte>, n: nat, tail: bool)
    requires n < |s|
  {
    n == 0 || RuneStart(s[if tail then |s| - n else n])
  }

  /**
   * `out` is the beginning of `s`, or in tail mode its end: all of it when it fits, else the longest one of at most
   * `max` bytes that cuts no character; without one among the last four sizes, three bytes less than `max`.
   */
  predicate IsTruncation(s: seq<byte>, max: int, tail: bool, out: seq<byte>) {
    && |out| <= |s| && out == (if tail then s[|s| - |out|..] else s[..|out|])
    && if |s| <= max then |out| == |s|
       else if max <= 0 then |out| == 0
       else
         && max - (UTF_MAX - 1) <= |out| <= max && (CutsClean(s, |out|, tail) || |out| == max - (UTF_MAX - 1))
         && forall n :: |out| < n <= max ==> !CutsClean(s, n, tail)
  }

  /** The character next to the `n` bytes kept of `s` would pass `max`. */
  ghost predicate NextPasses(s: seq<byte>, max: int, tail: bool, n: nat)
    requires n <= |s|
  {
    if tail then exists p :: 0 <= p < |s| - n && p + SeqLen(s, p, |s|) == |s| - n && |s| - p > max
    else SeqLen(s, n, |s|) > 0 && n + SeqLen(s, n, |s|) > max
  }

  /** Up to three steps back from `cut` to a rune start. */
  function CutBack(s: seq<byte>, cut: nat, steps: nat): (r: nat)
    requires cut < |s|
    ensures r <= cut <= r + steps
    decreases steps
  {
    if steps > 0 && cut > 0 && !RuneStart(s[cut]) then CutBack(s, cut - 1, steps - 1) else cut
  }

  /** Up to three steps forward from `start` to a rune start. */
  function CutForward(s: seq<byte>, start: nat, steps: nat): (r: nat)
    requires start <= |s|
    ensures start <= r <= |s| && r <= start + steps
    decreases steps
  {
    if steps > 0 && start < |s| && !RuneStart(s[start]) then CutForward(s, start + 1, steps - 1) else start
  }

  /** The first or last `max` bytes, the cut nudged to a rune boundary. */
  function Truncate(s: seq<byte>, max: int, tail: bool): seq<byte> {
    if |s| <= max then s
    else if max <= 0 then []
    else if !tail then s[..CutBack(s, max, UTF_MAX - 1)]
    else s[CutForward(s, |s| - max, UTF_MAX - 1)..]
  }

  method TruncateToLimit(s: seq<byte>, max: int, tail: bool) returns (out: seq<byte>)
    ensures out == Truncate(s, max, tail) && IsTruncation(s, max, tail, out)
  {
    TruncateKeeps(s, max, tail);
    if |s| <= max {
      return s;
    }
    if max <= 0 {
      return [];
    }
    var i := 0;
    if !tail {
      var cut := max;
      while i < UTF_MAX - 1 && cut > 0 && !RuneStart(s[cut])
        invariant 0 <= i <= UTF_MAX - 1 && 0 <= cut < |s|
        invariant CutBack(s, max, UTF_MAX - 1) == CutBack(s, cut, UTF_MAX - 1 - i)
      {
        cut, i := cut - 1, i + 1;
      }
      return s[..cut];
    }
    var start := |s| - max;
    while i < UTF_MAX - 1 && start < |s| && !RuneStart(s[start])
      invariant 0 <= i <= UTF_MAX - 1 && 0 <= start <= |s|
      invariant CutForward(s, |s| - max, UTF_MAX - 1) == CutForward(s, start, UTF_MAX - 1 - i)
    {
      start, i := start + 1, i + 1;
    }
    return s[start..];
  }

  /** No decoding asked for: the captured bytes truncated, and whether anything was dropped. */
  method FinishOutput(b: CappedBuffer, max: int, tail: bool) returns (out: seq<byte>, truncated: bool)
    requires b.Valid() && b.tail == tail && b.limit == Max(max + UTF_MAX - 1, 0)
    ensures out == Truncate(b.stream, max, tail) && IsTruncation(b.stream, max, tail, out)
    ensures truncated <==> |b.stream| > max
  {
    var raw := b.Bytes();
    truncated := b.Truncated();
    if |raw| > max {
      truncated := true;
    }
    out := TruncateToLimit(raw, max, tail);
    CaptureThenTruncate(b.stream, max, tail);
    TruncateKeeps(b.stream, max, tail);
  }

  /** Everything in `writes`, in order. */
  ghost function Joined(writes: seq<seq<byte>>, n: nat): seq<byte>
    requires n <= |writes|
  {
    if n == 0 then [] else Joined(writes, n - 1) + writes[n - 1]
  }

  /** What a command's output becomes, however the command splits it into writes. */
  method Capture(writes: seq<seq<byte>>, max: int, tail: bool) returns (out: seq<byte>, truncated: bool)
    ensures var stream := Joined(writes, |writes|);
            && IsTruncation(stream, max, tail, out) && (truncated <==> |stream| > max)
            && (Valid(stream) ==> Valid(out) && (truncated && max > 0 ==> NextPasses(stream, max, tail, |out|)))
  {
    var b := new CappedBuffer(max + UTF_MAX - 1, tail);
    for i := 0 to |writes|
      invariant b.Valid() && b.stream == Joined(writes, i)
    {
      b.Write(writes[i]);
    }
    out, truncated := FinishOutput(b, max, tail);
    TruncateSound(b.stream, max, tail);
    if Valid(b.stream) && truncated && max > 0 {
      NextTooLong(b.stream, max, tail);
    }
  }

  lemma {:induction false} CutBackPrefix(s: seq<byte>, t: seq<byte>, cut: nat, steps: nat)
    requires cut < |s| && s <= t
    ensures CutBack(t, cut, steps) == CutBack(s, cut, steps)
    decreases steps
  {
    if steps > 0 && cut > 0 && !RuneStart(s[cut]) {
      CutBackPrefix(s, t, cut - 1, steps - 1);
    }
  }

  lemma {:induction false} CutForwardSuffix(s: seq<byte>, x: nat, start: nat, steps: nat)
    requires x <= |s| && start <= |s| - x
    ensures x + CutForward(s[x..], start, steps) == CutForward(s, x + start, steps)
    decreases steps
  {
    if steps > 0 && start < |s| - x && !RuneStart(s[x + start]) {
      CutForwardSuffix(s, x, start + 1, steps - 1);
    }
  }

  /** Capturing three bytes more than needed and then truncating is truncating the whole stream. */
  lemma CaptureThenTruncate(stream: seq<byte>, max: int, tail: bool)
    ensures Truncate(Keep(stream, Max(max + UTF_MAX - 1, 0), tail), max, tail) == Truncate(stream, max, tail)
  {
    var n := Max(max + UTF_MAX - 1, 0);
    if |stream| > n && max > 0 {
      if !tail {
        HeadThenTruncate(stream, max, n);
      } else {
        TailThenTruncate(stream, max, n);
      }
    }
  }

  lemma HeadThenTruncate(stream: seq<byte>, max: nat, n: nat)
    requires 0 < max && n == max + UTF_MAX - 1 < |stream|
    ensures Truncate(stream[..n], max, false) == Truncate(stream, max, false)
  {
    CutBackPrefix(stream[..n], stream, max, UTF_MAX - 1);
    hide CutBack;
    SliceOfSlice(stream, 0, n, 0, CutBack(stream, max, UTF_MAX - 1));
  }

  lemma TailThenTruncate(stream: seq<byte>, max: nat, n: nat)
    requires 0 < max && n == max + UTF_MAX - 1 < |stream|
    ensures Truncate(stream[|stream| - n..], max, true) == Truncate(stream, max, true)
  {
    var x := |stream| - n;
    var t, start := stream[x..], CutForward(stream, |stream| - max, UTF_MAX - 1);
    CutForwardSuffix(stream, x, n - max, UTF_MAX - 1);
    TruncateTail(stream, max);
    TruncateTail(t, max);
    hide CutForward, Truncate;
    DropDrop(stream, x, start - x);
  }

  lemma TruncateTail(s: seq<byte>, max: nat)
    requires 0 < max < |s|
    ensures Truncate(s, max, true) == s[CutForward(s, |s| - max, UTF_MAX - 1)..]
  {
  }

  /** At most `max` bytes come back, at most three less, and valid text stays valid. */
  lemma TruncateSound(s: seq<byte>, max: int, tail: bool)
    ensures |Truncate(s, max, tail)| <= Max(max, 0)
    ensures |Truncate(s, max, tail)| >= Min(|s|, max - (UTF_MAX - 1))
    ensures Valid(s) ==> Valid(Truncate(s, max, tail))
  {
    if |s| > max && max > 0 && Valid(s) {
      if !tail {
        var cut := CutBack(s, max, UTF_MAX - 1);
        BackFindsStart(s, max);
        SplitAtStart(s, 0, cut, |s|);
        ValidSlice(s, 0, cut);
        assert s[0..cut] == s[..cut];
      } else {
        var start := CutForward(s, |s| - max, UTF_MAX - 1);
        ForwardFindsStart(s, |s| - max);
        SplitAtStart(s, 0, start, |s|);
        ValidSlice(s, start, |s|);
        assert s[start..|s|] == s[start..];
      }
    } else if max <= 0 {
      assert Valid([]);
    }
  }

  lemma {:induction false} BackSkips(s: seq<byte>, cut: nat, steps: nat)
    requires cut < |s|
    ensures var r := CutBack(s, cut, steps);
            && (CutsClean(s, r, false) || r + steps == cut) && forall n :: r < n <= cut ==> !CutsClean(s, n, false)
    decreases steps
  {
    if steps > 0 && cut > 0 && !RuneStart(s[cut]) {
      BackSkips(s, cut - 1, steps - 1);
    }
  }

  lemma {:induction false} ForwardSkips(s: seq<byte>, start: nat, steps: nat)
    requires 0 < start <= |s|
    ensures var r := CutForward(s, start, steps);
            && (r == |s| || RuneStart(s[r]) || r == start + steps) && forall k :: start <= k < r ==> !RuneStart(s[k])
    decreases steps
  {
    if steps > 0 && start < |s| && !RuneStart(s[start]) {
      ForwardSkips(s, start + 1, steps - 1);
    }
  }

  /** Truncation is what it is meant to be. */
  lemma TruncateKeeps(s: seq<byte>, max: int, tail: bool)
    ensures IsTruncation(s, max, tail, Truncate(s, max, tail))
  {
    var out := Truncate(s, max, tail);
    if |s| > max > 0 {
      if !tail {
        BackSkips(s, max, UTF_MAX - 1);
      } else {
        ForwardSkips(s, |s| - max, UTF_MAX - 1);
        assert |out| == |s| - CutForward(s, |s| - max, UTF_MAX - 1);
        forall n | |out| < n <= max ensures !CutsClean(s, n, true) {
          assert !RuneStart(s[|s| - n]);
        }
      }
    }
  }

  /** Of valid text no more could be kept: the next character would pass the limit. */
  lemma NextTooLong(s: seq<byte>, max: int, tail: bool)
    requires Valid(s) && |s| > max > 0
    ensures NextPasses(s, max, tail, |Truncate(s, max, tail)|)
  {
    TruncateKeeps(s, max, tail);
    hide ValidIn, SeqLen;
    if !tail {
      BackFindsStart(s, max);
      HeadTooLong(s, max, CutBack(s, max, UTF_MAX - 1));
    } else {
      ForwardFindsStart(s, |s| - max);
      TailTooLong(s, max, CutForward(s, |s| - max, UTF_MAX - 1));
    }
  }

  lemma HeadTooLong(s: seq<byte>, max: nat, n: nat)
    requires Valid(s) && n <= max < |s| && StartsAt(s, n, |s|)
    requires forall k :: n < k <= max ==> !CutsClean(s, k, false)
    ensures NextPasses(s, max, false, n)
  {
    SplitAtStart(s, 0, n, |s|);
    var m := n + SeqLen(s, n, |s|);
    assert SeqLen(s, n, m) == m - n;
    PrefixEndsAtStart(s, n, m, |s|);
    assert m < |s| ==> CutsClean(s, m, false);
  }

  lemma TailTooLong(s: seq<byte>, max: nat, start: nat)
    requires Valid(s) && 0 < |s| - max <= start <= |s| && StartsAt(s, start, |s|)
    requires forall k :: |s| - start < k <= max ==> !CutsClean(s, k, true)
    ensures NextPasses(s, max, true, |s| - start)
  {
    SplitAtStart(s, 0, start, |s|);
    var p := LastCharacter(s, 0, start);
    assert p > 0 ==> CutsClean(s, |s| - p, true);
  }

  /** Where the last character of valid text starts. */
  lemma {:induction false} LastCharacter(s: seq<byte>, i: nat, j: nat) returns (p: nat)
    requires i < j <= |s| && ValidIn(s, i, j)
    ensures i <= p < j && p + SeqLen(s, p, |s|) == j && RuneStart(s[p])
    decreases j - i
  {
    var n := SeqLen(s, i, j);
    assert SeqLen(s, i, |s|) == n;
    p := i;
    if i + n < j {
      p := LastCharacter(s, i + n, j);
    }
  }

  lemma {:induction false} BackStops(s: seq<byte>, cut: nat, steps: nat, q: nat)
    requires q <= cut < |s| && cut <= q + steps && RuneStart(s[q])
    ensures RuneStart(s[CutBack(s, cut, steps)])
    decreases steps
  {
    if steps > 0 && cut > 0 && !RuneStart(s[cut]) {
      BackStops(s, cut - 1, steps - 1, q);
    }
  }

  lemma BackFindsStart(s: seq<byte>, cut: nat)
    requires Valid(s) && 0 < cut < |s|
    ensures StartsAt(s, CutBack(s, cut, UTF_MAX - 1), |s|)
  {
    if cut >= UTF_MAX - 1 {
      StartNearby(s, 0, cut - (UTF_MAX - 1), |s|);
      var q :| cut - (UTF_MAX - 1) <= q < cut + 1 && RuneStart(s[q]);
      BackStops(s, cut, UTF_MAX - 1, q);
    } else {
      assert SeqLen(s, 0, |s|) > 0;
      BackStops(s, cut, UTF_MAX - 1, 0);
    }
  }

  lemma {:induction false} ForwardStops(s: seq<byte>, start: nat, steps: nat)
    requires start <= |s|
    requires start + steps >= |s| || exists q :: start <= q <= start + steps && q < |s| && RuneStart(s[q])
    ensures StartsAt(s, CutForward(s, start, steps), |s|)
    decreases steps
  {
    if steps > 0 && start < |s| && !RuneStart(s[start]) {
      ForwardStops(s, start + 1, steps - 1);
    }
  }

  lemma ForwardFindsStart(s: seq<byte>, start: nat)
    requires Valid(s) && start <= |s|
    ensures StartsAt(s, CutForward(s, start, UTF_MAX - 1), |s|)
  {
    if start + UTF_MAX - 1 < |s| {
      StartNearby(s, 0, start, |s|);
    }
    ForwardStops(s, start, UTF_MAX - 1);
  }
}
