/**
 * Character boundaries of the GBK family as its decoder reads it. The encoding is not self-synchronizing: trail
 * bytes share the range of lead bytes, so boundaries are found by parsing on from a byte that can only stand alone.
 */
module GbText {
  import opened Basics
  import opened Bytes

  const GB_SYNC_SCAN: nat := 0x1_0000

  predicate IsLead(b: byte) { 0x81 <= b < 0xFF }

  /** The linear index of a four-byte sequence. */
  function FourByteIndex(b0: byte, b1: byte, b2: byte, b3: byte): int {
    (((b0 - 0x81) * 10 + (b1 - 0x30)) * 126 + (b2 - 0x81)) * 10 + (b3 - 0x30)
  }

  /** The indices that stand for characters; any other four bytes fall apart, the first of them into one of its own. */
  predicate Mapped(r: int) { r < 39420 || 189000 <= r < 189000 + 0x10_0000 }

  /**
   * The length of the character at `i` when the bytes from `j` on are not visible. Bytes that make up no character have
   * length 1 each; what may go on behind `j` is taken to do so.
   */
  function CharLen(s: seq<byte>, i: nat, j: nat, gb18030: bool): (n: nat)
    requires i < j <= |s|
    ensures n == 1 || n == 2 || (gb18030 && n == 4)
  {
    if !IsLead(s[i]) then 1
    else if i + 1 == j then 2
    else
      var t := s[i + 1];
      if t >= 0x40 && t != 0x7F && t != 0xFF then 2
      else if gb18030 && 0x30 <= t <= 0x3F then
        if i + 2 < j && !IsLead(s[i + 2]) then 1
        else if i + 3 < j && !(0x30 <= s[i + 3] <= 0x39) then 1
        else if i + 3 < j && !Mapped(FourByteIndex(s[i], t, s[i + 2], s[i + 3])) then 1
        else 4
      else 1
  }

  /** A byte below this can only be a character of its own. */
  function SyncLimit(gb18030: bool): byte { if gb18030 then 0x30 else 0x40 }

  /** Where parsing from the character start `p` first reaches `off` or beyond. */
  function NextFrom(s: seq<byte>, p: nat, off: nat, j: nat, gb18030: bool): (r: nat)
    requires off <= j <= |s|
    ensures r >= off && (p <= off ==> r < off + 4)
    decreases off - p
  {
    if p >= off then p else NextFrom(s, p + CharLen(s, p, j, gb18030), off, j, gb18030)
  }

  /** The first character boundary at or after `off` in the parse of the whole file. */
  function NextBoundary(file: seq<byte>, off: nat, gb18030: bool): nat
    requires off <= |file|
  {
    NextFrom(file, 0, off, |file|, gb18030)
  }

  predicate IsBoundary(file: seq<byte>, off: nat, gb18030: bool)
    requires off <= |file|
  {
    NextBoundary(file, off, gb18030) == off
  }

  /** The end of the last whole character before `j`, parsing from `i`. */
  function WholeFrom(s: seq<byte>, i: nat, j: nat, gb18030: bool): (r: nat)
    requires i <= j <= |s|
    ensures i <= r <= j
    decreases j - i
  {
    if i < j && i + CharLen(s, i, j, gb18030) <= j then WholeFrom(s, i + CharLen(s, i, j, gb18030), j, gb18030) else i
  }

  /** Behind the last byte of `data[..n]` that can only stand alone, or -1 without one. */
  function SyncBefore(data: seq<byte>, n: nat, gb18030: bool): (r: int)
    requires n <= |data|
    ensures r == -1 || 0 < r <= n
    ensures r > 0 ==> data[r - 1] < SyncLimit(gb18030)
  {
    if n == 0 then -1 else if data[n - 1] < SyncLimit(gb18030) then n else SyncBefore(data, n - 1, gb18030)
  }

  // ----- the loops -----

  method WholeChars(data: seq<byte>, gb18030: bool) returns (i: nat)
    ensures i == WholeFrom(data, 0, |data|, gb18030)
  {
    i := 0;
    while i < |data|
      invariant i <= |data| && WholeFrom(data, 0, |data|, gb18030) == WholeFrom(data, i, |data|, gb18030)
    {
      var n := CharLen(data, i, |data|, gb18030);
      if i + n > |data| {
        break;
      }
      i := i + n;
    }
  }

  method LastBoundary(data: seq<byte>, gb18030: bool) returns (r: int)
    ensures r == SyncBefore(data, |data|, gb18030)
  {
    var limit := SyncLimit(gb18030);
    var i := |data| - 1;
    while i >= 0
      invariant -1 <= i < |data| && SyncBefore(data, |data|, gb18030) == SyncBefore(data, i + 1, gb18030)
    {
      if data[i] < limit {
        return i + 1;
      }
      i := i - 1;
    }
    return -1;
  }

  // ----- parsing agrees with itself -----

  /** A parse that stops at `q` goes on from there. */
  lemma {:induction false} NextThrough(s: seq<byte>, p: nat, q: nat, off: nat, j: nat, gb18030: bool)
    requires p <= q <= off <= j <= |s| && NextFrom(s, p, q, j, gb18030) == q
    ensures NextFrom(s, p, off, j, gb18030) == NextFrom(s, q, off, j, gb18030)
    decreases q - p
  {
    if p < q {
      NextBounds(s, p + CharLen(s, p, j, gb18030), q, j, gb18030);
      NextThrough(s, p + CharLen(s, p, j, gb18030), q, off, j, gb18030);
    }
  }

  lemma NextBounds(s: seq<byte>, p: nat, off: nat, j: nat, gb18030: bool)
    requires off <= j <= |s|
    ensures NextFrom(s, p, off, j, gb18030) >= p
    decreases off - p
  {
  }

  /** No character reaches over a byte that can only stand alone. */
  lemma NoCover(s: seq<byte>, p: nat, i: nat, j: nat, gb18030: bool)
    requires p < i < j <= |s| && s[i] < SyncLimit(gb18030)
    ensures p + CharLen(s, p, j, gb18030) <= i
  {
  }

  /** From wherever a parse starts, it passes just behind a byte that can only stand alone. */
  lemma {:induction false} Resync(s: seq<byte>, p: nat, i: nat, j: nat, gb18030: bool)
    requires p <= i < j <= |s| && s[i] < SyncLimit(gb18030)
    ensures NextFrom(s, p, i + 1, j, gb18030) == i + 1
    decreases i - p
  {
    if p < i {
      NoCover(s, p, i, j, gb18030);
      Resync(s, p + CharLen(s, p, j, gb18030), i, j, gb18030);
    }
  }

  /** Whole characters counted from `i` or from a place the parse from `i` passes: the same end. */
  lemma {:induction false} WholeThrough(s: seq<byte>, i: nat, q: nat, j: nat, gb18030: bool)
    requires i <= q <= j <= |s| && NextFrom(s, i, q, j, gb18030) == q
    ensures WholeFrom(s, i, j, gb18030) == WholeFrom(s, q, j, gb18030)
    decreases q - i
  {
    if i < q {
      var n := CharLen(s, i, j, gb18030);
      NextBounds(s, i + n, q, j, gb18030);
      WholeThrough(s, i + n, q, j, gb18030);
    }
  }

  /** Counting whole characters from the last lone byte of a window ends where counting from its start does. */
  lemma ResyncWhole(data: seq<byte>, gb18030: bool)
    ensures var base := Max(SyncBefore(data, |data|, gb18030), 0);
            WholeFrom(data, base, |data|, gb18030) == WholeFrom(data, 0, |data|, gb18030)
  {
    var base := SyncBefore(data, |data|, gb18030);
    if base > 0 {
      Resync(data, 0, base - 1, |data|, gb18030);
      WholeThrough(data, 0, base, |data|, gb18030);
    }
  }

  // ----- windows of a file -----

  lemma CharLenShift(s: seq<byte>, x: nat, y: nat, i: nat, gb18030: bool)
    requires x <= y <= |s| && i < y - x
    ensures CharLen(s[x..y], i, y - x, gb18030) == CharLen(s, x + i, y, gb18030)
  {
  }

  lemma {:induction false} WholeShift(s: seq<byte>, x: nat, y: nat, i: nat, gb18030: bool)
    requires x <= y <= |s| && i <= y - x
    ensures x + WholeFrom(s[x..y], i, y - x, gb18030) == WholeFrom(s, x + i, y, gb18030)
    decreases y - x - i
  {
    hide CharLen;
    if i < y - x {
      CharLenShift(s, x, y, i, gb18030);
      var n := CharLen(s, x + i, y, gb18030);
      if i + n <= y - x {
        WholeShift(s, x, y, i + n, gb18030);
      }
    }
  }

  lemma WholeOfSuffix(s: seq<byte>, x: nat, gb18030: bool)
    requires x <= |s|
    ensures x + WholeFrom(s[x..], 0, |s| - x, gb18030) == WholeFrom(s, x, |s|, gb18030)
  {
    hide WholeFrom;
    WholeShift(s, x, |s|, 0, gb18030);
    assert s[x..|s|] == s[x..];
  }

  lemma {:induction false} NextShift(s: seq<byte>, x: nat, y: nat, p: nat, off: nat, gb18030: bool)
    requires x <= y <= |s| && off <= y - x
    ensures x + NextFrom(s[x..y], p, off, y - x, gb18030) == NextFrom(s, x + p, x + off, y, gb18030)
    decreases off - p
  {
    if p < off {
      CharLenShift(s, x, y, p, gb18030);
      NextShift(s, x, y, p + CharLen(s, x + p, y, gb18030), off, gb18030);
    }
  }

  /** Enough is visible up to `j` to read every character that starts before `off` as the whole file reads it. */
  predicate Settled(s: seq<byte>, off: nat, j: nat, gb18030: bool) {
    && off <= j <= |s|
    && (|| j == |s|
        || off + (if gb18030 then 3 else 1) <= j
        || (off < j && s[j - 1] < SyncLimit(gb18030)))
  }

  lemma SettledLen(s: seq<byte>, i: nat, off: nat, j: nat, gb18030: bool)
    requires Settled(s, off, j, gb18030) && i < off
    ensures CharLen(s, i, j, gb18030) == CharLen(s, i, |s|, gb18030)
  {
  }

  /** A character seen to end within the window is the character of the file. */
  lemma SeenLen(s: seq<byte>, i: nat, j: nat, gb18030: bool)
    requires i < j <= |s| && i + CharLen(s, i, j, gb18030) <= j
    ensures CharLen(s, i, j, gb18030) == CharLen(s, i, |s|, gb18030)
  {
  }

  lemma {:induction false} SettledNext(s: seq<byte>, p: nat, off: nat, j: nat, gb18030: bool)
    requires Settled(s, off, j, gb18030)
    ensures NextFrom(s, p, off, j, gb18030) == NextFrom(s, p, off, |s|, gb18030)
    decreases off - p
  {
    if p < off {
      SettledLen(s, p, off, j, gb18030);
      SettledNext(s, p + CharLen(s, p, j, gb18030), off, j, gb18030);
    }
  }

  /** The whole characters of a window end on a place the file's own parse passes. */
  lemma {:induction false} WholeIsNext(s: seq<byte>, i: nat, j: nat, gb18030: bool)
    requires i <= j <= |s|
    ensures var e := WholeFrom(s, i, j, gb18030); NextFrom(s, i, e, |s|, gb18030) == e
    decreases j - i
  {
    if i < j {
      var n := CharLen(s, i, j, gb18030);
      if i + n <= j {
        SeenLen(s, i, j, gb18030);
        WholeIsNext(s, i + n, j, gb18030);
      }
    }
  }

  /** A window that is wide enough, or ends in a byte that stands alone, holds at least one whole character. */
  lemma WholeProgress(s: seq<byte>, i: nat, j: nat, gb18030: bool)
    requires i < j <= |s|
    requires i + (if gb18030 then 4 else 2) <= j || s[j - 1] < SyncLimit(gb18030)
    ensures WholeFrom(s, i, j, gb18030) > i
  {
    if s[j - 1] < SyncLimit(gb18030) && i < j - 1 {
      NoCover(s, i, j - 1, j, gb18030);
    }
  }

  // ----- the cut head -----

  /** The bytes before `off` that are looked at for a boundary. */
  function Back(file: seq<byte>, off: nat): (b: seq<byte>)
    requires off <= |file|
    ensures |b| == Min(off, GB_SYNC_SCAN)
  {
    file[off - Min(off, GB_SYNC_SCAN)..off]
  }

  /**
   * How many bytes of the window `file[off..end]` belong to a character begun before `off`, found by parsing on from
   * the last byte before it that stands alone; 0 when there is none within `GB_SYNC_SCAN` bytes.
   */
  function HeadSkip(file: seq<byte>, off: nat, end: nat, gb18030: bool): (r: nat)
    requires off <= end <= |file|
    ensures r <= end - off
  {
    if off == 0 || off == end then 0
    else
      var n := Min(off, GB_SYNC_SCAN);
      var back := Back(file, off);
      var p := SyncBefore(back, n, gb18030);
      if p < 0 && off > n then 0
      else
        var view := HeadView(file, off, end);
        Min(NextFrom(view, Max(p, 0), n, |view|, gb18030) - n, end - off)
  }

  /** The window `data` was read at `off`. */
  predicate SitsAt(data: seq<byte>, file: seq<byte>, off: nat)
    requires off + |data| <= |file|
  {
    data == file[off..off + |data|]
  }

  method GbHeadSkip(file: seq<byte>, off: nat, data: seq<byte>, gb18030: bool) returns (r: nat)
    requires off + |data| <= |file| && SitsAt(data, file, off)
    ensures r == HeadSkip(file, off, off + |data|, gb18030)
  {
    hide CharLen, SyncBefore, HeadSkip, NextFrom, HeadView, SitsAt, Back;
    NothingToSkip(file, off, off + |data|, gb18030);
    if off == 0 || |data| == 0 {
      return 0;
    }
    HeadSkipUnfold(file, off, off + |data|, gb18030);
    var n, back := Min(off, GB_SYNC_SCAN), Back(file, off);
    var p := LastBoundary(back, gb18030);
    if p < 0 && off > n {
      return 0;
    }
    r := SkipFrom(file, off, data, back, Max(p, 0), gb18030);
  }

  /** Parses `back`, the bytes before `off`, and the head of the window from the boundary `p` on. */
  method SkipFrom(ghost file: seq<byte>, ghost off: nat, data: seq<byte>, back: seq<byte>, p: nat, gb18030: bool)
    returns (r: nat)
    requires off + |data| <= |file| && SitsAt(data, file, off) && back == Back(file, off)
    ensures var view := HeadView(file, off, off + |data|);
            r == Min(NextFrom(view, p, |back|, |view|, gb18030) - |back|, |data|)
  {
    ViewOfWindow(file, off, data);
    hide CharLen, NextFrom, HeadView, Back, SitsAt;
    var view := back + data[..Min(|data|, 4)];
    var q := ParseTo(view, p, |back|, gb18030);
    r := Min(q - |back|, |data|);
  }

  lemma ViewOfWindow(file: seq<byte>, off: nat, data: seq<byte>)
    requires off + |data| <= |file| && SitsAt(data, file, off)
    ensures Back(file, off) + data[..Min(|data|, 4)] == HeadView(file, off, off + |data|)
  {
    SliceOfSlice(file, off, off + |data|, 0, Min(|data|, 4));
  }

  /** Parses on from `p0` until `n` is reached. */
  method ParseTo(view: seq<byte>, p0: nat, n: nat, gb18030: bool) returns (p: nat)
    requires n <= |view|
    ensures p == NextFrom(view, p0, n, |view|, gb18030)
  {
    hide CharLen;
    p := p0;
    while p < n
      invariant NextFrom(view, p0, n, |view|, gb18030) == NextFrom(view, p, n, |view|, gb18030)
    {
      p := p + CharLen(view, p, |view|, gb18030);
    }
  }

  /** A boundary is in reach behind `off`: the file start, or a byte that can only stand alone. */
  predicate SyncInReach(file: seq<byte>, off: nat, gb18030: bool)
    requires off <= |file|
  {
    off <= GB_SYNC_SCAN || exists i :: off - GB_SYNC_SCAN <= i < off && file[i] < SyncLimit(gb18030)
  }

  lemma {:induction false} SyncFound(data: seq<byte>, n: nat, i: nat, gb18030: bool)
    requires i < n <= |data| && data[i] < SyncLimit(gb18030)
    ensures SyncBefore(data, n, gb18030) > 0
  {
    if i < n - 1 && data[n - 1] >= SyncLimit(gb18030) {
      SyncFound(data, n - 1, i, gb18030);
    }
  }

  /** What the head scan looks at: up to `GB_SYNC_SCAN` bytes before `off` and up to four bytes of the window. */
  function HeadView(file: seq<byte>, off: nat, end: nat): (v: seq<byte>)
    requires off <= end <= |file|
    ensures |v| == Min(off, GB_SYNC_SCAN) + Min(end - off, 4)
  {
    Back(file, off) + file[off..Min(end, off + 4)]
  }

  lemma HeadViewIsSlice(file: seq<byte>, off: nat, end: nat)
    requires off <= end <= |file|
    ensures HeadView(file, off, end) == file[off - Min(off, GB_SYNC_SCAN)..Min(end, off + 4)]
  {
    Glue(file, off - Min(off, GB_SYNC_SCAN), off, Min(end, off + 4));
  }

  /** The local parse behind `off` follows the global one. */
  lemma HeadParse(file: seq<byte>, off: nat, end: nat, p: nat, gb18030: bool)
    requires 0 < off < end <= |file| && Settled(file, off, end, gb18030)
    requires var n := Min(off, GB_SYNC_SCAN); p <= n && NextFrom(file, 0, off - n + p, |file|, gb18030) == off - n + p
    ensures var n, view := Min(off, GB_SYNC_SCAN), HeadView(file, off, end);
            off - n + NextFrom(view, p, n, |view|, gb18030) == NextBoundary(file, off, gb18030)
  {
    hide NextFrom, CharLen;
    var n := Min(off, GB_SYNC_SCAN);
    var x, y := off - n, Min(end, off + 4);
    HeadViewIsSlice(file, off, end);
    NextShift(file, x, y, p, n, gb18030);
    SettledNext(file, x + p, off, y, gb18030);
    NextThrough(file, 0, x + p, off, |file|, gb18030);
  }

  lemma SyncStart(file: seq<byte>, off: nat, gb18030: bool)
    requires 0 < off <= |file|
    ensures var n := Min(off, GB_SYNC_SCAN);
            var p := Max(SyncBefore(Back(file, off), n, gb18030), 0);
            (SyncBefore(Back(file, off), n, gb18030) > 0 || off == n) ==>
              NextFrom(file, 0, off - n + p, |file|, gb18030) == off - n + p
  {
    var n := Min(off, GB_SYNC_SCAN);
    var back := Back(file, off);
    var p := SyncBefore(back, n, gb18030);
    if p > 0 {
      assert back[p - 1] == file[off - n + p - 1];
      Resync(file, 0, off - n + p - 1, |file|, gb18030);
    }
  }

  lemma SyncReached(file: seq<byte>, off: nat, gb18030: bool)
    requires off <= |file| && SyncInReach(file, off, gb18030)
    ensures off > GB_SYNC_SCAN ==> SyncBefore(Back(file, off), GB_SYNC_SCAN, gb18030) > 0
  {
    if off > GB_SYNC_SCAN {
      var x := off - GB_SYNC_SCAN;
      var back := file[x..off];
      var i :| x <= i < off && file[i] < SyncLimit(gb18030);
      assert back[i - x] == file[i];
      SyncFound(back, GB_SYNC_SCAN, i - x, gb18030);
    }
  }

  lemma HeadSkipUnfold(file: seq<byte>, off: nat, end: nat, gb18030: bool)
    requires 0 < off < end <= |file|
    ensures var n, view := Min(off, GB_SYNC_SCAN), HeadView(file, off, end);
            var p := SyncBefore(Back(file, off), n, gb18030);
            HeadSkip(file, off, end, gb18030) ==
              if p < 0 && off > n then 0 else Min(NextFrom(view, Max(p, 0), n, |view|, gb18030) - n, end - off)
  {
    hide NextFrom, SyncBefore, HeadView, Back;
  }

  lemma NothingToSkip(file: seq<byte>, off: nat, end: nat, gb18030: bool)
    requires off <= end <= |file|
    ensures off == 0 || off == end ==> HeadSkip(file, off, end, gb18030) == 0
    ensures off == 0 ==> NextBoundary(file, off, gb18030) == 0
  {
  }

  /** From a start on a boundary of the file, the skip leads to the next one. */
  lemma SkipFromSync(file: seq<byte>, off: nat, end: nat, gb18030: bool)
    requires 0 < off < end <= |file| && Settled(file, off, end, gb18030)
    requires var n := Min(off, GB_SYNC_SCAN); SyncBefore(Back(file, off), n, gb18030) > 0 || off == n
    ensures HeadSkip(file, off, end, gb18030) == Min(NextBoundary(file, off, gb18030) - off, end - off)
  {
    hide NextFrom, SyncBefore, Settled, HeadView, HeadSkip, Back;
    var n := Min(off, GB_SYNC_SCAN);
    var p := Max(SyncBefore(Back(file, off), n, gb18030), 0);
    HeadSkipUnfold(file, off, end, gb18030);
    SyncStart(file, off, gb18030);
    HeadParse(file, off, end, p, gb18030);
  }

  /** With a boundary in reach, the head skip leads to the next boundary of the whole file, or to the window's end. */
  lemma HeadSkipIsNext(file: seq<byte>, off: nat, end: nat, gb18030: bool)
    requires off < end <= |file| && Settled(file, off, end, gb18030) && SyncInReach(file, off, gb18030)
    ensures HeadSkip(file, off, end, gb18030) == Min(NextBoundary(file, off, gb18030) - off, end - off)
  {
    hide NextBoundary, SyncBefore, SyncInReach, Settled, HeadSkip, Back;
    if off == 0 {
      NothingToSkip(file, off, end, gb18030);
    } else {
      SyncReached(file, off, gb18030);
      SkipFromSync(file, off, end, gb18030);
    }
  }

  /** At a boundary of the whole file nothing is skipped, in reach of another boundary or not. */
  lemma HeadSkipAtBoundary(file: seq<byte>, off: nat, end: nat, gb18030: bool)
    requires off < end <= |file| && Settled(file, off, end, gb18030) && IsBoundary(file, off, gb18030)
    ensures HeadSkip(file, off, end, gb18030) == 0
  {
    hide NextBoundary, SyncBefore, Settled, HeadSkip, Back, NextFrom, HeadView;
    if off == 0 {
      NothingToSkip(file, off, end, gb18030);
    } else {
      var n := Min(off, GB_SYNC_SCAN);
      if SyncBefore(Back(file, off), n, gb18030) > 0 || off == n {
        SkipFromSync(file, off, end, gb18030);
      } else {
        HeadSkipUnfold(file, off, end, gb18030);
      }
    }
  }
}
