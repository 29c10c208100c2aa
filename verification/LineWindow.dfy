/** A range of lines read through a buffered reader, and paging by line numbers. */
module LineWindow {
  import opened Basics
  import opened Bytes
  import opened Lines

  datatype Status = Found | Full | Eof

  /** A buffered reader over a file: it hands out the rest of the line, or as much of it as its buffer holds. */
  class Reader {
    const file: seq<byte>
    const size: nat
    var pos: nat

    ghost predicate Valid()
      reads this
    {
      size > 0 && pos <= |file|
    }

    constructor (file: seq<byte>, size: nat)
      requires size > 0
      ensures Valid() && this.file == file && this.size == size && pos == 0
    {
      this.file, this.size, this.pos := file, size, 0;
    }

    method ReadSlice() returns (chunk: seq<byte>, status: Status)
      requires Valid()
      modifies this`pos
      ensures Valid() && old(pos) <= pos && chunk == file[old(pos)..pos]
      ensures forall k :: old(pos) <= k < pos && (k < pos - 1 || status != Found) ==> file[k] != NL
      ensures status == Found ==> old(pos) < pos && file[pos - 1] == NL
      ensures status == Full ==> pos == old(pos) + size
      ensures status == Eof ==> pos == |file| < old(pos) + size
    {
      var i := pos;
      while i < |file| && i - pos < size && file[i] != NL
        invariant pos <= i <= |file| && i - pos <= size && forall k :: pos <= k < i ==> file[k] != NL
      {
        i := i + 1;
      }
      status := if i - pos == size then Full else if i == |file| then Eof else Found;
      var end := if status == Found then i + 1 else i;
      chunk, pos := file[pos..end], end;
    }
  }

  /** The lines of one read; `nextLine` is the cursor of the next one, 0 for none. */
  datatype Window = Window(data: seq<byte>, offset: nat, more: bool, capped: bool, nextLine: nat, cutLine: bool)

  /** Where the line after the first `k` lines starts, the end of the file when there are no more. */
  function LinePos(file: seq<byte>, k: nat): (p: nat)
    ensures p <= |file|
  {
    if k == 0 then 0
    else
      var p := LinePos(file, k - 1);
      if p == |file| then p else Eol(file, p, |file|)
  }

  /**
   * What is read when the lines of `file[p0..p]` are already taken and line number `line` starts at `p`: whole lines up
   * to `end` (or the end of the file) while they fit `maxBytes`; a first line that does not fit comes back cut.
   */
  function Take(file: seq<byte>, p0: nat, p: nat, line: nat, end: int, maxBytes: nat): (w: Window)
    requires p0 <= p <= |file|
    decreases |file| - p
  {
    if p == |file| || (end > 0 && line > end) then
      Window(file[p0..p], p0, p < |file|, false, if p < |file| then line else 0, false)
    else
      var q := Eol(file, p, |file|);
      if q - p0 <= maxBytes then Take(file, p0, q, line + 1, end, maxBytes)
      else if p > p0 then Window(file[p0..p], p0, true, true, line, false)
      else Window(file[p0..p0 + maxBytes], p0, true, true, line + 1, true)
  }

  /** The window of the lines `start..end` (1-based; `end <= 0` means to the end of the file). */
  function WindowOf(file: seq<byte>, start: nat, end: int, maxBytes: nat): Window
    requires start > 0
  {
    var p := LinePos(file, start - 1);
    if p == |file| then Window([], p, false, false, 0, false) else Take(file, p, p, start, end, maxBytes)
  }

  lemma {:induction false} LinePosEnds(file: seq<byte>, k: nat, m: nat)
    requires k <= m && LinePos(file, k) == |file|
    ensures LinePos(file, m) == |file|
    decreases m
  {
    if k < m {
      LinePosEnds(file, k, m - 1);
    }
  }

  lemma LinePosZero(file: seq<byte>)
    ensures LinePos(file, 0) == 0
  {
  }

  lemma LinePosNext(file: seq<byte>, k: nat, q: nat)
    requires LinePos(file, k) < q <= |file| && (q == |file| || file[q - 1] == NL)
    requires forall i :: LinePos(file, k) <= i < q - 1 ==> file[i] != NL
    ensures LinePos(file, k + 1) == q
  {
    EolAt(file, LinePos(file, k), q, |file|);
  }

  /** Reads past the first `start - 1` lines; `past` when the file has no more. */
  method SkipLines(r: Reader, start: nat) returns (past: bool)
    requires r.Valid() && r.pos == 0 && start > 0
    modifies r`pos
    ensures r.Valid() && r.pos == LinePos(r.file, start - 1)
    ensures past ==> r.pos == |r.file|
  {
    hide LinePos;
    LinePosZero(r.file);
    var line := 1;
    ghost var p := 0;
    while line < start
      invariant r.Valid() && 0 < line <= start
      invariant p == LinePos(r.file, line - 1) <= r.pos
      invariant line == start ==> p == r.pos
      invariant forall k :: p <= k < r.pos ==> r.file[k] != NL
      decreases |r.file| - r.pos
    {
      ghost var was := r.pos;
      var chunk, status := r.ReadSlice();
      match status
      case Found =>
        LinePosNext(r.file, line - 1, r.pos);
        line, p := line + 1, r.pos;
      case Full =>
      case Eof =>
        if p < r.pos {
          LinePosNext(r.file, line - 1, r.pos);
        } else {
          LinePosEnds(r.file, line - 1, line);
        }
        LinePosEnds(r.file, line, start - 1);
        return true;
    }
    past := false;
  }

  /** The lines `start..end`, the same for every buffer size. */
  method ReadLineWindow(file: seq<byte>, start: nat, end: int, maxBytes: nat, bufSize: nat) returns (w: Window)
    requires start > 0 && bufSize > 0
    ensures w == WindowOf(file, start, end, maxBytes)
  {
    hide Take, LinePos;
    var r := new Reader(file, bufSize);
    var past := SkipLines(r, start);
    if past {
      return Window([], r.pos, false, false, 0, false);
    }
    TakeEmpty(file, r.pos, start, end, maxBytes);
    w := CollectLines(r, start, end, maxBytes);
  }

  /** Reads lines from the reader's position on. */
  method CollectLines(r: Reader, start: nat, end: int, maxBytes: nat) returns (w: Window)
    requires r.Valid() && start > 0
    modifies r`pos
    ensures w == Take(r.file, old(r.pos), old(r.pos), start, end, maxBytes)
  {
    hide Take;
    var offset, data, line: nat, lineStart: nat := r.pos, [], start, 0;
    ghost var file := r.file;
    while end <= 0 || line <= end
      invariant r.Valid() && offset + lineStart <= r.pos && data == file[offset..r.pos]
      invariant |data| <= maxBytes
      invariant forall k :: offset + lineStart <= k < r.pos ==> file[k] != NL
      invariant end > 0 && line > end ==> offset + lineStart == r.pos
      invariant Take(file, offset, offset, start, end, maxBytes) ==
                  Take(file, offset, offset + lineStart, line, end, maxBytes)
      decreases |file| - r.pos
    {
      ghost var was, p := r.pos, offset + lineStart;
      var chunk, status := r.ReadSlice();
      data := data + chunk;
      Glue(file, offset, was, r.pos);
      if |data| > maxBytes {
        TakeCapped(file, offset, p, line, end, maxBytes, r.pos);
        if lineStart > 0 {
          assert data[..lineStart] == file[offset..p];
          return Window(data[..lineStart], offset, true, true, line, false);
        } else {
          assert data[..maxBytes] == file[offset..offset + maxBytes];
          return Window(data[..maxBytes], offset, true, true, line + 1, true);
        }
      }
      match status
      case Found =>
        TakeLine(file, offset, p, line, end, maxBytes, r.pos);
        line, lineStart := line + 1, |data|;
      case Full =>
      case Eof =>
        TakeEof(file, offset, p, line, end, maxBytes);
        return Window(data, offset, false, false, 0, false);
    }
    TakeDone(file, offset, r.pos, line, end, maxBytes);
    return Window(data, offset, r.pos < |r.file|, false, if r.pos < |r.file| then line else 0, false);
  }

  lemma TakeEmpty(file: seq<byte>, p: nat, line: nat, end: int, maxBytes: nat)
    requires p <= |file|
    ensures p == |file| ==> Take(file, p, p, line, end, maxBytes) == Window([], p, false, false, 0, false)
  {
  }

  lemma TakeDone(file: seq<byte>, p0: nat, p: nat, line: nat, end: int, maxBytes: nat)
    requires p0 <= p <= |file| && end > 0 && line > end
    ensures Take(file, p0, p, line, end, maxBytes) ==
              Window(file[p0..p], p0, p < |file|, false, if p < |file| then line else 0, false)
  {
  }

  lemma TakeLine(file: seq<byte>, p0: nat, p: nat, line: nat, end: int, maxBytes: nat, q: nat)
    requires p0 <= p < q <= |file| && q - p0 <= maxBytes && !(end > 0 && line > end)
    requires file[q - 1] == NL && forall k :: p <= k < q - 1 ==> file[k] != NL
    ensures Take(file, p0, p, line, end, maxBytes) == Take(file, p0, q, line + 1, end, maxBytes)
  {
    EolAt(file, p, q, |file|);
  }

  lemma TakeCapped(file: seq<byte>, p0: nat, p: nat, line: nat, end: int, maxBytes: nat, pos: nat)
    requires p0 <= p < pos <= |file| && pos - p0 > maxBytes && !(end > 0 && line > end)
    requires forall k :: p <= k < pos - 1 ==> file[k] != NL
    ensures Take(file, p0, p, line, end, maxBytes) ==
              if p > p0 then Window(file[p0..p], p0, true, true, line, false)
              else Window(file[p0..p0 + maxBytes], p0, true, true, line + 1, true)
  {
    assert Eol(file, p, |file|) >= pos;
  }

  lemma TakeEof(file: seq<byte>, p0: nat, p: nat, line: nat, end: int, maxBytes: nat)
    requires p0 <= p <= |file| && |file| - p0 <= maxBytes && !(end > 0 && line > end)
    requires forall k :: p <= k < |file| ==> file[k] != NL
    ensures Take(file, p0, p, line, end, maxBytes) == Window(file[p0..|file|], p0, false, false, 0, false)
  {
    if p < |file| {
      EolAt(file, p, |file|, |file|);
    }
  }

  // ----- what the window holds -----

  /** The first `k` lines end where the others start. */
  lemma {:induction false} LinesBefore(file: seq<byte>, k: nat)
    ensures LinePos(file, k) == |file| <==> k >= |LinesOf(file)|
    ensures k <= |LinesOf(file)| ==>
              && LinesIn(file, LinePos(file, k), |file|) == LinesOf(file)[k..]
              && LinesIn(file, 0, LinePos(file, k)) == LinesOf(file)[..k]
              && (LineStart(file, LinePos(file, k)) || k == |LinesOf(file)|)
  {
    if k > 0 {
      LinesBefore(file, k - 1);
      if LinePos(file, k - 1) < |file| {
        LinesBeforeStep(file, k, LinePos(file, k - 1));
      }
    }
  }

  lemma LinesBeforeStep(file: seq<byte>, k: nat, p: nat)
    requires 0 < k <= |LinesOf(file)| && p < |file| && LineStart(file, p)
    requires LinesIn(file, p, |file|) == LinesOf(file)[k - 1..] && LinesIn(file, 0, p) == LinesOf(file)[..k - 1]
    ensures var q := Eol(file, p, |file|);
            && (q == |file| <==> k == |LinesOf(file)|)
            && LinesIn(file, q, |file|) == LinesOf(file)[k..] && LinesIn(file, 0, q) == LinesOf(file)[..k]
            && (LineStart(file, q) || k == |LinesOf(file)|)
  {
    hide LinesOf;
    var ls, q := LinesOf(file), Eol(file, p, |file|);
    NextLine(file, p, q);
    Shift(ls, k, file[p..q], LinesIn(file, q, |file|));
    NoLines(file, q, |file|);
  }

  lemma Shift<T>(ls: seq<T>, k: nat, x: T, rest: seq<T>)
    requires 0 < k <= |ls| && ls[k - 1..] == [x] + rest
    ensures ls[k..] == rest && ls[..k] == ls[..k - 1] + [x]
  {
    assert ls[k - 1] == ls[k - 1..][0] == x;
    assert ls[k..] == ls[k - 1..][1..];
  }

  lemma NextLine(file: seq<byte>, p: nat, q: nat)
    requires p < |file| && q == Eol(file, p, |file|) && LineStart(file, p)
    ensures LinesIn(file, p, |file|) == [file[p..q]] + LinesIn(file, q, |file|)
    ensures LinesIn(file, 0, q) == LinesIn(file, 0, p) + [file[p..q]]
    ensures LineStart(file, q) || q == |file|
  {
    LinesConcat(file, 0, p, q);
    EolAt(file, p, q, q);
  }

  /** The lines `[i..j)` of the file, 0-based. */
  predicate HoldsLines(file: seq<byte>, data: seq<byte>, i: nat, j: nat) {
    && i <= j <= |LinesOf(file)| && LinePos(file, i) <= LinePos(file, j)
    && data == file[LinePos(file, i)..LinePos(file, j)]
    && LinesOf(data) == LinesOf(file)[i..j]
  }

  lemma {:induction false} LinePosMonotone(file: seq<byte>, i: nat, j: nat)
    requires i <= j
    ensures LinePos(file, i) <= LinePos(file, j)
    decreases j
  {
    if i < j {
      LinePosMonotone(file, i, j - 1);
    }
  }

  /** The bytes between two line starts are the lines between them. */
  lemma StretchLines(file: seq<byte>, i: nat, j: nat)
    requires i <= j <= |LinesOf(file)|
    ensures LinePos(file, i) <= LinePos(file, j)
    ensures HoldsLines(file, file[LinePos(file, i)..LinePos(file, j)], i, j)
  {
    hide LinesIn, LinePos;
    var ls, p, q := LinesOf(file), LinePos(file, i), LinePos(file, j);
    LinePosMonotone(file, i, j);
    LinesBefore(file, i);
    LinesBefore(file, j);
    if p == 0 || LineStart(file, p) {
      LinesConcat(file, 0, p, q);
      assert ls[..j] == ls[..i] + LinesIn(file, p, q);
      assert ls[i..j] == ls[..j][i..];
    }
    LinesOfSlice(file, p, q);
  }

  /**
   * What a window of lines promises: the lines from `start` on, up to `end` or the end of the file, or as many as fit;
   * a first line that alone does not fit comes back cut at `maxBytes`.
   */
  ghost predicate IsWindow(w: Window, file: seq<byte>, start: nat, end: int, maxBytes: nat)
    requires 0 < start <= |LinesOf(file)|
  {
    var ls := LinesOf(file);
    var last := if end <= 0 then |ls| else Min(Max(end, start - 1), |ls|);
    && w.offset == LinePos(file, start - 1)
    && (!w.capped ==> HoldsLines(file, w.data, start - 1, last) && !w.cutLine && |w.data| <= maxBytes
                      && (w.more <==> last < |ls|) && w.nextLine == if w.more then last + 1 else 0)
    && (w.capped && !w.cutLine ==>
         w.more && start < w.nextLine <= last && HoldsLines(file, w.data, start - 1, w.nextLine - 1)
                                   && |w.data| <= maxBytes < |w.data| + |ls[w.nextLine - 1]|)
    && (w.cutLine ==> w.capped && w.more && w.nextLine == start + 1 && start <= last && |ls[start - 1]| > maxBytes
                      && w.data == ls[start - 1][..maxBytes])
  }

  lemma {:induction false} TakeIsWindow(file: seq<byte>, start: nat, end: int, maxBytes: nat, k: nat)
    requires 0 < start <= |LinesOf(file)| && start - 1 <= k <= |LinesOf(file)| && (end > 0 ==> k <= Max(end, start - 1))
    requires LinePos(file, start - 1) <= LinePos(file, k) && LinePos(file, k) - LinePos(file, start - 1) <= maxBytes
    ensures IsWindow(Take(file, LinePos(file, start - 1), LinePos(file, k), k + 1, end, maxBytes), file, start, end,
              maxBytes)
    decreases |LinesOf(file)| - k
  {
    hide LinesOf, LinePos, IsWindow;
    var p0, p := LinePos(file, start - 1), LinePos(file, k);
    LinesBefore(file, k);
    if p == |file| || (end > 0 && k + 1 > end) {
      DoneIsWindow(file, start, end, maxBytes, k);
    } else {
      LineAt(file, k);
      LinePosStep(file, k);
      var q := LinePos(file, k + 1);
      if q - p0 <= maxBytes {
        TakeIsWindow(file, start, end, maxBytes, k + 1);
      } else {
        CappedIsWindow(file, start, end, maxBytes, k);
      }
    }
  }

  lemma LinePosStep(file: seq<byte>, k: nat)
    requires LinePos(file, k) < |file|
    ensures LinePos(file, k + 1) == Eol(file, LinePos(file, k), |file|)
  {
  }

  lemma DoneIsWindow(file: seq<byte>, start: nat, end: int, maxBytes: nat, k: nat)
    requires 0 < start <= |LinesOf(file)| && start - 1 <= k <= |LinesOf(file)| && (end > 0 ==> k <= Max(end, start - 1))
    requires LinePos(file, start - 1) <= LinePos(file, k) && LinePos(file, k) - LinePos(file, start - 1) <= maxBytes
    requires LinePos(file, k) == |file| || (end > 0 && k + 1 > end)
    ensures var p0, p := LinePos(file, start - 1), LinePos(file, k);
            IsWindow(Window(file[p0..p], p0, p < |file|, false, if p < |file| then k + 1 else 0, false), file, start,
              end, maxBytes)
  {
    hide LinesOf, LinePos;
    StretchLines(file, start - 1, k);
    LinesBefore(file, k);
  }

  lemma CappedIsWindow(file: seq<byte>, start: nat, end: int, maxBytes: nat, k: nat)
    requires 0 < start <= |LinesOf(file)| && start - 1 <= k < |LinesOf(file)| && (end > 0 ==> k + 1 <= end)
    requires LinePos(file, start - 1) <= LinePos(file, k) && LinePos(file, k) - LinePos(file, start - 1) <= maxBytes
    requires LinePos(file, k + 1) - LinePos(file, start - 1) > maxBytes
    ensures var p0, p := LinePos(file, start - 1), LinePos(file, k);
            var w := if p > p0 then Window(file[p0..p], p0, true, true, k + 1, false)
                     else Window(file[p0..p0 + maxBytes], p0, true, true, k + 2, true);
            IsWindow(w, file, start, end, maxBytes)
  {
    hide LinesOf, LinePos;
    var p0, p, q := LinePos(file, start - 1), LinePos(file, k), LinePos(file, k + 1);
    StretchLines(file, start - 1, k);
    LineAt(file, k);
    if p == p0 {
      SameStart(file, start - 1, k);
      SliceOfSlice(file, p, q, 0, maxBytes);
    }
  }

  /** The `k`-th line is the stretch up to the next line start. */
  lemma LineAt(file: seq<byte>, k: nat)
    requires k < |LinesOf(file)|
    ensures LinePos(file, k) < LinePos(file, k + 1) && LinesOf(file)[k] == file[LinePos(file, k)..LinePos(file, k + 1)]
  {
    LinesBefore(file, k);
    var ls, p := LinesOf(file), LinePos(file, k);
    assert ls[k..][0] == ls[k];
  }

  lemma {:induction false} SameStart(file: seq<byte>, i: nat, k: nat)
    requires i <= k <= |LinesOf(file)| && LinePos(file, i) == LinePos(file, k)
    ensures i == k
    decreases k
  {
    hide LinesIn, LinePos;
    if i < k {
      LineAt(file, k - 1);
      LinePosMonotone(file, i, k - 1);
    }
  }

  /** The window read is the one promised. */
  lemma WindowIsRight(file: seq<byte>, start: nat, end: int, maxBytes: nat)
    requires start > 0
    ensures start <= |LinesOf(file)| ==> IsWindow(WindowOf(file, start, end, maxBytes), file, start, end, maxBytes)
    ensures start > |LinesOf(file)| ==>
              WindowOf(file, start, end, maxBytes) == Window([], |file|, false, false, 0, false)
  {
    hide Take, LinePos;
    LinesBefore(file, start - 1);
    if start <= |LinesOf(file)| {
      TakeIsWindow(file, start, end, maxBytes, start - 1);
    }
  }

  // ----- paging by next_start_line -----

  /** The windows a caller gets by following `nextLine` from `start` on, reading to the end of the file each time. */
  function FollowLines(file: seq<byte>, start: nat, maxBytes: nat): seq<Window>
    requires start > 0
    decreases |LinesOf(file)| - start
  {
    var w := WindowOf(file, start, 0, maxBytes);
    if start <= |LinesOf(file)| && w.nextLine > start then [w] + FollowLines(file, w.nextLine, maxBytes) else [w]
  }

  function Contents(ws: seq<Window>): seq<byte> {
    if ws == [] then [] else ws[0].data + Contents(ws[1..])
  }

  predicate AllFit(file: seq<byte>, start: nat, maxBytes: nat) {
    forall k :: start - 1 <= k < |LinesOf(file)| && k >= 0 ==> |LinesOf(file)[k]| <= maxBytes
  }

  /** Following the cursor shows the rest of the file, and exactly so when every line fits a window. */
  lemma {:induction false} FollowShows(file: seq<byte>, start: nat, maxBytes: nat)
    requires start > 0
    ensures var c, rest := Contents(FollowLines(file, start, maxBytes)), file[LinePos(file, start - 1)..];
            |c| <= |rest| && (c == rest <==> AllFit(file, start, maxBytes))
    decreases |LinesOf(file)| - start
  {
    hide LinesIn, LinePos, WindowOf;
    var ls, p := LinesOf(file), LinePos(file, start - 1);
    var w := WindowOf(file, start, 0, maxBytes);
    WindowIsRight(file, start, 0, maxBytes);
    LinesBefore(file, start - 1);
    if start > |ls| {
      assert Contents([w]) == [];
    } else if w.nextLine > start {
      FollowShows(file, w.nextLine, maxBytes);
      var ws := FollowLines(file, start, maxBytes);
      assert ws[1..] == FollowLines(file, w.nextLine, maxBytes);
      FollowStep(file, start, maxBytes, w, Contents(ws[1..]));
    } else {
      LinesBefore(file, |ls|);
      assert Contents([w]) == w.data + [] == w.data;
      assert file[p..] == file[p..|file|];
      FitsAll(file, start, maxBytes);
    }
  }

  /** A window that holds all the remaining lines holds lines that fit. */
  lemma FitsAll(file: seq<byte>, start: nat, maxBytes: nat)
    requires 0 < start <= |LinesOf(file)| && |file| - LinePos(file, start - 1) <= maxBytes
    ensures AllFit(file, start, maxBytes)
  {
    hide LinesOf, LinePos;
    forall k | start - 1 <= k < |LinesOf(file)| && k >= 0 ensures |LinesOf(file)[k]| <= maxBytes {
      LineAt(file, k);
      LinePosMonotone(file, start - 1, k);
    }
  }

  lemma FollowStep(file: seq<byte>, start: nat, maxBytes: nat, w: Window, tail: seq<byte>)
    requires 0 < start <= |LinesOf(file)| && IsWindow(w, file, start, 0, maxBytes) && start < w.nextLine
    requires var rest := file[LinePos(file, w.nextLine - 1)..];
             |tail| <= |rest| && (tail == rest <==> AllFit(file, w.nextLine, maxBytes))
    ensures var rest := file[LinePos(file, start - 1)..];
            |w.data + tail| <= |rest| && (w.data + tail == rest <==> AllFit(file, start, maxBytes))
  {
    hide LinesIn, LinePos;
    var ls, p, q := LinesOf(file), LinePos(file, start - 1), LinePos(file, w.nextLine - 1);
    LinePosMonotone(file, start - 1, w.nextLine - 1);
    Glue(file, p, q, |file|);
    assert file[p..] == file[p..|file|] && file[q..] == file[q..|file|];
    if w.cutLine {
      LineAt(file, start - 1);
    } else {
      assert w.data == file[p..q];
      forall k | start - 1 <= k < w.nextLine - 1 ensures |ls[k]| <= maxBytes {
        LineAt(file, k);
        LinePosMonotone(file, start - 1, k);
        LinePosMonotone(file, k + 1, w.nextLine - 1);
      }
      if w.data + tail == file[p..] {
        assert tail == (w.data + tail)[|w.data|..];
      }
    }
  }

  /** Following the cursor from line 1 shows exactly the file if and only if every line fits a window. */
  lemma LinePagingIff(file: seq<byte>, maxBytes: nat)
    ensures Contents(FollowLines(file, 1, maxBytes)) == file <==> forall l :: l in LinesOf(file) ==> |l| <= maxBytes
  {
    FollowShows(file, 1, maxBytes);
    assert file[0..] == file;
    var ls := LinesOf(file);
    if AllFit(file, 1, maxBytes) {
      forall l | l in ls ensures |l| <= maxBytes {
        var k :| 0 <= k < |ls| && ls[k] == l;
      }
    }
  }
}
