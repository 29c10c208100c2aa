/** The last lines of a file, read backwards block by block. */
module TailWindow {
  import opened Basics
  import opened Bytes
  import opened Lines

  datatype Window = Window(data: seq<byte>, offset: nat, capped: bool)

  method CountNewlines(data: seq<byte>) returns (n: nat)
    ensures n == Newlines(data, 0, |data|)
  {
    n := 0;
    for i := 0 to |data|
      invariant n == Newlines(data, 0, i)
    {
      if data[i] == NL {
        n := n + 1;
      }
    }
  }

  method IndexNewline(data: seq<byte>) returns (i: int)
    ensures if i < 0 then NL !in data else i < |data| && data[i] == NL && NL !in data[..i]
  {
    i := 0;
    while i < |data|
      invariant 0 <= i <= |data| && NL !in data[..i]
    {
      if data[i] == NL {
        return;
      }
      i := i + 1;
    }
    i := -1;
  }

  method WindowLines(data: seq<byte>) returns (n: nat)
    ensures n == LineCount(data, 0, |data|)
  {
    n := CountNewlines(data);
    if |data| > 0 && data[|data| - 1] != NL {
      n := n + 1;
    }
  }

  lemma {:induction false} NewlinesShift(s: seq<byte>, x: nat, y: nat, i: nat, j: nat)
    requires x <= y <= |s| && i <= j <= y - x
    ensures Newlines(s[x..y], i, j) == Newlines(s, x + i, x + j)
    decreases j - i
  {
    if i < j {
      NewlinesShift(s, x, y, i, j - 1);
    }
  }

  lemma NewlinesOfSuffix(s: seq<byte>, x: nat)
    requires x <= |s|
    ensures Newlines(s[x..], 0, |s| - x) == Newlines(s, x, |s|)
    ensures LineCount(s[x..], 0, |s| - x) == LineCount(s, x, |s|)
  {
    NewlinesShift(s, x, |s|, 0, |s| - x);
    assert s[x..|s|] == s[x..];
  }

  /** Where the backward block scan stops: enough newlines, the head of the file, or the byte cap. */
  method ScanBack(file: seq<byte>, n: nat, maxBytes: int, blockSize: nat) returns (buf: seq<byte>, offset: nat)
    requires blockSize > 0
    ensures offset <= |file| && buf == file[offset..]
    ensures |buf| <= Max(maxBytes, 0)
    ensures offset == 0 || |buf| >= maxBytes || Newlines(file, offset, |file|) > n
  {
    buf, offset := [], |file|;
    while offset > 0 && |buf| < maxBytes
      invariant offset <= |file| && buf == file[offset..] && |buf| <= Max(maxBytes, 0)
    {
      var block := Min(blockSize, offset);
      if |buf| + block > maxBytes {
        block := maxBytes - |buf|;
      }
      var chunk := file[offset - block..offset];
      Glue(file, offset - block, offset, |file|);
      assert file[offset..] == file[offset..|file|] && file[offset - block..] == file[offset - block..|file|];
      buf := chunk + buf;
      offset := offset - block;
      NewlinesOfSuffix(file, offset);
      var nl := CountNewlines(buf);
      if nl > n {
        break;
      }
    }
  }

  /** The position behind the `skip`-th newline. */
  method SkipNewlines(buf: seq<byte>, skip: nat) returns (pos: nat)
    requires 0 < skip <= Newlines(buf, 0, |buf|)
    ensures 0 < pos <= |buf| && buf[pos - 1] == NL && Newlines(buf, 0, pos) == skip
  {
    pos := 0;
    var seen, i := 0, 0;
    while i < |buf| && seen < skip
      invariant i <= |buf| && seen == Newlines(buf, 0, i) <= skip
      invariant seen == skip ==> 0 < pos == i && buf[pos - 1] == NL
    {
      if buf[i] == NL {
        seen := seen + 1;
        if seen == skip {
          pos := i + 1;
        }
      }
      i := i + 1;
    }
  }

  /** The first line start behind `x`. */
  ghost predicate FirstBehind(file: seq<byte>, x: nat, start: nat) {
    x < start <= |file| && file[start - 1] == NL && forall k :: x <= k < start - 1 ==> file[k] != NL
  }

  /** Enough bytes from the end to cover the last `n` newlines, capped; a cap in mid-file drops a partial first line. */
  method ReadTailBytes(file: seq<byte>, n: nat, maxBytes: int, blockSize: nat)
    returns (data: seq<byte>, start: nat, truncated: bool)
    requires blockSize > 0
    ensures start <= |file| && data == file[start..]
    ensures n > 0 ==> Newlines(file, start, |file|) <= n
    ensures LineStart(file, start) || (truncated && NL !in data) || n == 0
    ensures truncated || start == 0 || Newlines(file, start, |file|) == n || n == 0 || |file| == 0
    ensures |data| <= Max(maxBytes, 0) && (truncated ==> start > 0)
    ensures truncated && maxBytes > 0 ==>
              || (Newlines(file, start, |file|) == n && LineStart(file, start))
              || (|file| >= maxBytes && FirstBehind(file, |file| - maxBytes, start))
              || (NL !in data && |data| == maxBytes)
  {
    if |file| == 0 || n == 0 {
      return [], |file|, false;
    }
    var buf, offset := ScanBack(file, n, maxBytes, blockSize);
    truncated := offset > 0 && |buf| >= maxBytes;
    var nl := CountNewlines(buf);
    NewlinesOfSuffix(file, offset);
    var pos := 0;
    if nl > n {
      pos := SkipNewlines(buf, nl - n);
    } else if truncated {
      var i := IndexNewline(buf);
      if i >= 0 {
        pos := i + 1;
      }
    }
    data, start := buf[pos..], offset + pos;
    NewlinesShift(file, offset, |file|, 0, pos);
    assert file[offset..|file|] == buf;
    NewlinesConcat(file, offset, start, |file|);
    assert pos > 0 ==> file[start - 1] == buf[pos - 1];
  }

  /** `off` is where the last `n` lines start, or the file has no more than `n`. */
  predicate IsTailStart(file: seq<byte>, off: nat, n: nat)
    requires off <= |file|
  {
    LineStart(file, off) && (LineCount(file, off, |file|) == n || (off == 0 && LineCount(file, 0, |file|) < n))
  }

  /**
   * The end of the file within `maxBytes`: its last `n` lines unless it is capped, and then from the first line start
   * behind the cap on, or `maxBytes` of its last line.
   */
  ghost predicate IsTailWindow(w: Window, file: seq<byte>, n: nat, maxBytes: int) {
    && w.offset <= |file| && w.data == file[w.offset..] && |w.data| <= Max(maxBytes, 0)
    && (LinesOf(w.data) == LastN(LinesOf(file), |LinesOf(w.data)|) || !LineStart(file, w.offset))
    && |LinesOf(w.data)| <= n && (!w.capped <==> LinesOf(w.data) == LastN(LinesOf(file), n))
    && (w.capped && maxBytes > 0 ==>
          || (|file| >= maxBytes && FirstBehind(file, |file| - maxBytes, w.offset))
          || (NL !in w.data && |w.data| == maxBytes))
  }

  /** The last `n` lines, at most `maxBytes` of them, for every block size. */
  method ReadTailWindow(file: seq<byte>, n: nat, maxBytes: int, blockSize: nat) returns (w: Window)
    requires n > 0 && blockSize > 0
    ensures IsTailWindow(w, file, n, maxBytes)
  {
    hide LinesIn, Newlines, FirstBehind, IsTailWindow;
    var data, off, capped := ReadTailBytes(file, n, maxBytes, blockSize);
    NewlinesOfSuffix(file, off);
    var lines := WindowLines(data);
    while lines > n
      invariant 0 <= off <= |file| && data == file[off..] && |data| <= Max(maxBytes, 0)
      invariant lines == LineCount(file, off, |file|) <= n + 1
      invariant lines > n ==> LineStart(file, off) || NL !in data
      invariant lines == n + 1 || LineStart(file, off) || (capped && NL !in data)
      invariant capped || off == 0 || lines >= n
      invariant capped ==> off > 0
      invariant capped && maxBytes > 0 ==>
                  || (lines >= n && LineStart(file, off))
                  || (|file| >= maxBytes && FirstBehind(file, |file| - maxBytes, off))
                  || (NL !in data && |data| == maxBytes)
      decreases lines
    {
      var i := IndexNewline(data);
      DropFirst(file, off, data, i);
      data, off := data[i + 1..], off + i + 1;
      NewlinesOfSuffix(file, off);
      lines := WindowLines(data);
    }
    capped := capped && (lines < n || !(off == 0 || file[off - 1] == NL));
    w := Window(data, off, capped);
    TailDone(w, file, n, maxBytes);
  }

  lemma TailDone(w: Window, file: seq<byte>, n: nat, maxBytes: int)
    requires n > 0 && w.offset <= |file| && w.data == file[w.offset..] && |w.data| <= Max(maxBytes, 0)
    requires LineCount(file, w.offset, |file|) <= n
    requires w.capped ==> 0 < w.offset && if LineStart(file, w.offset) then LineCount(file, w.offset, |file|) < n
                                          else NL !in w.data
    requires w.capped && maxBytes > 0 ==>
               || (|file| >= maxBytes && FirstBehind(file, |file| - maxBytes, w.offset))
               || (NL !in w.data && |w.data| == maxBytes)
    requires !w.capped ==> IsTailStart(file, w.offset, n)
    ensures IsTailWindow(w, file, n, maxBytes)
  {
    hide LinesIn, Newlines, FirstBehind;
    TailLines(file, w.offset, n);
    if w.capped {
      CappedMisses(file, w.offset, n);
    }
  }

  /**
   * A capped window that begins at the first line start behind the last `maxBytes` bytes leaves out a line that fits
   * exactly if a line begins with those bytes.
   */
  lemma FittingLineDroppedIff(file: seq<byte>, maxBytes: nat, start: nat)
    requires maxBytes <= |file| && FirstBehind(file, |file| - maxBytes, start)
    ensures LineStart(file, |file| - maxBytes) <==>
              exists q: nat :: q < start && LineStart(file, q) && |file| - q <= maxBytes
  {
    forall q: nat | q < start && LineStart(file, q) && |file| - q <= maxBytes ensures q == |file| - maxBytes {
      if q > |file| - maxBytes {
        assert false;
      }
    }
  }

  /** Of three lines of two bytes each, four bytes have room for two, but only one comes back. */
  lemma FittingLineDropped(w: Window)
    requires IsTailWindow(w, [97, NL, 98, NL, 99, NL], 3, 4)
    ensures w.data == [99, NL]
  {
    var file: seq<byte> := [97, NL, 98, NL, 99, NL];
    NotThreeLines(file, w.data);
    hide LinesIn, LastN;
    assert w.capped;
    assert !FirstBehind(file, 2, 6) && !FirstBehind(file, 2, 5) && !FirstBehind(file, 2, 3) by {
      assert file[3] == NL && file[2] != NL && file[4] != NL;
    }
    assert file[2..][1] == NL && file[4..] == [99, NL];
  }

  lemma NotThreeLines(file: seq<byte>, data: seq<byte>)
    requires file == [97, NL, 98, NL, 99, NL] && |data| <= 4
    ensures LinesOf(data) != LastN(LinesOf(file), 3)
  {
    ThreeLines(file);
    FlattenLines(data, 0, |data|);
    FlattenLines(file, 0, 6);
    assert data[0..|data|] == data && file[0..6] == file;
    hide LinesIn, Flatten;
    assert LinesOf(file) == LastN(LinesOf(file), 3);
  }

  lemma ThreeLines(file: seq<byte>)
    requires file == [97, NL, 98, NL, 99, NL]
    ensures |LinesOf(file)| == 3
  {
    EolAt(file, 0, 2, 6);
    EolAt(file, 2, 4, 6);
    EolAt(file, 4, 6, 6);
    assert LinesIn(file, 6, 6) == [] && |LinesIn(file, 4, 6)| == 1 && |LinesIn(file, 2, 6)| == 2;
  }

  /** More than one line: there is a newline, and the first line ends there. */
  lemma DropFirst(file: seq<byte>, off: nat, data: seq<byte>, i: int)
    requires off <= |file| && data == file[off..] && LineCount(file, off, |file|) > 1
    requires if i < 0 then NL !in data else i < |data| && data[i] == NL && NL !in data[..i]
    ensures 0 <= i && off + i + 1 <= |file| && file[off + i] == NL
    ensures data[i + 1..] == file[off + i + 1..]
    ensures LineCount(file, off + i + 1, |file|) == LineCount(file, off, |file|) - 1
  {
    var size := |file|;
    if i < 0 {
      forall k | off <= k < size ensures file[k] != NL {
        assert data[k - off] == file[k];
      }
      NewlinesOfLine(file, off, size);
      assert false;
    }
    forall k | off <= k < off + i ensures file[k] != NL {
      assert data[..i][k - off] == file[k];
    }
    EolAt(file, off, off + i + 1, size);
    CountDrop(file, off, size);
  }

  /** A line start with `k` lines behind it starts the last `k` lines. */
  lemma TailLines(file: seq<byte>, off: nat, n: nat)
    requires off <= |file|
    ensures LinesOf(file[off..]) == LinesIn(file, off, |file|)
    ensures |LinesOf(file[off..])| == LineCount(file, off, |file|)
    ensures LineStart(file, off) ==> LinesOf(file[off..]) == LastN(LinesOf(file), LineCount(file, off, |file|))
    ensures IsTailStart(file, off, n) ==> LinesOf(file[off..]) == LastN(LinesOf(file), n)
  {
    hide LinesIn, Newlines;
    LinesOfSlice(file, off, |file|);
    assert file[off..|file|] == file[off..];
    CountIsLines(file, off, |file|);
    if LineStart(file, off) {
      LinesConcat(file, 0, off, |file|);
    }
  }

  /** A cut window misses part of the last `n` lines: whole lines, or the head of its only line. */
  lemma CappedMisses(file: seq<byte>, off: nat, n: nat)
    requires 0 < off <= |file| && n > 0
    requires if LineStart(file, off) then LineCount(file, off, |file|) < n else NL !in file[off..]
    ensures LinesOf(file[off..]) != LastN(LinesOf(file), n)
  {
    hide LinesIn, Newlines;
    TailLines(file, off, n);
    if LineStart(file, off) {
      LinesConcat(file, 0, off, |file|);
      NonEmptyLines(file, 0, off);
    } else {
      LastLine(file, off);
      TailLines(file, off, n);
    }
  }

  lemma NonEmptyLines(s: seq<byte>, i: nat, j: nat)
    requires i < j <= |s|
    ensures LinesIn(s, i, j) != []
  {
  }

  /** Without a newline behind `off`, the last line of the file is longer than what follows `off`. */
  lemma LastLine(file: seq<byte>, off: nat)
    requires 0 < off <= |file| && !LineStart(file, off) && NL !in file[off..]
    ensures var ls := LinesOf(file); ls != [] && |ls[|ls| - 1]| > |file| - off
    ensures |LinesOf(file[off..])| <= 1 && forall l :: l in LinesOf(file[off..]) ==> |l| == |file| - off
  {
    var p, size := LastIndex(file, off, NL) + 1, |file|;
    forall k | p <= k < size ensures file[k] != NL {
      if k >= off {
        assert file[off..][k - off] == file[k];
      }
    }
    EolAt(file, p, size, size);
    LinesConcat(file, 0, p, size);
    if off < size {
      EolAt(file, off, size, size);
    }
    LinesOfSlice(file, off, size);
    assert file[off..size] == file[off..];
  }
}
