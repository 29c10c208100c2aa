/** The whole preview diff: trimming, the changed middle, hunks, and rendering under a byte cap. */
module UnifiedDiff {
  import opened Basics
  import opened Lcs
  import opened EditScript
  import opened Patch
  import opened Hunks
  import opened DiffText

  const NOTE := "(only line endings or the final newline differ)\n"

  // ----- trimming -----

  /** `a` and `b` share their first `p` and their last `q` lines, without overlap. */
  predicate Trimmed(a: seq<string>, b: seq<string>, p: nat, q: nat) {
    && p + q <= |a| && p + q <= |b|
    && a[..p] == b[..p] && a[|a| - q..] == b[|b| - q..]
  }

  /** The longest common prefix, given that the first `p` lines agree. */
  function PrefixFrom(a: seq<string>, b: seq<string>, p: nat): (r: nat)
    requires Trimmed(a, b, p, 0)
    ensures Trimmed(a, b, r, 0)
    decreases |a| - p
  {
    if p < |a| && p < |b| && a[p] == b[p] then
      TakeSnoc(a, p); TakeSnoc(b, p);
      PrefixFrom(a, b, p + 1)
    else p
  }

  /** The longest common suffix outside the first `p` lines, given that the last `q` lines agree. */
  function SuffixFrom(a: seq<string>, b: seq<string>, p: nat, q: nat): (r: nat)
    requires Trimmed(a, b, p, q)
    ensures Trimmed(a, b, p, r)
    decreases |a| - q
  {
    if q < |a| - p && q < |b| - p && a[|a| - 1 - q] == b[|b| - 1 - q] then
      DropCons(a, |a| - 1 - q); DropCons(b, |b| - 1 - q);
      SuffixFrom(a, b, p, q + 1)
    else q
  }

  /** The size of the table for the changed middle. */
  function MiddleCells(a: seq<string>, b: seq<string>): int {
    var p := PrefixFrom(a, b, 0);
    var q := SuffixFrom(a, b, p, 0);
    Cells(|a| - p - q, |b| - p - q)
  }

  method CommonEnds(a: seq<string>, b: seq<string>) returns (p: nat, q: nat)
    ensures Trimmed(a, b, p, q)
    ensures p == PrefixFrom(a, b, 0) && q == SuffixFrom(a, b, p, 0)
  {
    p := 0;
    while p < |a| && p < |b| && a[p] == b[p]
      invariant Trimmed(a, b, p, 0) && PrefixFrom(a, b, 0) == PrefixFrom(a, b, p)
    {
      TakeSnoc(a, p);
      TakeSnoc(b, p);
      p := p + 1;
    }
    q := 0;
    while q < |a| - p && q < |b| - p && a[|a| - 1 - q] == b[|b| - 1 - q]
      invariant Trimmed(a, b, p, q) && SuffixFrom(a, b, p, 0) == SuffixFrom(a, b, p, q)
    {
      DropCons(a, |a| - 1 - q);
      DropCons(b, |b| - 1 - q);
      q := q + 1;
    }
  }

  // ----- the script -----

  lemma PathConcat(x: seq<Op>, y: seq<Op>, a: seq<string>, b: seq<string>, i: nat, j: nat, i1: nat, j1: nat, i2: nat,
                   j2: nat)
    requires IsPath(x, a, b, 0, 0, i, j, i1, j1) && IsPath(y, a, b, 0, 0, i1, j1, i2, j2)
    ensures IsPath(x + y, a, b, 0, 0, i, j, i2, j2)
  {
    var z := x + y;
    forall k, l | 0 <= k < |z| && l == k + 1 < |z|
      ensures z[l].oldIdx == NextOld(z[k]) && z[l].newIdx == NextNew(z[k])
    {
      if l < |x| {
        assert z[k] == x[k] && z[l] == x[l];
      } else if k >= |x| {
        assert z[k] == y[k - |x|] && z[l] == y[l - |x|];
      } else {
        assert z[k] == x[|x| - 1] && z[l] == y[0];
      }
    }
    if y != [] {
      assert z[|z| - 1] == y[|y| - 1];
    }
    if x != [] {
      assert z[0] == x[0];
    }
  }

  /** A script of slices is a path of the whole lists. */
  lemma LiftPath(ops: seq<Op>, a: seq<string>, b: seq<string>, p: nat, n: nat, m: nat)
    requires p <= n <= |a| && p <= m <= |b| && IsScript(ops, a[p..n], b[p..m], p, p)
    ensures IsPath(ops, a, b, 0, 0, p, p, n, m)
  {
    forall k | 0 <= k < |ops| ensures IsEdge(ops[k], a, b, 0, 0) {
      assert IsEdge(ops[k], a[p..n], b[p..m], p, p);
    }
  }

  method ContextOps(a: seq<string>, b: seq<string>, i: nat, j: nat, n: nat) returns (ops: seq<Op>)
    requires i + n <= |a| && j + n <= |b| && a[i..i + n] == b[j..j + n]
    ensures IsPath(ops, a, b, 0, 0, i, j, i + n, j + n)
    ensures Count(ops, Same) == n && forall k :: 0 <= k < |ops| ==> ops[k].kind == Same
  {
    ops := [];
    for k := 0 to n
      invariant IsPath(ops, a, b, 0, 0, i, j, i + k, j + k) && forall k :: 0 <= k < |ops| ==> ops[k].kind == Same
      invariant Count(ops, Same) == k
    {
      var op := Op(Same, a[i + k], i + k, j + k);
      assert a[i..i + n][k] == b[j..j + n][k];
      PathSnoc(ops, a, b, 0, 0, i, j, op);
      CountSnoc(ops, op, Same);
      ops := ops + [op];
    }
  }

  /** `ops` covers everything but the common ends, with up to `CONTEXT` lines of each end. */
  predicate Covers(ops: seq<Op>, a: seq<string>, b: seq<string>, p: nat, q: nat) {
    && Trimmed(a, b, p, q)
    && var c, d := Min(p, CONTEXT), Min(q, CONTEXT);
       IsPath(ops, a, b, 0, 0, p - c, p - c, |a| - q + d, |b| - q + d)
  }

  /** The script keeps as many lines as any script could. */
  predicate KeepsMost(ops: seq<Op>, a: seq<string>, b: seq<string>, p: nat, q: nat) {
    Count(ops, Same) == Min(p, CONTEXT) + (LcsLen(a, b) - p - q) + Min(q, CONTEXT)
  }

  method BuildScript(a: seq<string>, b: seq<string>, p: nat, q: nat) returns (ops: seq<Op>)
    requires Trimmed(a, b, p, q)
    ensures Covers(ops, a, b, p, q) && DeletionsFirst(ops)
    ensures Cells(|a| - p - q, |b| - p - q) <= MAX_DIFF_CELLS ==> KeepsMost(ops, a, b, p, q)
  {
    var x, y := a[p..|a| - q], b[p..|b| - q];
    var middle := DiffMiddle(x, y, p, p);
    ops := Surround(a, b, p, q, middle);
    TrimmedLcs(a, b, p, q, x, y, Count(middle, Same));
  }

  /** Adds the context lines before and after the changed middle. */
  method Surround(a: seq<string>, b: seq<string>, p: nat, q: nat, middle: seq<Op>) returns (ops: seq<Op>)
    requires Trimmed(a, b, p, q) && IsScript(middle, a[p..|a| - q], b[p..|b| - q], p, p) && DeletionsFirst(middle)
    ensures Covers(ops, a, b, p, q) && DeletionsFirst(ops)
    ensures Count(ops, Same) == Min(p, CONTEXT) + Count(middle, Same) + Min(q, CONTEXT)
  {
    hide IsPath, IsScript, Count;
    var c, d := Min(p, CONTEXT), Min(q, CONTEXT);
    TrimmedContext(a, b, p, q, c, d);
    LiftPath(middle, a, b, p, |a| - q, |b| - q);
    var before := ContextOps(a, b, p - c, p - c, c);
    PathConcat(before, middle, a, b, p - c, p - c, p, p, |a| - q, |b| - q);
    CountConcat(before, middle, Same);
    ops := before + middle;
    var after := ContextOps(a, b, |a| - q, |b| - q, d);
    PathConcat(ops, after, a, b, p - c, p - c, |a| - q, |b| - q, |a| - q + d, |b| - q + d);
    CountConcat(ops, after, Same);
    ops := ops + after;
  }

  /** The context lines next to the middle agree, and so does everything beyond them. */
  lemma TrimmedContext(a: seq<string>, b: seq<string>, p: nat, q: nat, c: nat, d: nat)
    requires Trimmed(a, b, p, q) && c <= p && d <= q
    ensures a[p - c..p] == b[p - c..p] && a[|a| - q..|a| - q + d] == b[|b| - q..|b| - q + d]
    ensures a[..p - c] == b[..p - c] && a[|a| - q + d..] == b[|b| - q + d..]
  {
    HeadsAgree(a, b, p, c);
    TailsAgree(a, b, |a| - q, |b| - q, d);
  }

  lemma HeadsAgree(a: seq<string>, b: seq<string>, p: nat, c: nat)
    requires c <= p <= |a| && p <= |b| && a[..p] == b[..p]
    ensures a[p - c..p] == b[p - c..p] && a[..p - c] == b[..p - c]
  {
    SliceOfSlice(a, 0, p, p - c, p);
    SliceOfSlice(b, 0, p, p - c, p);
    SliceOfSlice(a, 0, p, 0, p - c);
    SliceOfSlice(b, 0, p, 0, p - c);
  }

  lemma TailsAgree(a: seq<string>, b: seq<string>, i: nat, j: nat, d: nat)
    requires i + d <= |a| && j + d <= |b| && a[i..] == b[j..]
    ensures a[i..i + d] == b[j..j + d] && a[i + d..] == b[j + d..]
  {
    SliceOfSlice(a, i, |a|, 0, d);
    SliceOfSlice(b, j, |b|, 0, d);
    DropDrop(a, i, d);
    DropDrop(b, j, d);
  }

  lemma TrimmedLcs(a: seq<string>, b: seq<string>, p: nat, q: nat, x: seq<string>, y: seq<string>, n: nat)
    requires Trimmed(a, b, p, q) && x == a[p..|a| - q] && y == b[p..|b| - q]
    ensures |x| == |a| - p - q && |y| == |b| - p - q
    ensures IsLcsLength(n, x, y) ==> LcsLen(a, b) == p + n + q
  {
    var u, v := a[..p], a[|a| - q..];
    assert a == u + x + v && b == u + y + v;
    LcsTrim(u, x, y, v);
    LcsLenIsLcs(x, y, n);
  }

  method CountChanges(ops: seq<Op>) returns (added: nat, removed: nat)
    ensures added == Count(ops, Ins) && removed == Count(ops, Del)
  {
    added, removed := 0, 0;
    for k := 0 to |ops|
      invariant added == CountTo(ops, k, Ins) && removed == CountTo(ops, k, Del)
    {
      match ops[k].kind
      case Ins => added := added + 1;
      case Del => removed := removed + 1;
      case Same =>
    }
  }

  // ----- rendering under the cap -----

  method FindRange(ops: seq<Op>, start: nat) returns (found: bool, r: Range)
    requires start <= |ops|
    ensures found <==> FirstChange(ops, start) < |ops|
    ensures found ==> r == NextRange(ops, start)
  {
    var first := start;
    while first < |ops| && ops[first].kind == Same
      invariant start <= first <= |ops| && FirstChange(ops, start) == FirstChange(ops, first)
    {
      first := first + 1;
    }
    if first == |ops| {
      return false, Range(0, 0);
    }
    var last := FindLast(ops, first);
    return true, Range(Max(start, first - CONTEXT), Min(|ops|, last + CONTEXT + 1));
  }

  method FindLast(ops: seq<Op>, first: nat) returns (last: nat)
    requires Changed(ops, first)
    ensures last == LastChange(ops, first, first + 1)
  {
    last := first;
    var i := first + 1;
    ghost var goal := LastChange(ops, first, i);
    while i < |ops|
      invariant last < i <= |ops| && Changed(ops, last) && AllSame(ops, last + 1, i)
      invariant goal == LastChange(ops, last, i)
    {
      if ops[i].kind != Same {
        if i - last - 1 > 2 * CONTEXT {
          break;
        }
        last := i;
      }
      i := i + 1;
    }
  }

  method HunkHeader(ops: seq<Op>, r: Range) returns (header: string)
    requires r.lo < r.end <= |ops|
    ensures header == HeaderThen(HunkOf(ops, r), "")
  {
    var body := ops[r.lo..r.end];
    var oldCount, newCount := 0, 0;
    for k := 0 to |body|
      invariant oldCount == CountTo(body, k, Same) + CountTo(body, k, Del)
      invariant newCount == CountTo(body, k, Same) + CountTo(body, k, Ins)
    {
      if body[k].kind != Ins {
        oldCount := oldCount + 1;
      }
      if body[k].kind != Del {
        newCount := newCount + 1;
      }
    }
    var oldStart, newStart := ops[r.lo].oldIdx + 1, ops[r.lo].newIdx + 1;
    if oldCount == 0 {
      oldStart := oldStart - 1;
    }
    if newCount == 0 {
      newStart := newStart - 1;
    }
    header := HeaderThen(Hunk(oldStart, oldCount, newStart, newCount, []), "");
  }

  /** The text of the first `k` lines of `ls`. */
  function ConcatTo(ls: seq<string>, k: nat): string
    requires k <= |ls|
  {
    if k == 0 then "" else ConcatTo(ls, k - 1) + ls[k - 1]
  }

  /**
   * `out` is `text` and the first `k` of the lines `ls`, all that fit; it is truncated when the next one would pass
   * the cap.
   */
  ghost predicate Wrote(text: string, ls: seq<string>, maxBytes: int, out: string, truncated: bool, k: nat) {
    && k <= |ls| && out == text + ConcatTo(ls, k)
    && (truncated <==> k < |ls|)
    && (truncated ==> |out| + |ls[k]| > maxBytes)
    && (k > 0 ==> |out| <= maxBytes)
  }

  /** Writes the lines of one hunk after `text`, stopping before the first that would pass `maxBytes`. */
  method WriteHunk(ops: seq<Op>, r: Range, text: string, maxBytes: int)
    returns (out: string, truncated: bool, ghost k: nat)
    requires r.lo < r.end <= |ops|
    ensures Wrote(text, HunkLines(HunkOf(ops, r)), maxBytes, out, truncated, k)
  {
    ghost var ls := HunkLines(HunkOf(ops, r));
    var header := HunkHeader(ops, r);
    out, truncated, k := text, false, 0;
    assert text + ConcatTo(ls, 0) == text;
    if |out| + |header| > maxBytes {
      return out, true, 0;
    }
    WriteLine(text, ls, 0);
    out, k := out + header, 1;
    var i := r.lo;
    while i < r.end
      invariant r.lo <= i <= r.end && k == 1 + i - r.lo
      invariant out == text + ConcatTo(ls, k) && |out| <= maxBytes
    {
      var line := LineText(Line(ops[i].kind, ops[i].text));
      HunkLineAt(ops, r, i);
      if |out| + |line| > maxBytes {
        return out, true, k;
      }
      WriteLine(text, ls, k);
      out, i, k := out + line, i + 1, k + 1;
    }
  }

  lemma HunkLineAt(ops: seq<Op>, r: Range, i: nat)
    requires r.lo <= i < r.end <= |ops|
    ensures HunkLines(HunkOf(ops, r))[1 + i - r.lo] == LineText(Line(ops[i].kind, ops[i].text))
  {
  }

  lemma WriteLine(text: string, ls: seq<string>, k: nat)
    requires k < |ls|
    ensures text + ConcatTo(ls, k + 1) == (text + ConcatTo(ls, k)) + ls[k]
  {
    Reassoc(text, ConcatTo(ls, k), ls[k]);
  }

  lemma {:induction false} ConcatToPrefix(x: seq<string>, y: seq<string>, k: nat)
    requires k <= |x|
    ensures ConcatTo(x + y, k) == ConcatTo(x, k)
  {
    if k > 0 {
      ConcatToPrefix(x, y, k - 1);
    }
  }

  lemma {:induction false} ConcatToAfter(x: seq<string>, y: seq<string>, k: nat)
    requires k <= |y|
    ensures ConcatTo(x + y, |x| + k) == ConcatTo(x, |x|) + ConcatTo(y, k)
  {
    if k == 0 {
      ConcatToPrefix(x, y, |x|);
    } else {
      ConcatToAfter(x, y, k - 1);
      Reassoc(ConcatTo(x, |x|), ConcatTo(y, k - 1), y[k - 1]);
    }
  }

  lemma {:induction false} ConcatToAll(ls: seq<string>)
    ensures ConcatTo(ls, |ls|) == Concat(ls)
  {
    if ls != [] {
      ConcatToAfter([ls[0]], ls[1..], |ls| - 1);
      assert [ls[0]] + ls[1..] == ls;
      assert ConcatTo([ls[0]], 1) == ls[0];
      ConcatToAll(ls[1..]);
    }
  }

  lemma {:induction false} ConcatToGrows(ls: seq<string>, k: nat, n: nat)
    requires k <= n <= |ls|
    ensures |ConcatTo(ls, k)| <= |ConcatTo(ls, n)|
  {
    if k < n {
      ConcatToGrows(ls, k, n - 1);
    }
  }

  /** `text` is a run of whole lines from the front of `ls`, the longest that fits `maxBytes`. */
  ghost predicate IsCapped(text: string, ls: seq<string>, maxBytes: int, truncated: bool, k: nat) {
    && k <= |ls| && text == ConcatTo(ls, k)
    && (k > 0 ==> |text| <= maxBytes)
    && (truncated <==> k < |ls|)
    && (truncated ==> |text| + |ls[k]| > maxBytes)
  }

  lemma CappedStep(before: string, x: seq<string>, y: seq<string>, maxBytes: int, k: nat, text: string,
                   truncated: bool, n: nat)
    requires IsCapped(before, x, maxBytes, false, k) && Wrote(before, y, maxBytes, text, truncated, n)
    ensures IsCapped(text, x + y, maxBytes, truncated, k + n)
  {
    hide ConcatTo;
    ConcatToAfter(x, y, n);
    if n == 0 {
      ConcatToNone(before, y);
    }
    hide IsCapped;
    CappedAt(text, x, y, maxBytes, n, truncated);
  }

  lemma ConcatToNone(before: string, y: seq<string>)
    ensures before + ConcatTo(y, 0) == before
  {
  }

  lemma CappedAt(text: string, x: seq<string>, y: seq<string>, maxBytes: int, n: nat, truncated: bool)
    requires n <= |y| && text == ConcatTo(x + y, |x| + n) && (truncated <==> n < |y|)
    requires (|x| + n > 0 ==> |text| <= maxBytes) && (truncated ==> |text| + |y[n]| > maxBytes)
    ensures IsCapped(text, x + y, maxBytes, truncated, |x| + n)
  {
    hide ConcatTo;
    assert truncated ==> (x + y)[|x| + n] == y[n];
  }

  /** A truncated text stays the same when more lines would follow. */
  lemma CappedMore(text: string, x: seq<string>, y: seq<string>, maxBytes: int, k: nat)
    requires IsCapped(text, x, maxBytes, true, k)
    ensures IsCapped(text, x + y, maxBytes, true, k)
  {
    ConcatToPrefix(x, y, k);
  }

  /** The patch lines of the script from line `start` on. */
  function LinesFrom(ops: seq<Op>, start: nat): seq<string>
    requires start <= |ops|
  {
    PatchLines(HunksFrom(ops, start))
  }

  lemma LinesFromStep(ops: seq<Op>, start: nat)
    requires start <= |ops|
    ensures FirstChange(ops, start) == |ops| ==> LinesFrom(ops, start) == []
    ensures FirstChange(ops, start) < |ops| ==>
              var r := NextRange(ops, start); LinesFrom(ops, start) == HunkLines(HunkOf(ops, r)) + LinesFrom(ops, r.end)
  {
    if FirstChange(ops, start) < |ops| {
      var r := NextRange(ops, start);
      assert HunksFrom(ops, start)[1..] == HunksFrom(ops, r.end);
    }
  }

  /** What is written so far, and what is still to come, of the patch `full`. */
  ghost predicate Rendering(ops: seq<Op>, full: seq<string>, start: nat, done: seq<string>,
                            text: string, maxBytes: int, truncated: bool, k: nat) {
    && start <= |ops|
    && full == done + LinesFrom(ops, start)
    && IsCapped(text, done, maxBytes, truncated, k)
  }

  /** Finds and writes the next hunk. */
  method WriteNext(ops: seq<Op>, start: nat, text: string, maxBytes: int, ghost full: seq<string>,
                   ghost done: seq<string>, ghost k: nat)
    returns (found: bool, next: nat, out: string, truncated: bool, ghost done': seq<string>, ghost k': nat)
    requires Rendering(ops, full, start, done, text, maxBytes, false, k)
    ensures Rendering(ops, full, next, done', out, maxBytes, truncated, k')
    ensures if found then start < next else next == start && !truncated && LinesFrom(ops, start) == []
  {
    var r;
    RenderingStart(ops, full, start, done, text, maxBytes, k);
    hide Rendering, LinesFrom, ConcatTo, HunkLines, HunkOf, NextRange, FirstChange, Wrote;
    found, r := FindRange(ops, start);
    if !found {
      LinesFromStep(ops, start);
      return false, start, text, false, done, k;
    }
    ghost var n, ls := 0, HunkLines(HunkOf(ops, r));
    out, truncated, n := WriteHunk(ops, r, text, maxBytes);
    RenderingStep(ops, full, start, done, text, maxBytes, k, ls, out, truncated, n);
    next, done', k' := r.end, done + ls, k + n;
  }

  lemma RenderingStart(ops: seq<Op>, full: seq<string>, start: nat, done: seq<string>, text: string, maxBytes: int,
                       k: nat)
    requires Rendering(ops, full, start, done, text, maxBytes, false, k)
    ensures start <= |ops|
  {
  }

  lemma RenderingStep(ops: seq<Op>, full: seq<string>, start: nat, done: seq<string>, text: string, maxBytes: int,
                      k: nat, y: seq<string>, out: string, truncated: bool, n: nat)
    requires Rendering(ops, full, start, done, text, maxBytes, false, k)
    requires FirstChange(ops, start) < |ops| && y == HunkLines(HunkOf(ops, NextRange(ops, start)))
    requires Wrote(text, y, maxBytes, out, truncated, n)
    ensures Rendering(ops, full, NextRange(ops, start).end, done + y, out, maxBytes, truncated, k + n)
  {
    var rest := LinesFrom(ops, NextRange(ops, start).end);
    LinesFromStep(ops, start);
    CappedStep(text, done, y, maxBytes, k, out, truncated, n);
    Reassoc(done, y, rest);
  }

  method RenderCapped(ops: seq<Op>, maxBytes: int) returns (text: string, truncated: bool, ghost k: nat)
    ensures IsCapped(text, LinesFrom(ops, 0), maxBytes, truncated, k)
  {
    text, truncated, k := "", false, 0;
    var start, found := 0, true;
    ghost var full, done: seq<string> := LinesFrom(ops, 0), [];
    assert [] + full == full;
    while start < |ops| && found && !truncated
      invariant Rendering(ops, full, start, done, text, maxBytes, truncated, k)
      invariant !found ==> LinesFrom(ops, start) == []
      decreases |ops| - start, found
    {
      found, start, text, truncated, done, k := WriteNext(ops, start, text, maxBytes, full, done, k);
    }
    RenderingEnds(ops, full, start, done, text, maxBytes, truncated, k);
  }

  lemma RenderingEnds(ops: seq<Op>, full: seq<string>, start: nat, done: seq<string>,
                      text: string, maxBytes: int, truncated: bool, k: nat)
    requires Rendering(ops, full, start, done, text, maxBytes, truncated, k)
    requires truncated || start == |ops| || LinesFrom(ops, start) == []
    ensures IsCapped(text, full, maxBytes, truncated, k)
  {
    LinesFromStep(ops, start);
    if truncated {
      CappedMore(text, done, LinesFrom(ops, start), maxBytes, k);
    } else {
      assert done + [] == done;
    }
  }

  /** What the cap means for the whole text. */
  lemma CappedWhole(text: string, hs: seq<Hunk>, maxBytes: int, truncated: bool, k: nat)
    requires IsCapped(text, PatchLines(hs), maxBytes, truncated, k)
    ensures !truncated ==> text == PatchText(hs)
    ensures hs != [] ==> (truncated <==> |PatchText(hs)| > maxBytes)
  {
    var ls := PatchLines(hs);
    ConcatToAll(ls);
    if k < |ls| {
      ConcatToGrows(ls, k + 1, |ls|);
    }
  }

  // ----- the whole diff -----

  /** The counts are the true edit distance whenever the table was used, and always consistent. */
  ghost predicate CountsOk(a: seq<string>, b: seq<string>, added: nat, removed: nat) {
    && added <= |b| && removed <= |a| && added - removed == |b| - |a|
    && (added == removed == 0 <==> a == b)
    && (MiddleCells(a, b) <= MAX_DIFF_CELLS ==> IsLcsLength(|b| - added, a, b) && IsLcsLength(|a| - removed, a, b))
  }

  /** `hunks` is a patch from `a` to `b` that survives printing, and `text` is as much of it as the cap allows. */
  ghost predicate PatchOk(a: seq<string>, b: seq<string>, hunks: seq<Hunk>, text: string, maxBytes: int,
                          truncated: bool, lines: nat) {
    && Apply(hunks, a) == Some(b)
    && ParsePatch(PatchText(hunks)) == Some(hunks)
    && IsCapped(text, PatchLines(hunks), maxBytes, truncated, lines)
    && (truncated <==> |PatchText(hunks)| > maxBytes)
    && (!truncated ==> text == PatchText(hunks))
  }

  /** `text` is cut from the hunks of one script from `a` to `b`, the script whose changes are counted. */
  ghost predicate IsPatch(a: seq<string>, b: seq<string>, text: string, maxBytes: int, truncated: bool, added: nat,
                          removed: nat) {
    exists ops, lines, p, q ::
      && PatchOk(a, b, HunksFrom(ops, 0), text, maxBytes, truncated, lines)
      && Covers(ops, a, b, p, q) && DeletionsFirst(ops) && Count(ops, Ins) == added && Count(ops, Del) == removed
  }

  /** The whole function: the patch text, whether it was cut, and the counts of changed lines. */
  method UnifiedDiff(oldText: string, newText: string, maxBytes: int)
    returns (text: string, added: nat, removed: nat, truncated: bool)
    ensures CountsOk(DiffLines(oldText), DiffLines(newText), added, removed)
    ensures Normalize(oldText) == Normalize(newText) ==> !truncated && text == if oldText == newText then "" else NOTE
    ensures Normalize(oldText) != Normalize(newText) ==>
              IsPatch(DiffLines(oldText), DiffLines(newText), text, maxBytes, truncated, added, removed)
    ensures Normalize(oldText) != Normalize(newText) && !truncated ==>
              ParsePatch(text).Some? && Apply(ParsePatch(text).value, DiffLines(oldText)) == Some(DiffLines(newText))
  {
    var a := SplitDiffLines(oldText);
    var b := SplitDiffLines(newText);
    var p, q := CommonEnds(a, b);
    var script := BuildScript(a, b, p, q);
    added, removed := CountChanges(script);
    ScriptCounts(script, a, b, p, q);
    SameLinesIff(oldText, newText);
    if added == 0 && removed == 0 {
      if oldText != newText {
        return NOTE, 0, 0, false;
      }
      return "", 0, 0, false;
    }
    ghost var lines;
    text, truncated, lines := RenderCapped(script, maxBytes);
    ScriptPatches(script, a, b, p, q, text, maxBytes, truncated, lines);
  }

  /** The counts of the script in terms of the whole lists. */
  lemma ScriptCounts(ops: seq<Op>, a: seq<string>, b: seq<string>, p: nat, q: nat)
    requires Covers(ops, a, b, p, q) && p == PrefixFrom(a, b, 0) && q == SuffixFrom(a, b, p, 0)
    requires Cells(|a| - p - q, |b| - p - q) <= MAX_DIFF_CELLS ==> KeepsMost(ops, a, b, p, q)
    ensures CountsOk(a, b, Count(ops, Ins), Count(ops, Del))
  {
    hide Count, LcsLen, Covers;
    CoveredCounts(ops, a, b, p, q);
    EqualCounts(ops, a, b, p, q);
    if MiddleCells(a, b) <= MAX_DIFF_CELLS {
      LcsLenIsLcs(a, b, |b| - Count(ops, Ins));
    }
  }

  lemma EqualCounts(ops: seq<Op>, a: seq<string>, b: seq<string>, p: nat, q: nat)
    requires Covers(ops, a, b, p, q) && p == PrefixFrom(a, b, 0)
    requires Cells(|a| - p - q, |b| - p - q) <= MAX_DIFF_CELLS ==> KeepsMost(ops, a, b, p, q)
    ensures Count(ops, Ins) == Count(ops, Del) == 0 <==> a == b
  {
    hide Count, Covers, PrefixFrom, Cells, KeepsMost;
    if Count(ops, Ins) == Count(ops, Del) == 0 {
      NoChangesEqual(ops, a, b, p, q);
    }
    if a == b {
      CoversBounds(ops, a, b, p, q);
      PrefixOfEqual(a, 0);
      NoCells(|a| - p - q, |a| - p - q);
      EqualNoChanges(ops, a, p, q);
    }
  }

  lemma NoCells(n: nat, m: nat)
    ensures n == m == 0 ==> Cells(n, m) <= MAX_DIFF_CELLS
  {
  }

  lemma EqualNoChanges(ops: seq<Op>, a: seq<string>, p: nat, q: nat)
    requires Covers(ops, a, a, p, q) && KeepsMost(ops, a, a, p, q)
    ensures Count(ops, Ins) == Count(ops, Del) == 0
  {
    CoveredCounts(ops, a, a, p, q);
    hide Count, LcsLen, Covers;
    LcsOfEqual(a);
  }

  lemma CoversBounds(ops: seq<Op>, a: seq<string>, b: seq<string>, p: nat, q: nat)
    requires Covers(ops, a, b, p, q)
    ensures p + q <= |a| && p + q <= |b|
  {
  }

  lemma LcsOfEqual(a: seq<string>)
    ensures LcsLen(a, a) == |a|
  {
    LcsTrimPrefix(a, [], []);
    assert a + [] == a;
  }

  lemma CoveredCounts(ops: seq<Op>, a: seq<string>, b: seq<string>, p: nat, q: nat)
    requires Covers(ops, a, b, p, q)
    ensures Count(ops, Ins) <= |b| && Count(ops, Del) <= |a| && Count(ops, Ins) - Count(ops, Del) == |b| - |a|
    ensures KeepsMost(ops, a, b, p, q) ==>
              Count(ops, Ins) == |b| - LcsLen(a, b) && Count(ops, Del) == |a| - LcsLen(a, b)
  {
    var c, d := Min(p, CONTEXT), Min(q, CONTEXT);
    PathSides(ops, a, b, p - c, p - c, |a| - q + d, |b| - q + d, |ops|);
  }

  lemma NoChangesEqual(ops: seq<Op>, a: seq<string>, b: seq<string>, p: nat, q: nat)
    requires Covers(ops, a, b, p, q) && Count(ops, Ins) == Count(ops, Del) == 0
    ensures a == b
  {
    var c, d := Min(p, CONTEXT), Min(q, CONTEXT);
    PathEqual(ops, a, b, p - c, |a| - q + d, |b| - q + d);
    TrimmedContext(a, b, p, q, c, d);
    Glue3(a, b, p - c, |a| - q + d, |b| - q + d);
  }

  lemma PathEqual(ops: seq<Op>, a: seq<string>, b: seq<string>, i: nat, x: nat, y: nat)
    requires IsPath(ops, a, b, 0, 0, i, i, x, y) && Count(ops, Ins) == Count(ops, Del) == 0 && i <= |a| && i <= |b|
    ensures i <= x <= |a| && i <= y <= |b| && a[i..x] == b[i..y]
  {
    PathSides(ops, a, b, i, i, x, y, |ops|);
    NoChanges(ops, |ops|);
  }

  lemma Glue3<T>(a: seq<T>, b: seq<T>, i: nat, x: nat, y: nat)
    requires i <= x <= |a| && i <= y <= |b|
    requires a[..i] == b[..i] && a[i..x] == b[i..y] && a[x..] == b[y..]
    ensures a == b
  {
    assert a == a[..i] + a[i..x] + a[x..] && b == b[..i] + b[i..y] + b[y..];
  }

  lemma {:induction false} PrefixOfEqual(a: seq<string>, p: nat)
    requires p <= |a|
    ensures PrefixFrom(a, a, p) == |a|
    decreases |a| - p
  {
    if p < |a| {
      PrefixOfEqual(a, p + 1);
    }
  }

  /** The hunks of the script apply, survive printing, and are cut only at line ends. */
  lemma ScriptPatches(ops: seq<Op>, a: seq<string>, b: seq<string>, p: nat, q: nat, text: string, maxBytes: int,
                      truncated: bool, lines: nat)
    requires Covers(ops, a, b, p, q) && (Count(ops, Ins) > 0 || Count(ops, Del) > 0)
    requires forall k :: 0 <= k < |a| ==> '\n' !in a[k]
    requires forall k :: 0 <= k < |b| ==> '\n' !in b[k]
    requires IsCapped(text, LinesFrom(ops, 0), maxBytes, truncated, lines)
    ensures PatchOk(a, b, HunksFrom(ops, 0), text, maxBytes, truncated, lines)
  {
    var hunks := HunksFrom(ops, 0);
    ScriptApplies(ops, a, b, p, q);
    forall k | 0 <= k < |ops| ensures '\n' !in ops[k].text {
      assert IsEdge(ops[k], a, b, 0, 0);
    }
    HunksClean(ops, 0);
    ParsePatchText(hunks);
    NoChanges(ops, |ops|);
    assert hunks != [];
    CappedWhole(text, hunks, maxBytes, truncated, lines);
  }

  lemma ScriptApplies(ops: seq<Op>, a: seq<string>, b: seq<string>, p: nat, q: nat)
    requires Covers(ops, a, b, p, q)
    ensures Apply(HunksFrom(ops, 0), a) == Some(b)
  {
    CoversBounds(ops, a, b, p, q);
    var c, d := Min(p, CONTEXT), Min(q, CONTEXT);
    var i, i', j' := p - c, |a| - q + d, |b| - q + d;
    CoveredEnds(ops, a, b, p, q, i, i', j');
    hide Covers, HunksFrom, ApplyFrom, IsPath;
    HunksApply(ops, a, b, i, i, i', j', 0, 0, 0);
    assert b[0..] == b;
  }

  lemma CoveredEnds(ops: seq<Op>, a: seq<string>, b: seq<string>, p: nat, q: nat, i: nat, i': nat, j': nat)
    requires Covers(ops, a, b, p, q)
    requires var c, d := Min(p, CONTEXT), Min(q, CONTEXT); i == p - c && i' == |a| - q + d && j' == |b| - q + d
    ensures IsPath(ops, a, b, 0, 0, i, i, i', j') && i <= |a| && i <= |b| && i' <= |a| && j' <= |b|
    ensures a[0..i] == b[0..i] && a[i'..] == b[j'..]
    ensures OldAt(ops, 0, i') == i && NewAt(ops, 0, j') == i
  {
    CoversPath(ops, a, b, p, q);
    hide Covers, IsPath, Trimmed;
    TrimmedContext(a, b, p, q, Min(p, CONTEXT), Min(q, CONTEXT));
    TakeIsSlice(a, i);
    TakeIsSlice(b, i);
  }

  lemma CoversPath(ops: seq<Op>, a: seq<string>, b: seq<string>, p: nat, q: nat)
    requires Covers(ops, a, b, p, q)
    ensures var c, d := Min(p, CONTEXT), Min(q, CONTEXT);
            && Trimmed(a, b, p, q) && p + q <= |a| && p + q <= |b|
            && IsPath(ops, a, b, 0, 0, p - c, p - c, |a| - q + d, |b| - q + d)
            && OldAt(ops, 0, |a| - q + d) == p - c && NewAt(ops, 0, |b| - q + d) == p - c
  {
    hide IsEdge;
  }

  lemma TakeIsSlice(a: seq<string>, i: nat)
    requires i <= |a|
    ensures a[0..i] == a[..i]
  {
  }

  lemma {:induction false} HunksClean(ops: seq<Op>, start: nat)
    requires start <= |ops| && forall k :: 0 <= k < |ops| ==> '\n' !in ops[k].text
    ensures forall h :: h in HunksFrom(ops, start) ==> NoNewline(h)
    decreases |ops| - start
  {
    if FirstChange(ops, start) < |ops| {
      var r := NextRange(ops, start);
      HunksClean(ops, r.end);
      HunkClean(ops, r);
    }
  }

  lemma HunkClean(ops: seq<Op>, r: Range)
    requires r.lo < r.end <= |ops| && forall k :: 0 <= k < |ops| ==> '\n' !in ops[k].text
    ensures NoNewline(HunkOf(ops, r))
  {
    var h := HunkOf(ops, r);
    forall k | 0 <= k < |h.body| ensures '\n' !in h.body[k].text {
      assert h.body[k].text == ops[r.lo + k].text;
    }
  }
}
