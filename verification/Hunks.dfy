/** Grouping an edit script into hunks with three lines of context, and why the hunks apply. */
module Hunks {
  import opened Basics
  import opened EditScript
  import opened Patch

  const CONTEXT: nat := 3

  /** The script lines `[lo..end)` of one hunk. */
  datatype Range = Range(lo: nat, end: nat)

  predicate Changed(ops: seq<Op>, k: nat) { k < |ops| && ops[k].kind != Same }

  /** No change among the lines `[i..j)`. */
  predicate AllSame(ops: seq<Op>, i: nat, j: nat) {
    forall k :: i <= k < j && k < |ops| ==> ops[k].kind == Same
  }

  /** The first change at or after `i`, or the end of the script. */
  function FirstChange(ops: seq<Op>, i: nat): (k: nat)
    requires i <= |ops|
    ensures i <= k <= |ops| && AllSame(ops, i, k) && (k < |ops| ==> Changed(ops, k))
    decreases |ops| - i
  {
    if i == |ops| || Changed(ops, i) then i else FirstChange(ops, i + 1)
  }

  /**
   * The last change reached from `last` without crossing more than `2 * CONTEXT` unchanged lines; `[last + 1..i)` is
   * unchanged.
   */
  function LastChange(ops: seq<Op>, last: nat, i: nat): (r: nat)
    requires last < i <= |ops| && Changed(ops, last) && AllSame(ops, last + 1, i)
    ensures last <= r < |ops| && Changed(ops, r)
    ensures AllSame(ops, r + 1, r + 2 * CONTEXT + 2)
    ensures forall x {:trigger Near(ops, x)} :: last <= x < r && Changed(ops, x) ==> Near(ops, x)
    decreases |ops| - i
  {
    if i == |ops| then last
    else if !Changed(ops, i) then LastChange(ops, last, i + 1)
    else if i - last - 1 > 2 * CONTEXT then last
    else
      assert Near(ops, last);
      LastChange(ops, i, i + 1)
  }

  /** Another change follows `x` with at most `2 * CONTEXT` unchanged lines between. */
  predicate Near(ops: seq<Op>, x: nat) {
    exists y :: x < y <= x + 2 * CONTEXT + 1 && Changed(ops, y)
  }

  /** The first hunk of the script from line `start` on. */
  function NextRange(ops: seq<Op>, start: nat): (r: Range)
    requires start <= |ops| && FirstChange(ops, start) < |ops|
    ensures start <= r.lo < r.end <= |ops|
    ensures AllSame(ops, start, r.lo)
  {
    var first := FirstChange(ops, start);
    var last := LastChange(ops, first, first + 1);
    Range(Max(start, first - CONTEXT), Min(|ops|, last + CONTEXT + 1))
  }

  /** All hunks of the script from line `start` on. */
  function Ranges(ops: seq<Op>, start: nat): seq<Range>
    requires start <= |ops|
    decreases |ops| - start
  {
    if FirstChange(ops, start) == |ops| then []
    else
      var r := NextRange(ops, start);
      [r] + Ranges(ops, r.end)
  }

  /**
   * A hunk opens and closes with exactly the context available up to `CONTEXT` lines, and never spans a long
   * unchanged stretch.
   */
  ghost predicate IsTight(ops: seq<Op>, r: Range) {
    exists first, last :: TightBounds(ops, r, first, last)
  }

  ghost predicate TightBounds(ops: seq<Op>, r: Range, first: nat, last: nat) {
    && r.lo <= first <= last < r.end <= |ops|
    && Changed(ops, first) && Changed(ops, last)
    && AllSame(ops, r.lo, first) && AllSame(ops, last + 1, r.end)
    && first - r.lo == Min(CONTEXT, first)
    && r.end - last - 1 == Min(CONTEXT, |ops| - last - 1)
    && (forall x {:trigger Near(ops, x)} :: first <= x < last && Changed(ops, x) ==> Near(ops, x))
  }

  /** Nothing between the lines before `start` and its nearest change is within context distance. */
  predicate ClearBefore(ops: seq<Op>, start: nat) {
    start == 0 || AllSame(ops, start, start + CONTEXT + 1)
  }

  lemma NextRangeTight(ops: seq<Op>, start: nat)
    requires start <= |ops| && FirstChange(ops, start) < |ops| && ClearBefore(ops, start)
    ensures var r := NextRange(ops, start);
            && IsTight(ops, r) && ClearBefore(ops, r.end)
            && (start > 0 ==> start < r.lo)
  {
    var r := NextRange(ops, start);
    var first := FirstChange(ops, start);
    var last := LastChange(ops, first, first + 1);
    if start > 0 {
      assert ops[first].kind != Same;
      assert first >= start + CONTEXT + 1;
    }
    assert TightBounds(ops, r, first, last);
  }

  /** The hunks follow one another from line `from` on, with at least one unprinted line between neighbours. */
  predicate Apart(rs: seq<Range>, from: nat) {
    rs == [] || (from <= rs[0].lo < rs[0].end && Apart(rs[1..], rs[0].end + 1))
  }

  ghost predicate Covered(rs: seq<Range>, x: nat) {
    exists r :: r in rs && r.lo <= x < r.end
  }

  lemma {:induction false} RangesTight(ops: seq<Op>, start: nat)
    requires start <= |ops| && ClearBefore(ops, start)
    ensures forall r :: r in Ranges(ops, start) ==> IsTight(ops, r)
    ensures Apart(Ranges(ops, start), if start == 0 then 0 else start + 1)
    decreases |ops| - start
  {
    if FirstChange(ops, start) < |ops| {
      var r := NextRange(ops, start);
      NextRangeTight(ops, start);
      RangesTight(ops, r.end);
      assert Ranges(ops, start)[1..] == Ranges(ops, r.end);
    }
  }

  lemma {:induction false} RangesCover(ops: seq<Op>, start: nat, x: nat)
    requires start <= x && Changed(ops, x)
    ensures Covered(Ranges(ops, start), x)
    decreases |ops| - start
  {
    var first := FirstChange(ops, start);
    assert first <= x;
    var r := NextRange(ops, start);
    assert r in Ranges(ops, start);
    if x >= r.end {
      RangesCover(ops, r.end, x);
      var t :| t in Ranges(ops, r.end) && t.lo <= x < t.end;
      assert t in Ranges(ops, start);
    }
  }

  /** The hunks are ordered and apart, tight, and together hold every change. */
  lemma RangesSound(ops: seq<Op>)
    ensures var rs := Ranges(ops, 0);
            && (forall r :: r in rs ==> IsTight(ops, r))
            && Apart(rs, 0)
            && (forall x :: Changed(ops, x) ==> Covered(rs, x))
  {
    RangesTight(ops, 0);
    forall x | Changed(ops, x) ensures Covered(Ranges(ops, 0), x) {
      RangesCover(ops, 0, x);
    }
  }

  // ----- the printed hunks -----

  /**
   * The printed hunk of the script lines `r`: its lines, and a header with 1-based starts (0-based for an empty
   * side).
   */
  function HunkOf(ops: seq<Op>, r: Range): Hunk
    requires r.lo < r.end <= |ops|
  {
    var body := ops[r.lo..r.end];
    var oldCount, newCount := Count(body, Same) + Count(body, Del), Count(body, Same) + Count(body, Ins);
    var op := ops[r.lo];
    Hunk(if oldCount == 0 then op.oldIdx else op.oldIdx + 1, oldCount,
         if newCount == 0 then op.newIdx else op.newIdx + 1, newCount,
         seq(|body|, i requires 0 <= i < |body| => Line(body[i].kind, body[i].text)))
  }

  /** The patch printed for the script from line `start` on. */
  function HunksFrom(ops: seq<Op>, start: nat): seq<Hunk>
    requires start <= |ops|
    decreases |ops| - start
  {
    if FirstChange(ops, start) == |ops| then []
    else
      var r := NextRange(ops, start);
      [HunkOf(ops, r)] + HunksFrom(ops, r.end)
  }

  /** One printed hunk per range, in order. */
  lemma {:induction false} HunksArePrintedRanges(ops: seq<Op>, start: nat)
    requires start <= |ops|
    ensures |HunksFrom(ops, start)| == |Ranges(ops, start)|
    ensures forall k :: 0 <= k < |Ranges(ops, start)| ==>
              var r := Ranges(ops, start)[k];
              r.lo < r.end <= |ops| && HunksFrom(ops, start)[k] == HunkOf(ops, r)
    decreases |ops| - start
  {
    hide FirstChange, NextRange, HunkOf;
    if FirstChange(ops, start) < |ops| {
      HunksArePrintedRanges(ops, NextRange(ops, start).end);
    }
  }

  // ----- the printed hunks apply -----

  lemma {:induction false} BodySides(ops: seq<Op>, body: seq<Line>, n: nat, skip: Kind)
    requires |body| == |ops| && n <= |ops|
    requires forall i :: 0 <= i < |ops| ==> body[i] == Line(ops[i].kind, ops[i].text)
    ensures Texts(body, n, skip) == SideTo(ops, n, skip)
  {
    if n > 0 {
      BodySides(ops, body, n - 1, skip);
    }
  }

  /** A stretch of a path is a path. */
  lemma SubPath(ops: seq<Op>, a: seq<string>, b: seq<string>, i: nat, j: nat, i': nat, j': nat, lo: nat, hi: nat)
    requires IsPath(ops, a, b, 0, 0, i, j, i', j') && lo <= hi <= |ops|
    ensures IsPath(ops[lo..hi], a, b, 0, 0,
              OldAt(ops, lo, i'), NewAt(ops, lo, j'), OldAt(ops, hi, i'), NewAt(ops, hi, j'))
  {
    var sub := ops[lo..hi];
    forall k, l | 0 <= k < |sub| && l == k + 1 < |sub|
      ensures sub[l].oldIdx == NextOld(sub[k]) && sub[l].newIdx == NextNew(sub[k])
    {
      assert sub[k] == ops[lo + k] && sub[l] == ops[lo + l];
    }
    if sub != [] {
      assert sub[|sub| - 1] == ops[hi - 1];
    }
    forall k | 0 <= k < |sub| ensures IsEdge(sub[k], a, b, 0, 0) {
      assert sub[k] == ops[lo + k];
    }
  }

  /** What stretch `lo..hi` of a path consumes and produces. */
  lemma StretchSides(ops: seq<Op>, a: seq<string>, b: seq<string>, i: nat, j: nat, i': nat, j': nat, lo: nat, hi: nat)
    requires IsPath(ops, a, b, 0, 0, i, j, i', j') && i <= |a| && j <= |b| && lo <= hi <= |ops|
    ensures var p, q, p', q' := OldAt(ops, lo, i'), NewAt(ops, lo, j'), OldAt(ops, hi, i'), NewAt(ops, hi, j');
            var sub := ops[lo..hi];
            && p <= p' <= |a| && Side(sub, Ins) == a[p..p'] && p' - p == Count(sub, Same) + Count(sub, Del)
            && q <= q' <= |b| && Side(sub, Del) == b[q..q'] && q' - q == Count(sub, Same) + Count(sub, Ins)
            && (AllSame(ops, lo, hi) ==> a[p..p'] == b[q..q'])
  {
    PathSides(ops, a, b, i, j, i', j', lo);
    SubPath(ops, a, b, i, j, i', j', lo, hi);
    var sub := ops[lo..hi];
    PathSides(sub, a, b, OldAt(ops, lo, i'), NewAt(ops, lo, j'), OldAt(ops, hi, i'), NewAt(ops, hi, j'), |sub|);
    if AllSame(ops, lo, hi) {
      assert forall k :: 0 <= k < |sub| ==> sub[k] == ops[lo + k];
      NoChanges(sub, |sub|);
    }
  }

  /** The header position and the contents of the hunk printed for `r`. */
  lemma HunkSides(ops: seq<Op>, a: seq<string>, b: seq<string>, i: nat, j: nat, i': nat, j': nat, r: Range)
    requires IsPath(ops, a, b, 0, 0, i, j, i', j') && i <= |a| && j <= |b| && r.lo < r.end <= |ops|
    ensures var h := HunkOf(ops, r);
            var p, q := OldAt(ops, r.lo, i'), NewAt(ops, r.lo, j');
            var p', q' := OldAt(ops, r.end, i'), NewAt(ops, r.end, j');
            && Position(h.oldStart, h.oldCount) == p && p + h.oldCount == p' <= |a| && OldLines(h) == a[p..p']
            && Position(h.newStart, h.newCount) == q && q + h.newCount == q' <= |b| && NewLines(h) == b[q..q']
  {
    StretchSides(ops, a, b, i, j, i', j', r.lo, r.end);
    var sub, body := ops[r.lo..r.end], HunkOf(ops, r).body;
    BodySides(sub, body, |sub|, Ins);
    BodySides(sub, body, |sub|, Del);
  }

  lemma GlueRest<T>(s: seq<T>, x: nat, y: nat, z: nat)
    requires x <= y <= z <= |s|
    ensures s[x..y] + s[y..z] + s[z..] == s[x..]
  {
  }

  /** Two equal stretches, one after the other. */
  lemma GlueEqual<T>(a: seq<T>, b: seq<T>, x: nat, y: nat, z: nat, u: nat, v: nat, w: nat)
    requires x <= y <= z <= |a| && u <= v <= w <= |b|
    requires a[x..y] == b[u..v] && a[y..z] == b[v..w]
    ensures a[x..z] == b[u..w] && z - x == w - u
  {
    Glue(a, x, y, z);
    Glue(b, u, v, w);
    assert |a[x..y]| == y - x && |a[y..z]| == z - y && |b[u..v]| == v - u && |b[v..w]| == w - v;
  }

  /**
   * Applying the hunks of the script from `start` on, when `x` old lines are consumed and `y` new lines produced and
   * both sides agree from there up to `start`: the result is exactly the rest of the new lines.
   */
  lemma {:induction false} HunksApply(ops: seq<Op>, a: seq<string>, b: seq<string>, i: nat, j: nat, i': nat, j': nat,
                                      start: nat, x: nat, y: nat)
    requires IsPath(ops, a, b, 0, 0, i, j, i', j') && i <= |a| && j <= |b| && start <= |ops|
    requires i' <= |a| && j' <= |b| && a[i'..] == b[j'..]
    requires x <= OldAt(ops, start, i') <= |a| && y <= NewAt(ops, start, j') <= |b|
    requires a[x..OldAt(ops, start, i')] == b[y..NewAt(ops, start, j')]
    ensures ApplyFrom(HunksFrom(ops, start), a, x, y) == Some(b[y..])
    decreases |ops| - start
  {
    hide IsPath, HunkOf, NextRange;
    if FirstChange(ops, start) == |ops| {
      StretchSides(ops, a, b, i, j, i', j', start, |ops|);
      GlueEqual(a, b, x, OldAt(ops, start, i'), i', y, NewAt(ops, start, j'), j');
      assert a[i'..] == a[i'..|a|] && b[j'..] == b[j'..|b|];
      GlueEqual(a, b, x, i', |a|, y, j', |b|);
      assert a[x..|a|] == a[x..] && b[y..|b|] == b[y..];
    } else {
      var r := NextRange(ops, start);
      var p, q, p', q' := OldAt(ops, r.lo, i'), NewAt(ops, r.lo, j'), OldAt(ops, r.end, i'), NewAt(ops, r.end, j');
      StretchSides(ops, a, b, i, j, i', j', start, r.lo);
      GlueEqual(a, b, x, OldAt(ops, start, i'), p, y, NewAt(ops, start, j'), q);
      HunkSides(ops, a, b, i, j, i', j', r);
      HunksApply(ops, a, b, i, j, i', j', r.end, p', q');
      ApplyStep(HunkOf(ops, r), HunksFrom(ops, r.end), a, b, x, y, p, q, p', q');
    }
  }

  lemma ApplyStep(h: Hunk, hs: seq<Hunk>, a: seq<string>, b: seq<string>, x: nat, y: nat, p: nat, q: nat, p': nat,
                  q': nat)
    requires x <= p <= p' <= |a| && y <= q <= q' <= |b| && a[x..p] == b[y..q] && p - x == q - y
    requires Position(h.oldStart, h.oldCount) == p && p + h.oldCount == p' && OldLines(h) == a[p..p']
    requires Position(h.newStart, h.newCount) == q && q + h.newCount == q' && NewLines(h) == b[q..q']
    requires ApplyFrom(hs, a, p', q') == Some(b[q'..])
    ensures ApplyFrom([h] + hs, a, x, y) == Some(b[y..])
  {
    GlueRest(b, y, q, q');
    assert ([h] + hs)[1..] == hs;
  }
}
