/** Watching a growing log for a line: one scan, the probe that keeps a cursor, and what a run of probes guarantees. */
module LogWatch {
  import opened Basics
  import opened Bytes
  import opened Lines
  import opened LineWindow

  /** One scan reads at most `scanCap` bytes; a line is judged by its first `lineCap` bytes. */
  datatype Limits = Limits(scanCap: nat, lineCap: nat)

  predicate ValidLimits(l: Limits) { l.scanCap > 0 && l.lineCap > 0 }

  /** Whether `line` counts as a match: the pattern is tried on its head without line ending. */
  predicate Judged(re: seq<byte> -> bool, l: Limits, line: seq<byte>) {
    re(TrimEnd(line[..Min(|line|, l.lineCap)]))
  }

  /** The end of the window one scan reads. */
  function WindowEnd(file: seq<byte>, offset: nat, l: Limits): (y: nat)
    requires offset <= |file|
    ensures offset <= y <= |file|
  {
    Min(offset + l.scanCap, |file|)
  }

  /** Just past the last newline of `s[i..j]`, `i` when there is none. */
  function CompleteEnd(s: seq<byte>, i: nat, j: nat): (r: nat)
    requires i <= j <= |s|
    ensures i <= r <= j
    ensures r == i || s[r - 1] == NL
    ensures forall k :: r <= k < j ==> s[k] != NL
    decreases j - i
  {
    if i == j then i else if s[j - 1] == NL then j else CompleteEnd(s, i, j - 1)
  }

  ghost predicate NoMatch(re: seq<byte> -> bool, l: Limits, ls: seq<seq<byte>>) {
    forall k :: 0 <= k < |ls| ==> !Judged(re, l, ls[k])
  }

  /** A single line fills the whole window. */
  predicate Giant(file: seq<byte>, offset: nat, l: Limits)
    requires offset <= |file|
  {
    offset + l.scanCap <= |file| && CompleteEnd(file, offset, offset + l.scanCap) == offset
  }

  /**
   * How far the cursor moves when nothing matched: over the complete lines, or over a line that fills the whole
   * window.
   */
  function Advance(file: seq<byte>, offset: nat, l: Limits): (n: nat)
    requires offset <= |file|
    ensures offset + n <= |file|
  {
    if Giant(file, offset, l) then l.scanCap else CompleteEnd(file, offset, WindowEnd(file, offset, l)) - offset
  }

  /**
   * The scan's position in its window `w`: the lines before `p` did not match and were complete, and no newline
   * follows up to `pos`.
   */
  ghost predicate ScanInv(re: seq<byte> -> bool, l: Limits, w: seq<byte>, p: nat, pos: nat, head: seq<byte>, n: nat) {
    && p <= pos <= |w| && (p == 0 || w[p - 1] == NL)
    && (forall k :: p <= k < pos ==> w[k] != NL)
    && head == w[p..p + Min(pos - p, l.lineCap)]
    && n == |LinesIn(w, 0, p)| && NoMatch(re, l, LinesIn(w, 0, p))
  }

  /** The head of a line with more of the line behind it. */
  function Extend(head: seq<byte>, chunk: seq<byte>, cap: nat): seq<byte> {
    if |head| < cap then head + chunk[..Min(|chunk|, cap - |head|)] else head
  }

  lemma ExtendHead(w: seq<byte>, p: nat, was: nat, pos: nat, cap: nat)
    requires p <= was <= pos <= |w|
    ensures Extend(w[p..p + Min(was - p, cap)], w[was..pos], cap) == w[p..p + Min(pos - p, cap)]
  {
    if was - p < cap {
      var m := Min(pos - was, cap - (was - p));
      SliceOfSlice(w, was, pos, 0, m);
      Glue(w, p, was, was + m);
    }
  }

  lemma ScanMore(re: seq<byte> -> bool, l: Limits, w: seq<byte>, p: nat, was: nat, head: seq<byte>, n: nat, pos: nat)
    requires ScanInv(re, l, w, p, was, head, n) && was <= pos <= |w| && forall k :: was <= k < pos ==> w[k] != NL
    ensures ScanInv(re, l, w, p, pos, Extend(head, w[was..pos], l.lineCap), n)
  {
    ExtendHead(w, p, was, pos, l.lineCap);
  }

  /** The line from `p` ends at `pos`: it is judged by the head collected. */
  lemma ScanLine(re: seq<byte> -> bool, l: Limits, w: seq<byte>, p: nat, was: nat, head: seq<byte>, n: nat, pos: nat)
    requires ScanInv(re, l, w, p, was, head, n) && was <= pos <= |w| && p < pos && (w[pos - 1] == NL || pos == |w|)
    requires forall k :: was <= k < pos - 1 ==> w[k] != NL
    ensures var hit, ls := re(TrimEnd(Extend(head, w[was..pos], l.lineCap))), LinesOf(w);
            && (hit ==> n < |ls| && Judged(re, l, ls[n]) && NoMatch(re, l, ls[..n]))
            && (!hit && w[pos - 1] == NL ==> ScanInv(re, l, w, pos, pos, [], n + 1))
            && (!hit && pos == |w| ==> NoMatch(re, l, ls) && |ls| == n + 1)
  {
    hide LinesIn, TrimEnd;
    var line, before := w[p..pos], LinesIn(w, 0, p);
    ExtendHead(w, p, was, pos, l.lineCap);
    SliceOfSlice(w, p, pos, 0, Min(|line|, l.lineCap));
    assert Judged(re, l, line) == re(TrimEnd(Extend(head, w[was..pos], l.lineCap)));
    AppendLine(w, p, pos);
    AllLines(re, l, LinesOf(w), before, line, LinesIn(w, pos, |w|));
  }

  lemma AppendLine(w: seq<byte>, p: nat, q: nat)
    requires p < q <= |w| && (p == 0 || w[p - 1] == NL) && (forall k :: p <= k < q - 1 ==> w[k] != NL)
    requires w[q - 1] == NL || q == |w|
    ensures LinesIn(w, 0, q) == LinesIn(w, 0, p) + [w[p..q]]
    ensures LinesOf(w) == LinesIn(w, 0, p) + ([w[p..q]] + LinesIn(w, q, |w|))
    ensures q == |w| ==> LinesIn(w, q, |w|) == []
  {
    EolAt(w, p, q, q);
    EolAt(w, p, q, |w|);
    LinesConcat(w, 0, p, q);
    LinesConcat(w, 0, p, |w|);
    assert LinesIn(w, q, q) == [];
  }

  lemma AllLines(re: seq<byte> -> bool, l: Limits, all: seq<seq<byte>>, before: seq<seq<byte>>, line: seq<byte>,
                 after: seq<seq<byte>>)
    requires all == before + ([line] + after) && NoMatch(re, l, before)
    ensures |before| < |all| && all[|before|] == line && NoMatch(re, l, all[..|before|])
    ensures !Judged(re, l, line) ==> NoMatch(re, l, before + [line])
    ensures after == [] ==> all == before + [line]
  {
    hide Judged;
    assert all[..|before|] == before;
  }

  /** At the end of the window without a line in progress. */
  lemma ScanAtEnd(re: seq<byte> -> bool, l: Limits, w: seq<byte>, n: nat)
    requires ScanInv(re, l, w, |w|, |w|, [], n)
    ensures NoMatch(re, l, LinesOf(w)) && |LinesOf(w)| == n
  {
  }

  lemma ScanBegins(re: seq<byte> -> bool, l: Limits, w: seq<byte>)
    ensures ScanInv(re, l, w, 0, 0, [], 0)
  {
  }

  lemma ScanBounds(re: seq<byte> -> bool, l: Limits, w: seq<byte>, p: nat, pos: nat, head: seq<byte>, n: nat)
    requires ScanInv(re, l, w, p, pos, head, n)
    ensures p <= pos <= |w| && (p == 0 || w[p - 1] == NL) && (forall k :: p <= k < pos ==> w[k] != NL)
    ensures p == pos ==> head == []
  {
  }

  /** The lines of one window. */
  method ScanWindow(w: seq<byte>, re: seq<byte> -> bool, l: Limits) returns (found: bool, n: nat, consumed: nat)
    requires ValidLimits(l)
    ensures var ls := LinesOf(w);
            && (found ==> 0 < n <= |ls| && Judged(re, l, ls[n - 1]) && NoMatch(re, l, ls[..n - 1]))
            && (!found ==> NoMatch(re, l, ls) && n == |ls|)
    ensures !found ==> consumed <= |w| && (consumed == 0 || w[consumed - 1] == NL)
    ensures !found ==> forall k :: consumed <= k < |w| ==> w[k] != NL
  {
    hide ScanInv, LinesOf, TrimEnd, Extend, NoMatch, Judged;
    var r := new Reader(w, l.lineCap);
    var head, lineLen: nat := [], 0;
    found, consumed, n := false, 0, 0;
    ScanBegins(re, l, w);
    while true
      invariant r.Valid() && r.file == w && r.size == l.lineCap && consumed + lineLen == r.pos
      invariant ScanInv(re, l, w, consumed, r.pos, head, n)
      decreases |w| - r.pos
    {
      ghost var was, old_head := r.pos, head;
      ScanBounds(re, l, w, consumed, was, head, n);
      var chunk, status := r.ReadSlice();
      head := Extend(head, chunk, l.lineCap);
      lineLen := lineLen + |chunk|;
      if status == Full {
        ScanMore(re, l, w, consumed, was, old_head, n, r.pos);
      } else {
        if lineLen > 0 {
          ScanLine(re, l, w, consumed, was, old_head, n, r.pos);
          n := n + 1;
          if re(TrimEnd(head)) {
            return true, n, consumed + lineLen;
          }
          if status == Found {
            consumed := consumed + lineLen;
          }
        } else {
          ScanAtEnd(re, l, w, n);
        }
        if status == Eof {
          return false, n, consumed;
        }
        head, lineLen := [], 0;
      }
    }
  }

  /**
   * Scans from `offset` line by line. `n` is the number of the first matching line, or of all lines; an unmatched last
   * line without a newline is looked at but not consumed.
   */
  method ScanForMatch(file: seq<byte>, offset: nat, re: seq<byte> -> bool, l: Limits)
    returns (found: bool, n: nat, consumed: nat)
    requires ValidLimits(l) && offset <= |file|
    ensures var ls := LinesIn(file, offset, WindowEnd(file, offset, l));
            && (found ==> 0 < n <= |ls| && Judged(re, l, ls[n - 1]) && NoMatch(re, l, ls[..n - 1]))
            && (!found ==> NoMatch(re, l, ls) && n == |ls| && consumed == Advance(file, offset, l))
  {
    hide LinesIn, LinesOf, NoMatch, Judged;
    var w := file[offset..Min(offset + l.scanCap, |file|)];
    LinesOfSlice(file, offset, WindowEnd(file, offset, l));
    assert w == file[offset..WindowEnd(file, offset, l)];
    found, n, consumed := ScanWindow(w, re, l);
    if !found {
      ScanAdvance(l, file, offset, consumed);
      if consumed == 0 && |w| >= l.scanCap {
        consumed := |w|;
      }
    }
  }

  /** The complete lines of the window end at `p`. */
  lemma ScanAdvance(l: Limits, file: seq<byte>, offset: nat, p: nat)
    requires offset <= |file| && ValidLimits(l)
    requires var w := file[offset..WindowEnd(file, offset, l)];
             && p <= |w| && (p == 0 || w[p - 1] == NL) && (forall k :: p <= k < |w| ==> w[k] != NL)
    ensures Advance(file, offset, l) ==
              if p == 0 && WindowEnd(file, offset, l) - offset >= l.scanCap then l.scanCap else p
  {
    var y := WindowEnd(file, offset, l);
    var w := file[offset..y];
    assert p > 0 ==> file[offset + p - 1] == w[p - 1];
    forall k | offset + p <= k < y ensures file[k] != NL {
      assert w[k - offset] == file[k];
    }
    assert CompleteEnd(file, offset, y) == offset + p;
  }

  // ----- the probe -----

  /** What a check of the path finds: nothing, or a file with its identity and contents. */
  datatype Snapshot = Absent | Present(id: int, content: seq<byte>)

  datatype State = State(offset: nat, seen: Option<int>)

  /** The log was rotated, so that another file is found, or truncated. */
  predicate Restarted(st: State, s: Snapshot) {
    s.Present? && ((st.seen.Some? && st.seen.value != s.id) || |s.content| < st.offset)
  }

  /** The cursor a probe reads from: back to the start when the log shrank or is another file. */
  function CursorFor(st: State, s: Snapshot): (c: nat)
    requires s.Present?
    ensures c <= |s.content|
  {
    if Restarted(st, s) then 0 else st.offset
  }

  ghost predicate Satisfies(st: State, s: Snapshot, re: seq<byte> -> bool, l: Limits) {
    && s.Present?
    && var c := CursorFor(st, s); !NoMatch(re, l, LinesIn(s.content, c, WindowEnd(s.content, c, l)))
  }

  /** The state after an unsatisfied probe. */
  function NextState(st: State, s: Snapshot, l: Limits): State {
    if s.Absent? then st
    else
      var c := CursorFor(st, s);
      State(c + Advance(s.content, c, l), Some(s.id))
  }

  function StartState(s: Snapshot): State {
    if s.Absent? then State(0, None) else State(|s.content|, Some(s.id))
  }

  /** The log_regex probe: a closure over the cursor and the file last seen. */
  class Probe {
    const re: seq<byte> -> bool
    const limits: Limits
    var offset: nat
    var seen: Option<int>

    ghost function Abs(): State
      reads this
    {
      State(offset, seen)
    }

    constructor (s: Snapshot, re: seq<byte> -> bool, l: Limits)
      requires ValidLimits(l)
      ensures Abs() == StartState(s) && this.re == re && limits == l
    {
      this.re, limits := re, l;
      offset := if s.Present? then |s.content| else 0;
      seen := if s.Present? then Some(s.id) else None;
    }

    method Check(s: Snapshot) returns (satisfied: bool)
      requires ValidLimits(limits)
      modifies this
      ensures satisfied <==> Satisfies(old(Abs()), s, re, limits)
      ensures !satisfied ==> Abs() == NextState(old(Abs()), s, limits)
    {
      if s.Absent? {
        return false;
      }
      if |s.content| < offset || (seen.Some? && seen.value != s.id) {
        offset := 0;
      }
      seen := Some(s.id);
      var n, consumed;
      satisfied, n, consumed := ScanForMatch(s.content, offset, re, limits);
      if !satisfied {
        offset := offset + consumed;
      }
    }
  }

  // ----- runs of probes -----

  /**
   * The watched part of the log: it begins at `start`, all complete lines up to the cursor are looked at and do not
   * match.
   */
  ghost predicate Watched(content: seq<byte>, start: nat, offset: nat, re: seq<byte> -> bool, l: Limits) {
    && start <= offset <= |content| && (offset == start || content[offset - 1] == NL)
    && NoMatch(re, l, LinesIn(content, start, offset))
  }

  /** Lines below `offset` do not change when the log grows. */
  lemma WatchedGrows(c: seq<byte>, c': seq<byte>, start: nat, offset: nat, re: seq<byte> -> bool, l: Limits)
    requires c <= c' && Watched(c, start, offset, re, l)
    ensures Watched(c', start, offset, re, l)
    ensures LinesIn(c', start, offset) == LinesIn(c, start, offset)
  {
    hide LinesIn;
    LinesShift(c', 0, |c|, start, offset);
    assert c'[0..|c|] == c;
  }

  /**
   * One unsatisfied scan: it consumes exactly the complete lines of its window, none of which matches, unless one
   * line fills it.
   */
  lemma WatchedStep(c: seq<byte>, start: nat, offset: nat, re: seq<byte> -> bool, l: Limits)
    requires ValidLimits(l) && Watched(c, start, offset, re, l)
    requires NoMatch(re, l, LinesIn(c, offset, WindowEnd(c, offset, l)))
    ensures var next := offset + Advance(c, offset, l);
            && (Watched(c, start, next, re, l) <==> !Giant(c, offset, l))
            && (!Giant(c, offset, l) ==>
                  && next == CompleteEnd(c, offset, WindowEnd(c, offset, l))
                  && LinesIn(c, start, next) == LinesIn(c, start, offset) + LinesIn(c, offset, next))
  {
    hide LinesIn;
    var y := WindowEnd(c, offset, l);
    var next := CompleteEnd(c, offset, y);
    if !Giant(c, offset, l) {
      LinesConcat(c, start, offset, next);
      LinesConcat(c, offset, next, y);
      ConcatNoMatch(re, l, LinesIn(c, offset, next), LinesIn(c, next, y));
      ConcatNoMatch(re, l, LinesIn(c, start, offset), LinesIn(c, offset, next));
    }
  }

  lemma ConcatNoMatch(re: seq<byte> -> bool, l: Limits, x: seq<seq<byte>>, y: seq<seq<byte>>)
    ensures NoMatch(re, l, x + y) <==> NoMatch(re, l, x) && NoMatch(re, l, y)
  {
    if NoMatch(re, l, x + y) {
      forall k | 0 <= k < |x| ensures !Judged(re, l, x[k]) {
        assert (x + y)[k] == x[k];
      }
      forall k | 0 <= k < |y| ensures !Judged(re, l, y[k]) {
        assert (x + y)[|x| + k] == y[k];
      }
    }
  }

  /** Where the watched part begins after a probe: at 0 once the log was rotated or truncated. */
  function StartAfter(st: State, start: nat, s: Snapshot): nat {
    if Restarted(st, s) then 0 else start
  }

  /**
   * The log is append-only between rotations: the same file, unless it shrank below what was read of it, extends what
   * was last seen.
   */
  predicate Appended(st: State, last: seq<byte>, s: Snapshot) {
    s.Present? && st.seen == Some(s.id) && 0 < st.offset <= |s.content| ==> last <= s.content
  }

  /** The lines a probe consumes. */
  function Eaten(st: State, s: Snapshot, l: Limits): seq<seq<byte>>
    requires s.Present?
  {
    var c := CursorFor(st, s);
    LinesIn(s.content, c, c + Advance(s.content, c, l))
  }

  /** The lines consumed since the watched part begins, after one more probe. */
  function EatenAfter(st: State, eaten: seq<seq<byte>>, s: Snapshot, l: Limits): seq<seq<byte>> {
    if s.Absent? then eaten
    else if Restarted(st, s) then Eaten(st, s, l)
    else eaten + Eaten(st, s, l)
  }

  /**
   * The watch on a log last seen as `last`: `eaten` are the lines consumed since its watched part begins, each
   * exactly once.
   */
  ghost predicate WatchInv(st: State, last: seq<byte>, start: nat, eaten: seq<seq<byte>>, re: seq<byte> -> bool,
                           l: Limits) {
    && Watched(last, start, st.offset, re, l) && eaten == LinesIn(last, start, st.offset)
    && (st.seen.None? ==> st.offset == 0)
  }

  /** Every unsatisfied probe of an append-only log keeps the watch, as long as no line fills a whole window. */
  lemma ProbeKeepsWatch(st: State, last: seq<byte>, start: nat, eaten: seq<seq<byte>>, s: Snapshot,
                        re: seq<byte> -> bool, l: Limits)
    requires ValidLimits(l) && WatchInv(st, last, start, eaten, re, l) && Appended(st, last, s)
    requires !Satisfies(st, s, re, l)
    ensures s.Present? && !Giant(s.content, CursorFor(st, s), l) ==>
              WatchInv(NextState(st, s, l), s.content, StartAfter(st, start, s), EatenAfter(st, eaten, s, l), re, l)
    ensures s.Absent? ==> WatchInv(NextState(st, s, l), last, start, eaten, re, l)
  {
    hide LinesIn, CompleteEnd;
    if s.Present? {
      var c := CursorFor(st, s);
      if !Restarted(st, s) && c > 0 {
        WatchedGrows(last, s.content, start, c, re, l);
        WatchedStep(s.content, start, c, re, l);
      } else {
        NoLines(s.content, 0, 0);
        WatchedStep(s.content, 0, 0, re, l);
        if !Restarted(st, s) {
          NoLines(last, 0, 0);
          assert eaten == [];
        }
        assert [] + Eaten(st, s, l) == Eaten(st, s, l);
      }
    }
  }

  /** A probe whose window reaches the end of the log leaves no complete line unseen. */
  lemma CaughtUp(st: State, start: nat, s: Snapshot, re: seq<byte> -> bool, l: Limits)
    requires s.Present? && !Giant(s.content, CursorFor(st, s), l) && |s.content| <= CursorFor(st, s) + l.scanCap
    requires Watched(s.content, start, NextState(st, s, l).offset, re, l)
    ensures NoMatch(re, l, LinesIn(s.content, start, CompleteEnd(s.content, start, |s.content|)))
  {
    hide LinesIn;
    var c, size := CursorFor(st, s), |s.content|;
    var next := NextState(st, s, l).offset;
    assert next == CompleteEnd(s.content, c, size);
    SameEnd(s.content, start, next, size);
  }

  lemma {:induction false} SameEnd(s: seq<byte>, i: nat, r: nat, j: nat)
    requires i <= r <= j <= |s| && (r == i || s[r - 1] == NL) && forall k :: r <= k < j ==> s[k] != NL
    ensures CompleteEnd(s, i, j) == r
    decreases j
  {
    if r < j {
      SameEnd(s, i, r, j - 1);
    }
  }

  /**
   * A run: the snapshots of successive probes, none satisfied, the log append-only between rotations, no line filling
   * a window.
   */
  ghost predicate Run(snaps: seq<Snapshot>, st: State, last: seq<byte>, re: seq<byte> -> bool, l: Limits)
    decreases |snaps|
  {
    snaps == [] ||
    var s := snaps[0];
    && Appended(st, last, s) && !Satisfies(st, s, re, l)
    && (s.Present? ==> !Giant(s.content, CursorFor(st, s), l))
    && Run(snaps[1..], NextState(st, s, l), if s.Present? then s.content else last, re, l)
  }

  /** The whole history of a watch. */
  datatype Watch = Watch(st: State, last: seq<byte>, start: nat, eaten: seq<seq<byte>>)

  function After(w: Watch, s: Snapshot, l: Limits): Watch {
    var last := if s.Present? then s.content else w.last;
    Watch(NextState(w.st, s, l), last, StartAfter(w.st, w.start, s), EatenAfter(w.st, w.eaten, s, l))
  }

  function AfterAll(w: Watch, snaps: seq<Snapshot>, l: Limits): Watch
    decreases |snaps|
  {
    if snaps == [] then w else AfterAll(After(w, snaps[0], l), snaps[1..], l)
  }

  function Begin(first: Snapshot): Watch {
    Watch(StartState(first), if first.Present? then first.content else [], StartState(first).offset, [])
  }

  lemma {:induction false} RunKeepsWatch(snaps: seq<Snapshot>, w: Watch, re: seq<byte> -> bool, l: Limits)
    requires ValidLimits(l) && WatchInv(w.st, w.last, w.start, w.eaten, re, l) && Run(snaps, w.st, w.last, re, l)
    ensures var v := AfterAll(w, snaps, l); WatchInv(v.st, v.last, v.start, v.eaten, re, l)
    decreases |snaps|
  {
    hide WatchInv, Eaten, Satisfies, Giant;
    if snaps != [] {
      ProbeKeepsWatch(w.st, w.last, w.start, w.eaten, snaps[0], re, l);
      RunKeepsWatch(snaps[1..], After(w, snaps[0], l), re, l);
    }
  }

  /**
   * Nothing is missed: after any such run that began on `first`, the cursor stands behind a newline or where the
   * watched part begins, no complete line between the two matches, and each of them was consumed exactly once.
   */
  lemma NothingMissed(first: Snapshot, snaps: seq<Snapshot>, re: seq<byte> -> bool, l: Limits)
    requires ValidLimits(l) && Run(snaps, Begin(first).st, Begin(first).last, re, l)
    ensures var v := AfterAll(Begin(first), snaps, l);
            Watched(v.last, v.start, v.st.offset, re, l) && v.eaten == LinesIn(v.last, v.start, v.st.offset)
  {
    var w := Begin(first);
    NoLines(w.last, w.start, w.start);
    RunKeepsWatch(snaps, w, re, l);
  }

  /**
   * A probe that can see a complete matching line is satisfied: in the first bytes of the log when another file is
   * found than last time, or one shorter than what was read, else in the bytes behind those read.
   */
  lemma SeenIsSatisfied(st: State, s: Snapshot, re: seq<byte> -> bool, l: Limits, from: nat, i: nat, j: nat)
    requires ValidLimits(l) && s.Present?
    requires from == if (st.seen.Some? && st.seen.value != s.id) || |s.content| < st.offset then 0 else st.offset
    requires from <= i < j <= |s.content| && j <= from + l.scanCap && s.content[j - 1] == NL
    requires (i == from || s.content[i - 1] == NL) && forall k :: i <= k < j - 1 ==> s.content[k] != NL
    requires Judged(re, l, s.content[i..j])
    ensures Satisfies(st, s, re, l)
  {
    hide TrimEnd;
    var y := WindowEnd(s.content, from, l);
    LineAmong(s.content, from, i, j, y);
    hide LinesIn;
    var ls := LinesIn(s.content, from, y);
    var k :| 0 <= k < |ls| && ls[k] == s.content[i..j];
  }

  /** For such a line the pattern is tried on its text: what stands before the line ending. */
  lemma TextIsJudged(re: seq<byte> -> bool, l: Limits, text: seq<byte>, ending: seq<byte>)
    requires ending in [[NL], [13, NL]] && (text != [] ==> text[|text| - 1] != 13) && NL !in text
    requires |text + ending| <= l.lineCap
    ensures Judged(re, l, text + ending) <==> re(text)
  {
    var line := text + ending;
    assert line[..|line|] == line;
    if ending == [13, NL] {
      assert line[..|line| - 1] == text + [13];
      TrimOne(text, 13);
      assert line == (text + [13]) + [NL];
      TrimOne(text + [13], NL);
    } else {
      TrimOne(text, NL);
    }
    assert text != [] ==> text[|text| - 1] in text;
  }

  lemma TrimOne(text: seq<byte>, b: byte)
    requires b == NL || b == 13
    ensures TrimEnd(text + [b]) == TrimEnd(text)
  {
    assert (text + [b])[..|text|] == text;
  }

  /**
   * Nothing else satisfies a probe: there is a matching line, which begins at or behind where the probe reads from and
   * ends in what it reads.
   */
  lemma SatisfiedIsSeen(st: State, s: Snapshot, re: seq<byte> -> bool, l: Limits) returns (from: nat, i: nat, j: nat)
    requires ValidLimits(l) && Satisfies(st, s, re, l)
    ensures s.Present?
    ensures from == if (st.seen.Some? && st.seen.value != s.id) || |s.content| < st.offset then 0 else st.offset
    ensures from <= i < j <= |s.content| && j <= from + l.scanCap && (i == from || s.content[i - 1] == NL)
    ensures s.content[j - 1] == NL || j == Min(from + l.scanCap, |s.content|)
    ensures Judged(re, l, s.content[i..j]) && forall k :: i <= k < j - 1 ==> s.content[k] != NL
  {
    from := CursorFor(st, s);
    hide LinesIn, Judged;
    var y := WindowEnd(s.content, from, l);
    var ls := LinesIn(s.content, from, y);
    var k :| 0 <= k < |ls| && Judged(re, l, ls[k]);
    i, j := PlaceOf(s.content, from, y, k);
  }

  /** Where the `k`-th line of a stretch stands. */
  lemma {:induction false} PlaceOf(s: seq<byte>, from: nat, y: nat, k: nat) returns (i: nat, j: nat)
    requires from <= y <= |s| && k < |LinesIn(s, from, y)|
    ensures from <= i < j <= y && LinesIn(s, from, y)[k] == s[i..j]
    ensures (i == from || s[i - 1] == NL) && (s[j - 1] == NL || j == y) && forall q :: i <= q < j - 1 ==> s[q] != NL
    decreases y - from
  {
    var e := Eol(s, from, y);
    if k == 0 {
      i, j := from, e;
    } else {
      i, j := PlaceOf(s, e, y, k - 1);
    }
  }

  // ----- only what is appended counts -----

  /** Later looks at the same file, each extending the one before. */
  predicate Growing(id: int, content: seq<byte>, snaps: seq<Snapshot>)
    decreases |snaps|
  {
    snaps == [] ||
    (snaps[0].Present? && snaps[0].id == id && content <= snaps[0].content
     && Growing(id, snaps[0].content, snaps[1..]))
  }

  lemma {:induction false} StaysBehind(w: Watch, id: int, low: nat, snaps: seq<Snapshot>, l: Limits)
    requires w.st.seen == Some(id) && low <= w.st.offset <= |w.last| && Growing(id, w.last, snaps)
    ensures var v := AfterAll(w, snaps, l);
            v.start == w.start && v.st.seen == Some(id) && low <= v.st.offset <= |v.last|
    decreases |snaps|
  {
    if snaps != [] {
      var v := After(w, snaps[0], l);
      hide EatenAfter;
      StaysBehind(v, id, low, snaps[1..], l);
    }
  }

  /** A wait on a log that is there is satisfied only by what is appended after it began, however often it looks. */
  lemma OnlyAppendedCounts(first: Snapshot, snaps: seq<Snapshot>, s: Snapshot, re: seq<byte> -> bool, l: Limits)
    returns (i: nat, j: nat)
    requires ValidLimits(l) && first.Present? && Growing(first.id, first.content, snaps)
    requires Growing(first.id, AfterAll(Begin(first), snaps, l).last, [s])
    requires Satisfies(AfterAll(Begin(first), snaps, l).st, s, re, l)
    ensures AfterAll(Begin(first), snaps, l).start == |first.content|
    ensures s.Present? && |first.content| <= i < j <= |s.content| && Judged(re, l, s.content[i..j])
  {
    StaysBehind(Begin(first), first.id, |first.content|, snaps, l);
    var from;
    from, i, j := SatisfiedIsSeen(AfterAll(Begin(first), snaps, l).st, s, re, l);
  }

  lemma OneLine(s: seq<byte>, i: nat, j: nat)
    requires i < j <= |s| && forall k :: i <= k < j - 1 ==> s[k] != NL
    ensures LinesIn(s, i, j) == [s[i..j]]
  {
    EolAt(s, i, j, j);
    assert LinesIn(s, j, j) == [];
  }

  // ----- a line that fills the read -----

  /** A line fills the read exactly if the read is full and holds no newline. */
  lemma GiantIff(file: seq<byte>, offset: nat, l: Limits)
    requires ValidLimits(l) && offset <= |file|
    ensures Giant(file, offset, l) <==>
              offset + l.scanCap <= |file| && forall k :: offset <= k < offset + l.scanCap ==> file[k] != NL
  {
    if offset + l.scanCap <= |file| && forall k :: offset <= k < offset + l.scanCap ==> file[k] != NL {
      SameEnd(file, offset, offset, offset + l.scanCap);
    }
  }

  /** The cursor then stands inside the line, and the next scan judges the rest of that line as a line of its own. */
  lemma GiantRest(c: seq<byte>, offset: nat, l: Limits)
    requires ValidLimits(l) && offset <= |c| && Giant(c, offset, l) && offset + l.scanCap < |c|
    ensures var next := offset + Advance(c, offset, l);
            && next == offset + l.scanCap && c[next - 1] != NL
            && var end, y := Eol(c, offset, |c|), WindowEnd(c, next, l);
            && next < end && LinesIn(c, offset, |c|)[0] == c[offset..end]
            && LinesIn(c, next, y) != [] && LinesIn(c, next, y)[0] == c[next..Min(end, y)]
  {
    hide LinesIn;
    GiantIff(c, offset, l);
    var next := offset + l.scanCap;
    var y, end := WindowEnd(c, next, l), Eol(c, next, |c|);
    HeadLine(c, offset, end, |c|);
    HeadLine(c, next, Min(end, y), y);
  }

  lemma HeadLine(s: seq<byte>, i: nat, n: nat, j: nat)
    requires i < n <= j <= |s| && (forall k :: i <= k < n - 1 ==> s[k] != NL) && (s[n - 1] == NL || n == j)
    ensures Eol(s, i, j) == n && LinesIn(s, i, j) != [] && LinesIn(s, i, j)[0] == s[i..n]
  {
    EolAt(s, i, n, j);
  }

  lemma {:induction false} TrimKeepsHead(s: seq<byte>)
    requires s != [] && s[0] != NL && s[0] != 13
    ensures TrimEnd(s) != [] && TrimEnd(s)[0] == s[0]
  {
    var n := |s| - 1;
    if s[n] == NL || s[n] == 13 {
      TrimKeepsHead(s[..n]);
    }
  }

  lemma JudgedByHead(l: Limits, re: seq<byte> -> bool, b: byte, line: seq<byte>)
    requires ValidLimits(l) && line != [] && line[0] != NL && line[0] != 13 && line[0] != b
    requires forall x :: re(x) <==> x == [b]
    ensures !Judged(re, l, line)
  {
    TrimKeepsHead(line[..Min(|line|, l.lineCap)]);
  }

  /** A line that fills the read and goes on with a `b` behind it. */
  function GiantLog(l: Limits): seq<byte> { seq(l.scanCap, _ => 97) + [98, NL] }

  /** So a watch for a line `b` is satisfied by the end of such a line, although no line of the log reads `b`. */
  lemma RestMatchesAlone(l: Limits, id: int, re: seq<byte> -> bool)
    requires ValidLimits(l) && forall x :: re(x) <==> x == [98]
    ensures var c := GiantLog(l);
            var st := NextState(State(0, Some(id)), Present(id, c), l);
            && NoMatch(re, l, LinesOf(c)) && Giant(c, 0, l)
            && !Satisfies(State(0, Some(id)), Present(id, c), re, l) && Satisfies(st, Present(id, c), re, l)
  {
    var c, n := GiantLog(l), l.scanCap;
    GiantIff(c, 0, l);
    OneLine(c, 0, n + 2);
    JudgedByHead(l, re, 98, c[0..n + 2]);
    OneLine(c, 0, n);
    JudgedByHead(l, re, 98, c[0..n]);
    var y := WindowEnd(c, n, l);
    OneLine(c, n, y);
    var head := c[n..y][..Min(y - n, l.lineCap)];
    assert head == [98] || head == [98, NL];
    assert [98, NL][..1] == [98];
    assert LinesIn(c, n, y)[0] == c[n..y] && Judged(re, l, c[n..y]);
  }

  // ----- what holds whatever the lines are -----

  /** `content[i..j]` is a complete line, the watched part beginning at `start`. */
  predicate IsLine(content: seq<byte>, start: nat, i: nat, j: nat) {
    && start <= i < j <= |content| && (i == start || content[i - 1] == NL) && content[j - 1] == NL
    && (forall k :: i <= k < j - 1 ==> content[k] != NL)
  }

  /**
   * A cursor inside a line stands a whole read or more behind its start, so it never splits a line that fits a read.
   */
  ghost predicate CursorOk(content: seq<byte>, start: nat, offset: nat, l: Limits) {
    && start <= offset <= |content|
    && (CompleteEnd(content, start, offset) == offset || CompleteEnd(content, start, offset) + l.scanCap <= offset)
  }

  /** Every complete line up to `offset` that fits a read is one of `eaten`, in one piece. */
  ghost predicate InOnePiece(content: seq<byte>, start: nat, offset: nat, eaten: seq<seq<byte>>, l: Limits) {
    forall i: nat, j: nat :: IsLine(content, start, i, j) && j <= offset && j - i <= l.scanCap ==>
      content[i..j] in eaten
  }

  /**
   * Every byte of the watched part up to the cursor was consumed exactly once, in order; nothing consumed matched; and
   * every complete line that fits a read was consumed, and so judged, in one piece.
   */
  ghost predicate AnyWatch(w: Watch, re: seq<byte> -> bool, l: Limits) {
    && CursorOk(w.last, w.start, w.st.offset, l)
    && Flatten(w.eaten) == w.last[w.start..w.st.offset] && NoMatch(re, l, w.eaten)
    && InOnePiece(w.last, w.start, w.st.offset, w.eaten, l)
    && (w.st.seen.None? ==> w.st.offset == 0)
  }

  lemma {:induction false} CompleteEndPrefix(c: seq<byte>, c': seq<byte>, i: nat, j: nat)
    requires i <= j <= |c| && c <= c'
    ensures CompleteEnd(c', i, j) == CompleteEnd(c, i, j)
    decreases j
  {
    if i < j {
      CompleteEndPrefix(c, c', i, j - 1);
    }
  }

  /** All of this stays when the log grows. */
  lemma AnyGrows(c: seq<byte>, c': seq<byte>, start: nat, offset: nat, eaten: seq<seq<byte>>, l: Limits)
    requires c <= c' && CursorOk(c, start, offset, l) && InOnePiece(c, start, offset, eaten, l)
    ensures CursorOk(c', start, offset, l) && InOnePiece(c', start, offset, eaten, l)
    ensures c'[start..offset] == c[start..offset]
  {
    CompleteEndPrefix(c, c', start, offset);
    forall i: nat, j: nat | IsLine(c', start, i, j) && j <= offset && j - i <= l.scanCap ensures c'[i..j] in eaten {
      LinePrefix(c, c', start, i, j);
    }
  }

  lemma LinePrefix(c: seq<byte>, c': seq<byte>, start: nat, i: nat, j: nat)
    requires c <= c' && IsLine(c', start, i, j) && j <= |c|
    ensures IsLine(c, start, i, j) && c[i..j] == c'[i..j]
  {
    forall k | 0 <= k < |c| ensures c[k] == c'[k] {
    }
  }

  /** A complete line of a stretch is one of its lines. */
  lemma LineAmong(c: seq<byte>, from: nat, i: nat, j: nat, y: nat)
    requires from <= i < j <= y <= |c| && (i == from || c[i - 1] == NL) && c[j - 1] == NL
    requires forall k :: i <= k < j - 1 ==> c[k] != NL
    ensures c[i..j] in LinesIn(c, from, y)
  {
    hide LinesIn;
    LinesConcat(c, from, i, y);
    LinesConcat(c, i, j, y);
    OneLine(c, i, j);
    assert c[i..j] in LinesIn(c, i, y);
  }

  /** One unsatisfied scan, whatever the lines are. */
  lemma AnyStep(c: seq<byte>, start: nat, offset: nat, eaten: seq<seq<byte>>, l: Limits)
    requires ValidLimits(l) && CursorOk(c, start, offset, l) && InOnePiece(c, start, offset, eaten, l)
    ensures var next := offset + Advance(c, offset, l);
            CursorOk(c, start, next, l) && InOnePiece(c, start, next, eaten + LinesIn(c, offset, next), l)
  {
    hide LinesIn;
    var next := offset + Advance(c, offset, l);
    StepEnd(c, start, offset, l);
    forall i: nat, j: nat | IsLine(c, start, i, j) && j <= next && j - i <= l.scanCap
      ensures c[i..j] in eaten + LinesIn(c, offset, next)
    {
      if j > offset {
        LineBehindCursor(c, start, offset, l, i, j);
        LineAmong(c, offset, i, j, next);
      }
    }
  }

  /** A line that fits a read and ends behind the cursor begins no earlier than it. */
  lemma LineBehindCursor(c: seq<byte>, start: nat, offset: nat, l: Limits, i: nat, j: nat)
    requires CursorOk(c, start, offset, l) && IsLine(c, start, i, j) && offset < j && j - i <= l.scanCap
    ensures offset <= i
  {
    if i < offset {
      SameEnd(c, start, i, offset);
    }
  }

  /** Where the cursor stands after a scan: behind a newline, or a read further inside the same line. */
  lemma StepEnd(c: seq<byte>, start: nat, offset: nat, l: Limits)
    requires ValidLimits(l) && CursorOk(c, start, offset, l)
    ensures CursorOk(c, start, offset + Advance(c, offset, l), l)
  {
    var b, next := CompleteEnd(c, start, offset), offset + Advance(c, offset, l);
    if Giant(c, offset, l) {
      GiantIff(c, offset, l);
      SameEnd(c, start, b, next);
    } else if next > offset {
      SameEnd(c, start, next, next);
    }
  }

  /** What an unsatisfied scan consumes does not match. */
  lemma ConsumedNoMatch(c: seq<byte>, offset: nat, re: seq<byte> -> bool, l: Limits)
    requires offset <= |c| && NoMatch(re, l, LinesIn(c, offset, WindowEnd(c, offset, l)))
    ensures NoMatch(re, l, LinesIn(c, offset, offset + Advance(c, offset, l)))
  {
    hide LinesIn, NoMatch;
    var y, next := WindowEnd(c, offset, l), offset + Advance(c, offset, l);
    if !Giant(c, offset, l) {
      LinesConcat(c, offset, next, y);
      ConcatNoMatch(re, l, LinesIn(c, offset, next), LinesIn(c, next, y));
    }
  }

  lemma {:induction false} FlattenConcat(x: seq<seq<byte>>, y: seq<seq<byte>>)
    ensures Flatten(x + y) == Flatten(x) + Flatten(y)
    decreases |x|
  {
    if x == [] {
      assert x + y == y;
    } else {
      FlattenConcat(x[1..], y);
      assert (x + y)[1..] == x[1..] + y;
      Reassoc(x[0], Flatten(x[1..]), Flatten(y));
    }
  }

  /** The watch after one scan of the log as it was last seen. */
  function Scanned(w: Watch, l: Limits): Watch
    requires w.st.offset <= |w.last|
  {
    var next := w.st.offset + Advance(w.last, w.st.offset, l);
    Watch(w.st.(offset := next), w.last, w.start, w.eaten + LinesIn(w.last, w.st.offset, next))
  }

  lemma ScanKeepsAny(w: Watch, re: seq<byte> -> bool, l: Limits)
    requires ValidLimits(l) && AnyWatch(w, re, l) && w.st.offset <= |w.last| && w.st.seen.Some?
    requires NoMatch(re, l, LinesIn(w.last, w.st.offset, WindowEnd(w.last, w.st.offset, l)))
    ensures AnyWatch(Scanned(w, l), re, l)
  {
    hide LinesIn, NoMatch, Flatten, Advance, CursorOk, InOnePiece, WindowEnd;
    var c, start, offset := w.last, w.start, w.st.offset;
    var next := offset + Advance(c, offset, l);
    var more := LinesIn(c, offset, next);
    CursorBounds(c, start, offset, l);
    AnyStep(c, start, offset, w.eaten, l);
    ConsumedNoMatch(c, offset, re, l);
    ConcatNoMatch(re, l, w.eaten, more);
    FlattenConcat(w.eaten, more);
    FlattenLines(c, offset, next);
    Glue(c, start, offset, next);
  }

  lemma CursorBounds(c: seq<byte>, start: nat, offset: nat, l: Limits)
    requires CursorOk(c, start, offset, l)
    ensures start <= offset <= |c|
  {
  }

  lemma NothingYet(c: seq<byte>, st: State, re: seq<byte> -> bool, l: Limits)
    requires st.offset == 0
    ensures AnyWatch(Watch(st, c, 0, []), re, l)
  {
  }

  /** Any unsatisfied probe keeps the watch on a log that is append-only between rotations. */
  lemma ProbeKeepsAny(w: Watch, s: Snapshot, re: seq<byte> -> bool, l: Limits)
    requires ValidLimits(l) && AnyWatch(w, re, l) && Appended(w.st, w.last, s) && !Satisfies(w.st, s, re, l)
    ensures AnyWatch(After(w, s, l), re, l)
  {
    hide LinesIn, NoMatch, Advance, AnyWatch, WindowEnd, Appended, Satisfies;
    if s.Present? {
      var c := CursorFor(w.st, s);
      var st := State(c, Some(s.id));
      NotSeen(w.st, s, re, l);
      if Restarted(w.st, s) {
        NothingYet(s.content, st, re, l);
        ScanKeepsAny(Watch(st, s.content, 0, []), re, l);
        NoneBefore(Eaten(w.st, s, l));
      } else {
        AnyOn(w, s, st, re, l);
        ScanKeepsAny(Watch(st, s.content, w.start, w.eaten), re, l);
      }
    }
  }

  lemma NoneBefore(ls: seq<seq<byte>>)
    ensures [] + ls == ls
  {
  }

  lemma NotSeen(st: State, s: Snapshot, re: seq<byte> -> bool, l: Limits)
    requires s.Present? && !Satisfies(st, s, re, l)
    ensures var c := CursorFor(st, s);
            && c == (if Restarted(st, s) then 0 else st.offset)
            && NoMatch(re, l, LinesIn(s.content, c, WindowEnd(s.content, c, l)))
  {
    hide LinesIn, NoMatch;
  }

  /** The watch, told of the log as it is now. */
  lemma AnyOn(w: Watch, s: Snapshot, st: State, re: seq<byte> -> bool, l: Limits)
    requires AnyWatch(w, re, l) && Appended(w.st, w.last, s) && s.Present? && !Restarted(w.st, s)
    requires w.st.offset == st.offset && st.seen == Some(s.id)
    ensures AnyWatch(Watch(st, s.content, w.start, w.eaten), re, l)
  {
    hide NoMatch, Flatten;
    if st.offset > 0 {
      AnyGrows(w.last, s.content, w.start, st.offset, w.eaten, l);
    }
  }

  /** A run like `Run`, but with lines of any length. */
  ghost predicate AnyRun(snaps: seq<Snapshot>, st: State, last: seq<byte>, re: seq<byte> -> bool, l: Limits)
    decreases |snaps|
  {
    snaps == [] ||
    var s := snaps[0];
    && Appended(st, last, s) && !Satisfies(st, s, re, l)
    && AnyRun(snaps[1..], NextState(st, s, l), if s.Present? then s.content else last, re, l)
  }

  lemma {:induction false} RunKeepsAny(snaps: seq<Snapshot>, w: Watch, re: seq<byte> -> bool, l: Limits)
    requires ValidLimits(l) && AnyWatch(w, re, l) && AnyRun(snaps, w.st, w.last, re, l)
    ensures AnyWatch(AfterAll(w, snaps, l), re, l)
    decreases |snaps|
  {
    hide AnyWatch, Eaten, Satisfies;
    if snaps != [] {
      ProbeKeepsAny(w, snaps[0], re, l);
      RunKeepsAny(snaps[1..], After(w, snaps[0], l), re, l);
    }
  }

  /**
   * A line that fills a read ends no promise for the others: after any sequence of unsatisfied probes, lines of any
   * length among the log, every byte was consumed once, and no complete line that fits a read and ends at or before the
   * cursor matches.
   */
  lemma NoFittingLineMissed(first: Snapshot, snaps: seq<Snapshot>, re: seq<byte> -> bool, l: Limits)
    requires ValidLimits(l) && AnyRun(snaps, Begin(first).st, Begin(first).last, re, l)
    ensures var v := AfterAll(Begin(first), snaps, l);
            && v.start <= v.st.offset <= |v.last| && Flatten(v.eaten) == v.last[v.start..v.st.offset]
            && forall i: nat, j: nat :: IsLine(v.last, v.start, i, j) && j <= v.st.offset && j - i <= l.scanCap ==>
                 v.last[i..j] in v.eaten && !Judged(re, l, v.last[i..j])
  {
    hide Judged;
    BeginsAny(first, re, l);
    RunKeepsAny(snaps, Begin(first), re, l);
    var v := AfterAll(Begin(first), snaps, l);
    assert AnyWatch(v, re, l);
    forall i: nat, j: nat | IsLine(v.last, v.start, i, j) && j <= v.st.offset && j - i <= l.scanCap
      ensures v.last[i..j] in v.eaten && !Judged(re, l, v.last[i..j])
    {
      var k :| 0 <= k < |v.eaten| && v.eaten[k] == v.last[i..j];
    }
  }

  lemma BeginsAny(first: Snapshot, re: seq<byte> -> bool, l: Limits)
    ensures AnyWatch(Begin(first), re, l)
  {
  }
}
