/** Matches of one file with merged context: what is shown, and which lines that is. */
module SearchContext {
  import opened Basics

  /** A match with the context lines that belong to it; `line` is 1-based. */
  datatype Match = Match(file: string, line: nat, content: string, before: seq<string>, after: seq<string>) {
    /** The first and the last line number shown with this match, as the text rendering rebuilds them. */
    function First(): int { line - |before| }

    function Last(): nat { line + |after| }
  }

  /** How lines are judged and shortened, and how much context is asked for. */
  datatype Style = Style(re: string -> bool, hit: string -> string, ctx: string -> string, before: nat, after: nat)

  /** Everything shown with `m` is line by line what stands in the file. */
  predicate IsNumbered(m: Match, path: string, lines: seq<string>, s: Style) {
    && m.file == path && 1 <= m.First() && m.Last() <= |lines|
    && s.re(lines[m.line - 1]) && m.content == s.hit(lines[m.line - 1])
    && (forall i :: 0 <= i < |m.before| ==> m.before[i] == s.ctx(lines[m.First() + i - 1]))
    && (forall i :: 0 <= i < |m.after| ==> m.after[i] == s.ctx(lines[m.line + i]))
  }

  /** Line `l` is shown with one of the matches. */
  ghost predicate InSpans(ms: seq<Match>, l: int) {
    exists m :: m in ms && m.First() <= l <= m.Last()
  }

  /** Line `l` is in the context window of one of the matches. */
  ghost predicate InWindows(ms: seq<Match>, s: Style, l: int) {
    exists m :: m in ms && m.line - s.before <= l <= m.line + s.after
  }

  /** The spans of the matches follow one another without overlap: no line is shown twice. */
  predicate Ordered(ms: seq<Match>) {
    forall i, j :: 0 <= i < j < |ms| ==> ms[i].Last() < ms[j].First()
  }

  /**
   * The matches shown of a file of which the first `n` lines were looked at: true to the file, in order, each line at
   * most once, and exactly the lines in the windows of these matches.
   */
  ghost predicate IsMerged(ms: seq<Match>, path: string, lines: seq<string>, s: Style, n: nat) {
    && n <= |lines|
    && (forall m :: m in ms ==> IsNumbered(m, path, lines, s) && m.Last() <= n)
    && Ordered(ms)
    && (forall l :: 1 <= l <= n ==> (InSpans(ms, l) <==> InWindows(ms, s, l)))
  }

  /** The number of the last line shown, 0 before any. */
  function Emitted(ms: seq<Match>): nat { if ms == [] then 0 else ms[|ms| - 1].Last() }

  /** The last match has collected all the context the lines up to `n` have for it. */
  predicate Collected(ms: seq<Match>, s: Style, n: nat) {
    ms != [] ==> var m := ms[|ms| - 1]; m.line <= n && |m.after| == Min(s.after, n - m.line)
  }

  /** A line that is shown behind the last match. */
  lemma AddAfter(ms: seq<Match>, path: string, lines: seq<string>, s: Style, n: nat, m': Match)
    requires ms != [] && n < |lines| && IsMerged(ms, path, lines, s, n) && Collected(ms, s, n)
    requires var m := ms[|ms| - 1]; |m.after| < s.after && m' == m.(after := m.after + [s.ctx(lines[n])])
    ensures var ms' := ms[|ms| - 1 := m'];
            IsMerged(ms', path, lines, s, n + 1) && Collected(ms', s, n + 1) && Emitted(ms') == n + 1
  {
    var k, m, ms' := |ms| - 1, ms[|ms| - 1], ms[|ms| - 1 := m'];
    assert m in ms && ms'[k] == m';
    forall x | x in ms' ensures x == m' || (x in ms && x.Last() < n + 1) {
    }
    assert m.Last() == n && IsNumbered(m', path, lines, s);
    SpansAfter(ms, s, n, m');
  }

  lemma SpansAfter(ms: seq<Match>, s: Style, n: nat, m': Match)
    requires ms != []
    requires var m := ms[|ms| - 1];
             && m'.line == m.line && m'.First() == m.First() && m'.Last() == m.Last() + 1 == n + 1
             && |m'.after| <= s.after
    requires forall l :: 1 <= l <= n ==> (InSpans(ms, l) <==> InWindows(ms, s, l))
    ensures var ms' := ms[|ms| - 1 := m'];
            forall l :: 1 <= l <= n + 1 ==> (InSpans(ms', l) <==> InWindows(ms', s, l))
  {
    var m, ms' := ms[|ms| - 1], ms[|ms| - 1 := m'];
    assert m' == ms'[|ms| - 1];
    forall l | 1 <= l <= n + 1 ensures InSpans(ms', l) <==> InWindows(ms', s, l) {
      if l == n + 1 {
        assert m' in ms' && m'.First() <= l <= m'.Last();
        assert m'.line - s.before <= l <= m'.line + s.after;
      } else {
        SameSpans(ms, m', l, n);
        SameWindows(ms, s, m', l);
      }
    }
  }

  lemma SameSpans(ms: seq<Match>, m': Match, l: int, n: nat)
    requires ms != [] && l <= n
    requires var m := ms[|ms| - 1]; m'.First() == m.First() && m'.Last() == m.Last() + 1 == n + 1
    ensures InSpans(ms[|ms| - 1 := m'], l) <==> InSpans(ms, l)
  {
    var k, ms' := |ms| - 1, ms[|ms| - 1 := m'];
    if InSpans(ms, l) {
      var x :| x in ms && x.First() <= l <= x.Last();
      var i :| 0 <= i < |ms| && ms[i] == x;
      assert ms'[i] in ms' && ms'[i].First() <= l <= ms'[i].Last();
    }
    if InSpans(ms', l) {
      var x :| x in ms' && x.First() <= l <= x.Last();
      var i :| 0 <= i < |ms'| && ms'[i] == x;
      assert ms[i] in ms && ms[i].First() <= l <= ms[i].Last();
    }
  }

  lemma SameWindows(ms: seq<Match>, s: Style, m': Match, l: int)
    requires ms != [] && m'.line == ms[|ms| - 1].line
    ensures InWindows(ms[|ms| - 1 := m'], s, l) <==> InWindows(ms, s, l)
  {
    var ms' := ms[|ms| - 1 := m'];
    if InWindows(ms, s, l) {
      var x :| x in ms && x.line - s.before <= l <= x.line + s.after;
      var i :| 0 <= i < |ms| && ms[i] == x;
      assert ms'[i] in ms' && ms'[i].line == x.line;
    }
    if InWindows(ms', s, l) {
      var x :| x in ms' && x.line - s.before <= l <= x.line + s.after;
      var i :| 0 <= i < |ms'| && ms'[i] == x;
      assert ms[i] in ms && ms[i].line == x.line;
    }
  }

  /** A line beyond every window is not shown. */
  lemma AddNothing(ms: seq<Match>, path: string, lines: seq<string>, s: Style, n: nat)
    requires n < |lines| && IsMerged(ms, path, lines, s, n) && Collected(ms, s, n)
    requires ms != [] ==> |ms[|ms| - 1].after| == s.after
    ensures IsMerged(ms, path, lines, s, n + 1) && Collected(ms, s, n + 1)
  {
    if ms != [] {
      var last := ms[|ms| - 1];
      assert last in ms;
      forall m | m in ms ensures m.line <= last.line {
        var i :| 0 <= i < |ms| && ms[i] == m;
        assert i < |ms| - 1 ==> ms[i].Last() < last.First();
      }
    }
  }

  /** A new match takes the lines before it that are in its window and not shown yet. */
  lemma AddMatch(ms: seq<Match>, path: string, lines: seq<string>, s: Style, n: nat, m: Match)
    requires n < |lines| && IsMerged(ms, path, lines, s, n) && Collected(ms, s, n)
    requires m.line == n + 1 && m.after == [] && IsNumbered(m, path, lines, s)
    requires |m.before| == n - Max(Max(Emitted(ms), n - s.before), 0)
    ensures IsMerged(ms + [m], path, lines, s, n + 1) && Collected(ms + [m], s, n + 1)
  {
    var ms' := ms + [m];
    forall i, j | 0 <= i < j < |ms'| ensures ms'[i].Last() < ms'[j].First() {
      if j == |ms| {
        assert ms[|ms| - 1].Last() <= Emitted(ms) < m.First();
        assert i < |ms| - 1 ==> ms[i].Last() < ms[|ms| - 1].First();
      }
    }
    forall x | x in ms' ensures IsNumbered(x, path, lines, s) && x.Last() <= n + 1 {
      assert x == m || x in ms;
    }
    forall l | 1 <= l <= n + 1 ensures InSpans(ms', l) <==> InWindows(ms', s, l) {
      NewSpans(ms, m, l);
      NewWindows(ms, s, m, l);
      if l <= n {
        Overlap(ms, path, lines, s, n, m, l);
      }
    }
  }

  lemma NewSpans(ms: seq<Match>, m: Match, l: int)
    ensures InSpans(ms + [m], l) <==> InSpans(ms, l) || m.First() <= l <= m.Last()
  {
    var ms' := ms + [m];
    assert m in ms';
    if InSpans(ms, l) {
      var x :| x in ms && x.First() <= l <= x.Last();
      assert x in ms';
    }
  }

  lemma NewWindows(ms: seq<Match>, s: Style, m: Match, l: int)
    ensures InWindows(ms + [m], s, l) <==> InWindows(ms, s, l) || m.line - s.before <= l <= m.line + s.after
  {
    var ms' := ms + [m];
    assert m in ms';
    if InWindows(ms, s, l) {
      var x :| x in ms && x.line - s.before <= l <= x.line + s.after;
      assert x in ms';
    }
  }

  /** The part of the new window that is already behind the last line shown was shown. */
  lemma Overlap(ms: seq<Match>, path: string, lines: seq<string>, s: Style, n: nat, m: Match, l: int)
    requires IsMerged(ms, path, lines, s, n) && Collected(ms, s, n) && m.line == n + 1 && 1 <= l <= n
    requires |m.before| == n - Max(Max(Emitted(ms), n - s.before), 0)
    ensures m.First() <= l ==> m.line - s.before <= l
    ensures m.line - s.before <= l < m.First() ==> InSpans(ms, l)
  {
    if m.line - s.before <= l < m.First() {
      var last := ms[|ms| - 1];
      assert last in ms && l <= last.Last();
      if l < last.line {
        assert last.line - s.before <= l <= last.line + s.after;
        assert InWindows(ms, s, l);
      }
    }
  }

  /** Asked for no context, no match carries any. */
  lemma NoContext(ms: seq<Match>, path: string, lines: seq<string>, s: Style, n: nat, m: Match)
    requires IsMerged(ms, path, lines, s, n) && s.before == 0 && s.after == 0 && m in ms
    ensures m.before == [] && m.after == []
  {
    var i :| 0 <= i < |ms| && ms[i] == m;
    var l := if m.before != [] then m.First() else m.Last();
    if l != m.line {
      assert IsNumbered(m, path, lines, s);
      assert InSpans(ms, l);
      var x :| x in ms && x.line <= l <= x.line;
      assert false;
    }
  }
}
