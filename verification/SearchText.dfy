/** The grep-style text of a search result: the line numbers it rebuilds, and the separators between groups. */
module SearchText {
  import opened Basics
  import opened SearchContext
  import opened Search

  /** A line of the text: a file header, a separator, a context line `n-text`, a matching line `n:text`. */
  datatype Row = FileRow(path: string) | GapRow | ContextRow(n: int, text: string) | HitRow(n: int, text: string)

  /** The rows of one match, numbered from its line number and the amount of context. */
  function MatchRows(m: Match): seq<Row> {
    seq(|m.before|, i requires 0 <= i < |m.before| => ContextRow(m.First() + i, m.before[i]))
    + [HitRow(m.line, m.content)]
    + seq(|m.after|, i requires 0 <= i < |m.after| => ContextRow(m.line + 1 + i, m.after[i]))
  }

  /** What stands before the rows of `m` when `file` and `last` are the file and the line shown last. */
  function Lead(m: Match, file: string, last: int, context: bool): seq<Row> {
    if m.file != file then [FileRow(m.file)] else if context && m.First() > last + 1 then [GapRow] else []
  }

  /** The rows of the matches from the `i`-th on. */
  function RowsFrom(ms: seq<Match>, i: nat, file: string, last: int, context: bool): seq<Row>
    requires i <= |ms|
    decreases |ms| - i
  {
    if i == |ms| then []
    else Lead(ms[i], file, last, context) + MatchRows(ms[i]) + RowsFrom(ms, i + 1, ms[i].file, ms[i].Last(), context)
  }

  method Render(ms: seq<Match>, context: bool) returns (rows: seq<Row>)
    ensures rows == RowsFrom(ms, 0, "", 0, context)
  {
    rows := [];
    var file, last := "", 0;
    ghost var goal := RowsFrom(ms, 0, "", 0, context);
    assert [] + goal == goal;
    for k := 0 to |ms|
      invariant goal == rows + RowsFrom(ms, k, file, last, context)
    {
      var m := ms[k];
      var first := m.line - |m.before|;
      var lead: seq<Row> := [];
      if m.file != file {
        lead := [FileRow(m.file)];
      } else if context && first > last + 1 {
        lead := [GapRow];
      }
      var body := WriteMatch(m, first);
      Reassoc4(rows, lead, body, RowsFrom(ms, k + 1, m.file, m.Last(), context));
      rows := rows + lead + body;
      file, last := m.file, m.line + |m.after|;
    }
    assert rows + [] == rows;
  }

  method WriteMatch(m: Match, first: int) returns (rows: seq<Row>)
    requires first == m.First()
    ensures rows == MatchRows(m)
  {
    rows := [];
    for i := 0 to |m.before|
      invariant rows == MatchRows(m)[..i]
    {
      rows := rows + [ContextRow(first + i, m.before[i])];
    }
    rows := rows + [HitRow(m.line, m.content)];
    for i := 0 to |m.after|
      invariant rows == MatchRows(m)[..|m.before| + 1 + i]
    {
      rows := rows + [ContextRow(m.line + 1 + i, m.after[i])];
    }
    assert MatchRows(m)[..|MatchRows(m)|] == MatchRows(m);
  }

  lemma Reassoc4<T>(a: seq<T>, b: seq<T>, c: seq<T>, d: seq<T>)
    ensures a + (b + c + d) == (a + b + c) + d
  {
  }

  // ----- reading the text -----

  /** Where a reader stands: before any line of the file, behind line `n`, or behind a separator after line `n`. */
  datatype Place = Fresh | Behind(n: int) | Apart(n: int)

  /**
   * A numbered line may come next: the following line, or after a separator one further on. Without context lines
   * only matches are shown.
   */
  predicate Continues(p: Place, n: int, context: bool) {
    match p
    case Fresh => true
    case Behind(l) => if context then n == l + 1 else n > l
    case Apart(l) => context && n > l + 1
  }

  /** Line `n` of a file of the tree at `path` reads `text`, shortened as a match or as context. */
  ghost predicate Stands(tree: seq<File>, s: Style, path: string, n: int, text: string, hit: bool) {
    exists f :: f in tree && f.path == path && 1 <= n <= |f.lines|
      && text == (if hit then s.hit else s.ctx)(f.lines[n - 1])
                && (hit ==> s.re(f.lines[n - 1]))
  }

  /**
   * The rows from the `j`-th on, read top to bottom under the header `path`: every numbered line is that line of the
   * file, numbers go up, and with context a separator stands exactly where lines are left out.
   */
  ghost predicate Reads(rows: seq<Row>, j: nat, path: string, p: Place, tree: seq<File>, s: Style, context: bool)
    requires j <= |rows|
    decreases |rows| - j
  {
    j == |rows| ||
    match rows[j]
    case FileRow(f) => Reads(rows, j + 1, f, Fresh, tree, s, context)
    case GapRow => p.Behind? && Reads(rows, j + 1, path, Apart(p.n), tree, s, context)
    case ContextRow(n, t) =>
      Continues(p, n, context) && Stands(tree, s, path, n, t, false)
        && Reads(rows, j + 1, path, Behind(n), tree, s, context)
    case HitRow(n, t) =>
      Continues(p, n, context) && Stands(tree, s, path, n, t, true)
        && Reads(rows, j + 1, path, Behind(n), tree, s, context)
  }

  /** The rows of one match in place, from the `i`-th of them on. */
  lemma {:induction false} MatchReads(rows: seq<Row>, j: nat, m: Match, i: nat, p: Place, tree: seq<File>, s: Style,
                                      context: bool)
    requires j + |MatchRows(m)| <= |rows| && i <= |MatchRows(m)| && rows[j..j + |MatchRows(m)|] == MatchRows(m)
    requires FromTree(m, tree, s)
    requires if i == 0 then Continues(p, m.First(), context) else p == Behind(m.First() + i - 1)
    requires context || (m.before == [] && m.after == [])
    requires Reads(rows, j + |MatchRows(m)|, m.file, Behind(m.Last()), tree, s, context)
    ensures Reads(rows, j + i, m.file, p, tree, s, context)
    decreases |MatchRows(m)| - i
  {
    var body := MatchRows(m);
    if i < |body| {
      assert rows[j + i] == rows[j..j + |body|][i] == body[i];
      RowStands(m, tree, s, i);
      MatchReads(rows, j, m, i + 1, Behind(m.First() + i), tree, s, context);
    }
  }

  lemma RowStands(m: Match, tree: seq<File>, s: Style, i: nat)
    requires FromTree(m, tree, s) && i < |MatchRows(m)|
    ensures match MatchRows(m)[i]
            case ContextRow(n, t) => n == m.First() + i && Stands(tree, s, m.file, n, t, false)
            case HitRow(n, t) => n == m.First() + i && Stands(tree, s, m.file, n, t, true)
            case _ => false
  {
    var f :| f in tree && IsNumbered(m, f.path, f.lines, s);
    assert f.path == m.file;
  }

  /** The text of matches in order reads true from the top. */
  lemma {:induction false} RowsRead(rows: seq<Row>, j: nat, ms: seq<Match>, i: nat, file: string, last: int, p: Place,
                                    tree: seq<File>, s: Style, context: bool)
    requires i <= |ms| && j <= |rows| && rows[j..] == RowsFrom(ms, i, file, last, context)
    requires InOrder(ms) && (forall m :: m in ms ==> FromTree(m, tree, s) && m.file != "")
    requires context || (forall m :: m in ms ==> m.before == [] && m.after == [])
    requires if i == 0 then file == "" else file == ms[i - 1].file && last == ms[i - 1].Last() && p == Behind(last)
    ensures Reads(rows, j, file, p, tree, s, context)
    decreases |ms| - i
  {
    hide MatchRows, FromTree, Reads;
    if i == |ms| {
      ReadsEnd(rows, j, file, p, tree, s, context);
    } else {
      var m := ms[i];
      var lead, body := Lead(m, file, last, context), MatchRows(m);
      var k := j + |lead|;
      assert m in ms;
      RowsSplit(rows, j, lead, body, RowsFrom(ms, i + 1, m.file, m.Last(), context));
      RowsRead(rows, k + |body|, ms, i + 1, m.file, m.Last(), Behind(m.Last()), tree, s, context);
      NextContinues(ms, i, context);
      hide RowsFrom, InOrder;
      var p' := if m.file != file then Fresh else if context && m.First() > last + 1 then Apart(last) else p;
      MatchReads(rows, k, m, 0, p', tree, s, context);
      LeadReads(rows, j, m, file, last, p, tree, s, context);
    }
  }

  lemma ReadsEnd(rows: seq<Row>, j: nat, path: string, p: Place, tree: seq<File>, s: Style, context: bool)
    requires j == |rows|
    ensures Reads(rows, j, path, p, tree, s, context)
  {
  }

  lemma NextContinues(ms: seq<Match>, i: nat, context: bool)
    requires InOrder(ms) && i < |ms|
    ensures i > 0 && ms[i - 1].file == ms[i].file ==> ms[i - 1].Last() < ms[i].First()
  {
  }

  lemma LeadReads(rows: seq<Row>, j: nat, m: Match, file: string, last: int, p: Place, tree: seq<File>, s: Style,
                  context: bool)
    requires var lead := Lead(m, file, last, context); j + |lead| <= |rows| && (lead != [] ==> rows[j] == lead[0])
    requires m.file == file ==> p == Behind(last)
    requires var p' := if m.file != file then Fresh else if context && m.First() > last + 1 then Apart(last) else p;
             Reads(rows, j + |Lead(m, file, last, context)|, m.file, p', tree, s, context)
    ensures Reads(rows, j, file, p, tree, s, context)
  {
  }

  lemma RowsSplit(rows: seq<Row>, j: nat, lead: seq<Row>, body: seq<Row>, rest: seq<Row>)
    requires j <= |rows| && rows[j..] == lead + body + rest
    ensures var k := j + |lead|;
            && k + |body| <= |rows| && rows[k..k + |body|] == body && rows[k + |body|..] == rest
            && (lead != [] ==> rows[j] == lead[0])
  {
    var t, k := rows[j..], j + |lead|;
    assert rows[k..k + |body|] == t[|lead|..|lead| + |body|];
    assert rows[k + |body|..] == t[|lead| + |body|..];
    assert lead != [] ==> rows[j] == t[0];
  }

  /** Matches in order and true to the files have a text with true line numbers. */
  lemma TextIsTrue(ms: seq<Match>, tree: seq<File>, s: Style, context: bool)
    requires InOrder(ms) && (forall m :: m in ms ==> FromTree(m, tree, s)) && (forall f :: f in tree ==> f.path != "")
    requires context || (forall m :: m in ms ==> m.before == [] && m.after == [])
    ensures Reads(RowsFrom(ms, 0, "", 0, context), 0, "", Fresh, tree, s, context)
  {
    var rows := RowsFrom(ms, 0, "", 0, context);
    forall m | m in ms ensures m.file != "" {
      var f :| f in tree && IsNumbered(m, f.path, f.lines, s);
    }
    assert rows[0..] == rows;
    RowsRead(rows, 0, ms, 0, "", 0, Fresh, tree, s, context);
  }

  // ----- nothing is left out -----

  /** A numbered line under its header. */
  datatype Line = Line(path: string, n: int, text: string, hit: bool)

  /** What a reader finds in the rows from the `j`-th on, under the header `path`. */
  function Printed(rows: seq<Row>, j: nat, path: string): seq<Line>
    requires j <= |rows|
    decreases |rows| - j
  {
    if j == |rows| then []
    else match rows[j]
      case FileRow(f) => Printed(rows, j + 1, f)
      case GapRow => Printed(rows, j + 1, path)
      case ContextRow(n, t) => [Line(path, n, t, false)] + Printed(rows, j + 1, path)
      case HitRow(n, t) => [Line(path, n, t, true)] + Printed(rows, j + 1, path)
  }

  /** The lines shown with a match: one after the other, the match itself behind the context before it. */
  function ShownWith(m: Match): seq<Line> {
    var b := |m.before|;
    seq(b + 1 + |m.after|, i requires 0 <= i < b + 1 + |m.after| =>
      Line(m.file, m.First() + i, if i < b then m.before[i] else if i == b then m.content else m.after[i - b - 1],
           i == b))
  }

  function ShownFrom(ms: seq<Match>, i: nat): seq<Line>
    requires i <= |ms|
    decreases |ms| - i
  {
    if i == |ms| then [] else ShownWith(ms[i]) + ShownFrom(ms, i + 1)
  }

  /** The matching lines among `lines`, as results of a search. */
  function Hits(lines: seq<Line>, i: nat): seq<Item>
    requires i <= |lines|
    decreases |lines| - i
  {
    if i == |lines| then []
    else (if lines[i].hit && lines[i].n >= 0 then [LineItem(lines[i].path, lines[i].n, lines[i].text)] else [])
         + Hits(lines, i + 1)
  }

  lemma {:induction false} MatchPrinted(rows: seq<Row>, j: nat, m: Match, i: nat)
    requires j + |MatchRows(m)| <= |rows| && i <= |MatchRows(m)| && rows[j..j + |MatchRows(m)|] == MatchRows(m)
    ensures Printed(rows, j + i, m.file) == ShownWith(m)[i..] + Printed(rows, j + |MatchRows(m)|, m.file)
    decreases |MatchRows(m)| - i
  {
    hide Printed;
    var body := MatchRows(m);
    if i < |body| {
      assert rows[j + i] == rows[j..j + |body|][i] == body[i];
      MatchPrinted(rows, j, m, i + 1);
      RowPrinted(rows, j + i, m, i);
      DropCons(ShownWith(m), i);
      Reassoc([ShownWith(m)[i]], ShownWith(m)[i + 1..], Printed(rows, j + |body|, m.file));
    }
  }

  lemma RowPrinted(rows: seq<Row>, j: nat, m: Match, i: nat)
    requires j < |rows| && i < |MatchRows(m)| == |ShownWith(m)| && rows[j] == MatchRows(m)[i]
    ensures Printed(rows, j, m.file) == [ShownWith(m)[i]] + Printed(rows, j + 1, m.file)
  {
    var l, b := ShownWith(m)[i], |m.before|;
    assert l.n == m.First() + i && m.First() + b == m.line;
    assert rows[j] == if l.hit then HitRow(l.n, l.text) else ContextRow(l.n, l.text);
  }

  lemma LeadPrinted(rows: seq<Row>, j: nat, m: Match, file: string, last: int, context: bool)
    requires var lead := Lead(m, file, last, context); j + |lead| <= |rows| && (lead != [] ==> rows[j] == lead[0])
    ensures Printed(rows, j, file) == Printed(rows, j + |Lead(m, file, last, context)|, m.file)
  {
  }

  lemma {:induction false} AllPrinted(rows: seq<Row>, j: nat, ms: seq<Match>, i: nat, file: string, last: int,
                                      context: bool)
    requires i <= |ms| && j <= |rows| && rows[j..] == RowsFrom(ms, i, file, last, context)
    ensures Printed(rows, j, file) == ShownFrom(ms, i)
    decreases |ms| - i
  {
    hide MatchRows, ShownWith;
    if i < |ms| {
      var m := ms[i];
      var lead, body := Lead(m, file, last, context), MatchRows(m);
      var k := j + |lead|;
      RowsSplit(rows, j, lead, body, RowsFrom(ms, i + 1, m.file, m.Last(), context));
      AllPrinted(rows, k + |body|, ms, i + 1, m.file, m.Last(), context);
      hide RowsFrom;
      LeadPrinted(rows, j, m, file, last, context);
      MatchPrinted(rows, k, m, 0);
      assert ShownWith(m)[0..] == ShownWith(m);
    }
  }

  lemma {:induction false} HitsConcat(x: seq<Line>, y: seq<Line>, i: nat)
    requires i <= |x|
    ensures Hits(x + y, i) == Hits(x, i) + Hits(y, 0)
    decreases |x| - i
  {
    if i == |x| {
      HitsShift(x, y, 0);
    } else {
      HitsConcat(x, y, i + 1);
    }
  }

  lemma {:induction false} HitsShift(x: seq<Line>, y: seq<Line>, i: nat)
    requires i <= |y|
    ensures Hits(x + y, |x| + i) == Hits(y, i)
    decreases |y| - i
  {
    if i < |y| {
      HitsShift(x, y, i + 1);
    }
  }

  /** Of the lines shown with a match one is a result. */
  lemma {:induction false} OneHit(m: Match, i: nat)
    requires i <= |ShownWith(m)|
    ensures Hits(ShownWith(m), i) == if i <= |m.before| then [ItemOf(m)] else []
    decreases |ShownWith(m)| - i
  {
    if i < |ShownWith(m)| {
      OneHit(m, i + 1);
      var l := ShownWith(m)[i];
      assert l.hit <==> i == |m.before|;
      assert l.n == m.First() + i && m.First() + |m.before| == m.line;
      assert l.hit ==> l == Line(m.file, m.line, m.content, true);
    }
  }

  lemma {:induction false} HitsShown(ms: seq<Match>, i: nat)
    requires i <= |ms|
    ensures Hits(ShownFrom(ms, i), 0) == MatchItems(ms)[i..]
    decreases |ms| - i
  {
    if i < |ms| {
      HitsConcat(ShownWith(ms[i]), ShownFrom(ms, i + 1), 0);
      OneHit(ms[i], 0);
      HitsShown(ms, i + 1);
      hide Hits, ShownWith;
      DropCons(MatchItems(ms), i);
    }
  }

  /** The text of matches shows everything they carry, each line once and in order, and nothing else. */
  lemma TextIsWhole(ms: seq<Match>, context: bool)
    ensures Printed(RowsFrom(ms, 0, "", 0, context), 0, "") == ShownFrom(ms, 0)
    ensures Hits(Printed(RowsFrom(ms, 0, "", 0, context), 0, ""), 0) == MatchItems(ms)
  {
    var rows := RowsFrom(ms, 0, "", 0, context);
    assert rows[0..] == rows && MatchItems(ms)[0..] == MatchItems(ms);
    AllPrinted(rows, 0, ms, 0, "", 0, context);
    HitsShown(ms, 0);
  }

  /**
   * Whatever a search returns, with context or without: its text shows true line numbers, exactly the lines shown with
   * the matches under their paths, and as matching lines exactly the results of the page.
   */
  method SearchAndRender(tree: seq<File>, o: Opts) returns (rows: seq<Row>, truncated: bool)
    requires ValidOpts(o) && o.mode == ContentMode && DistinctPaths(tree) && forall f :: f in tree ==> f.path != ""
    ensures Reads(rows, 0, "", Fresh, tree, o.style, o.style.before > 0 || o.style.after > 0)
    ensures exists parts, ms ::
              && ShownOf(parts, ms, tree, o, truncated) && Printed(rows, 0, "") == ShownFrom(ms, 0)
              && IsPage(ms, [], truncated, tree, o) && IsFilled(ms, [], truncated, o)
    ensures var hits, all, from := Hits(Printed(rows, 0, ""), 0), AllItems(tree, o), Min(o.skip, |AllItems(tree, o)|);
            && from + |hits| <= |all| && hits == all[from..from + |hits|] && (truncated <==> from + |hits| < |all|)
  {
    hide Reads, RowsFrom, ShownOf, InOrder, FromTree, AllItems, MatchItems, IsFilled, Printed, Hits, ShownFrom;
    var r := new Run(o);
    r.SearchTree(tree);
    var context := o.style.before > 0 || o.style.after > 0;
    rows := Render(r.matches, context);
    truncated := r.stopped;
    ghost var parts :| ShownOf(parts, r.matches, tree, o, r.stopped);
    if !context {
      ShownJoined(parts, r.matches, tree, o, r.stopped);
      NoContextShown(parts, r.matches, tree, o, r.stopped, |parts|);
    }
    TextIsTrue(r.matches, tree, o.style, context);
    TextIsWhole(r.matches, context);
    r.PageDone(tree);
    OnlyMatches(r.matches, r.files, r.stopped, tree, o);
  }

  lemma OnlyMatches(ms: seq<Match>, hs: seq<FileHit>, truncated: bool, tree: seq<File>, o: Opts)
    requires o.mode == ContentMode && IsPage(ms, hs, truncated, tree, o) && IsFilled(ms, hs, truncated, o)
    ensures IsPage(ms, [], truncated, tree, o) && IsFilled(ms, [], truncated, o)
    ensures PageItems(o.mode, ms, hs) == MatchItems(ms)
  {
  }

  lemma ShownJoined(parts: seq<Part>, ms: seq<Match>, tree: seq<File>, o: Opts, stopped: bool)
    requires ShownOf(parts, ms, tree, o, stopped)
    ensures ms == Joined(parts, |parts|)
  {
  }
}
