/** Splitting text into diff lines, and what that forgets: line endings and the final newline. */
module DiffText {
  import opened Patch

  function TrimNewline(s: string): string {
    if s != "" && s[|s| - 1] == '\n' then s[..|s| - 1] else s
  }

  function TrimReturn(s: string): string {
    if s != "" && s[|s| - 1] == '\r' then s[..|s| - 1] else s
  }

  /** The pieces of `s` between its newlines. */
  function Split(s: string): (ls: seq<string>)
    ensures ls != []
    decreases |s|
  {
    var n := LineEnd(s);
    if n == |s| then [s] else [s[..n]] + Split(s[n + 1..])
  }

  /** The lines of a text; a newline at its very end closes the last line. */
  function DiffLines(s: string): seq<string> {
    if s == "" then [] else TrimAll(Split(TrimNewline(s)))
  }

  function TrimAll(ls: seq<string>): seq<string> {
    seq(|ls|, i requires 0 <= i < |ls| => TrimReturn(ls[i]))
  }

  method SplitDiffLines(s: string) returns (lines: seq<string>)
    ensures lines == DiffLines(s)
    ensures forall k :: 0 <= k < |lines| ==> '\n' !in lines[k]
  {
    DiffLinesClean(s);
    if s == "" {
      return [];
    }
    ghost var raw := Split(TrimNewline(s));
    lines := Split(TrimNewline(s));
    for i := 0 to |lines|
      invariant |lines| == |raw|
      invariant forall k :: 0 <= k < |raw| ==> lines[k] == if k < i then TrimReturn(raw[k]) else raw[k]
    {
      lines := lines[i := TrimReturn(lines[i])];
    }
  }

  lemma {:induction false} SplitClean(s: string)
    ensures forall k :: 0 <= k < |Split(s)| ==> '\n' !in Split(s)[k]
    decreases |s|
  {
    var n := LineEnd(s);
    if n < |s| {
      SplitClean(s[n + 1..]);
    }
  }

  lemma DiffLinesClean(s: string)
    ensures forall k :: 0 <= k < |DiffLines(s)| ==> '\n' !in DiffLines(s)[k]
  {
    if s != "" {
      SplitClean(TrimNewline(s));
    }
  }

  /**
   * The text with each line ended by a bare newline: a return before a newline or at the end goes, a missing final
   * newline comes.
   */
  function Normalize(s: string): string {
    if s == "" then ""
    else if s == "\n" || s == "\r" then "\n"
    else if |s| == 1 then s + "\n"
    else if s[..2] == "\r\n" then Normalize(s[1..])
    else [s[0]] + Normalize(s[1..])
  }

  function JoinLines(ls: seq<string>): string {
    if ls == [] then "" else ls[0] + "\n" + JoinLines(ls[1..])
  }

  lemma NormalizeCons(c: char, t: string)
    requires t != "" && !(c == '\r' && t[0] == '\n')
    ensures Normalize([c] + t) == [c] + Normalize(t)
  {
    var s := [c] + t;
    assert s[1..] == t && s[..2] == [c, t[0]];
  }

  lemma NormalizeCrLf(t: string)
    requires t != "" && t[0] == '\n'
    ensures Normalize(['\r'] + t) == Normalize(t)
  {
    var s := ['\r'] + t;
    assert s[1..] == t && s[..2] == ['\r', '\n'];
  }

  lemma NormalizeNewline(rest: string)
    requires rest != "" && rest[0] == '\n'
    ensures Normalize(rest) == "\n" + Normalize(rest[1..])
  {
    if |rest| == 1 {
      assert rest == "\n" && rest[1..] == "";
    } else {
      NormalizeCons('\n', rest[1..]);
      assert rest == ['\n'] + rest[1..];
    }
  }

  lemma TrimReturnCons(c: char, l: string)
    requires l != ""
    ensures TrimReturn([c] + l) == [c] + TrimReturn(l)
  {
  }

  /** A line followed by a newline. */
  lemma {:induction false} NormalizeLine(l: string, rest: string)
    requires '\n' !in l && rest != "" && rest[0] == '\n'
    ensures Normalize(l + rest) == TrimReturn(l) + Normalize(rest)
    decreases |l|
  {
    if l == "" {
      assert l + rest == rest;
    } else if |l| == 1 {
      assert l == [l[0]];
      if l[0] == '\r' {
        NormalizeCrLf(rest);
      } else {
        NormalizeCons(l[0], rest);
      }
    } else {
      var l' := l[1..];
      assert l == [l[0]] + l';
      assert l + rest == [l[0]] + (l' + rest);
      NormalizeCons(l[0], l' + rest);
      NormalizeLine(l', rest);
      TrimReturnCons(l[0], l');
    }
  }

  /** A last line without a newline. */
  lemma {:induction false} NormalizeTail(l: string)
    requires '\n' !in l && l != ""
    ensures Normalize(l) == TrimReturn(l) + "\n"
    decreases |l|
  {
    if |l| > 1 {
      var l' := l[1..];
      assert l == [l[0]] + l';
      NormalizeCons(l[0], l');
      NormalizeTail(l');
      TrimReturnCons(l[0], l');
    }
  }

  lemma SplitCons(l: string, rest: string)
    requires '\n' !in l
    ensures Split(l + "\n" + rest) == [l] + Split(rest)
  {
    var t := l + "\n" + rest;
    LineEndAt(t, |l|);
    assert t[..|l|] == l && t[|l| + 1..] == rest;
  }

  lemma TrimNewlineCons(l: string, rest: string)
    requires rest != ""
    ensures TrimNewline(l + "\n" + rest) == l + "\n" + TrimNewline(rest)
  {
  }

  lemma DiffLinesCons(l: string, rest: string)
    requires '\n' !in l && rest != ""
    ensures DiffLines(l + "\n" + rest) == [TrimReturn(l)] + DiffLines(rest)
  {
    TrimNewlineCons(l, rest);
    SplitCons(l, TrimNewline(rest));
    TrimAllCons(l, Split(TrimNewline(rest)));
    assert l + "\n" + rest != "";
  }

  lemma TrimAllCons(l: string, ls: seq<string>)
    ensures TrimAll([l] + ls) == [TrimReturn(l)] + TrimAll(ls)
  {
  }

  lemma DiffLinesLast(l: string, s: string)
    requires '\n' !in l && s != "" && (s == l || s == l + "\n")
    ensures DiffLines(s) == [TrimReturn(l)]
  {
    assert TrimNewline(s) == l;
    NoNewlineEnd(l);
  }

  lemma NoNewlineEnd(l: string)
    requires '\n' !in l
    ensures LineEnd(l) == |l|
  {
  }

  lemma JoinLinesCons(l: string, ls: seq<string>)
    ensures JoinLines([l] + ls) == l + "\n" + JoinLines(ls)
  {
    assert ([l] + ls)[1..] == ls;
  }

  lemma CutLine(s: string) returns (l: string, rest: string)
    requires '\n' in s
    ensures s == l + "\n" + rest && '\n' !in l
  {
    var n := LineEnd(s);
    l, rest := s[..n], s[n + 1..];
    assert s == s[..n] + [s[n]] + s[n + 1..];
  }

  /** The lines of a text carry exactly its normal form. */
  lemma {:induction false} LinesAreNormalForm(s: string)
    ensures JoinLines(DiffLines(s)) == Normalize(s)
    decreases |s|
  {
    if '\n' in s {
      var l, rest := CutLine(s);
      TerminatedLine(l, rest);
      LinesAreNormalForm(rest);
    } else if s != "" {
      LastLine(s);
    }
  }

  lemma LastLine(s: string)
    requires '\n' !in s && s != ""
    ensures JoinLines(DiffLines(s)) == Normalize(s)
  {
    NormalizeTail(s);
    DiffLinesLast(s, s);
    JoinLinesCons(TrimReturn(s), []);
    assert [TrimReturn(s)] + [] == [TrimReturn(s)];
  }

  lemma TerminatedLine(l: string, rest: string)
    requires '\n' !in l
    ensures Normalize(l + "\n" + rest) == TrimReturn(l) + "\n" + Normalize(rest)
    ensures JoinLines(DiffLines(l + "\n" + rest)) == TrimReturn(l) + "\n" + JoinLines(DiffLines(rest))
  {
    assert l + "\n" + rest == l + ("\n" + rest);
    NormalizeLine(l, "\n" + rest);
    NormalizeNewline("\n" + rest);
    assert ("\n" + rest)[1..] == rest;
    if rest == "" {
      assert l + "\n" + rest == l + "\n";
      DiffLinesLast(l, l + "\n");
      assert [TrimReturn(l)] + [] == [TrimReturn(l)];
    } else {
      DiffLinesCons(l, rest);
    }
    JoinLinesCons(TrimReturn(l), DiffLines(rest));
  }

  lemma {:induction false} JoinLinesInjective(x: seq<string>, y: seq<string>)
    requires forall k :: 0 <= k < |x| ==> '\n' !in x[k]
    requires forall k :: 0 <= k < |y| ==> '\n' !in y[k]
    requires JoinLines(x) == JoinLines(y)
    ensures x == y
    decreases |x|
  {
    if x != [] && y != [] {
      var s := JoinLines(x);
      LineEndAt(s, |x[0]|);
      LineEndAt(s, |y[0]|);
      assert s[..|x[0]|] == x[0] && s[..|y[0]|] == y[0];
      assert s[|x[0]| + 1..] == JoinLines(x[1..]) && s[|y[0]| + 1..] == JoinLines(y[1..]);
      JoinLinesInjective(x[1..], y[1..]);
      assert x == [x[0]] + x[1..] && y == [y[0]] + y[1..];
    }
  }

  /** Two texts have the same lines exactly when only line endings or the final newline differ. */
  lemma SameLinesIff(s: string, t: string)
    ensures DiffLines(s) == DiffLines(t) <==> Normalize(s) == Normalize(t)
  {
    LinesAreNormalForm(s);
    LinesAreNormalForm(t);
    DiffLinesClean(s);
    DiffLinesClean(t);
    if Normalize(s) == Normalize(t) {
      JoinLinesInjective(DiffLines(s), DiffLines(t));
    }
  }
}
