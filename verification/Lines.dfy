/** Lines of a stretch of bytes: each runs up to and including its newline; the last one may lack it. */
module Lines {
  import opened Basics
  import opened Bytes

  /** The end of the line that starts at `i`, within `s[..j]`. */
  function Eol(s: seq<byte>, i: nat, j: nat): (n: nat)
    requires i < j <= |s|
    ensures i < n <= j
    ensures forall k :: i <= k < n - 1 ==> s[k] != NL
    ensures n < j ==> s[n - 1] == NL
    decreases j - i
  {
    if s[i] == NL || i + 1 == j then i + 1 else Eol(s, i + 1, j)
  }

  /** The lines of `s[i..j]`. */
  function LinesIn(s: seq<byte>, i: nat, j: nat): seq<seq<byte>>
    requires i <= j <= |s|
    decreases j - i
  {
    if i == j then [] else [s[i..Eol(s, i, j)]] + LinesIn(s, Eol(s, i, j), j)
  }

  lemma NoLines(s: seq<byte>, i: nat, j: nat)
    requires i <= j <= |s|
    ensures LinesIn(s, i, j) == [] <==> i == j
  {
  }

  function LinesOf(s: seq<byte>): seq<seq<byte>> { LinesIn(s, 0, |s|) }

  /** A line of a text starts at `i`. */
  predicate LineStart(s: seq<byte>, i: nat)
    requires i <= |s|
  {
    i == 0 || s[i - 1] == NL
  }

  /** The newlines of `s[i..j]`. */
  function Newlines(s: seq<byte>, i: nat, j: nat): nat
    requires i <= j <= |s|
    decreases j - i
  {
    if i == j then 0 else Newlines(s, i, j - 1) + (if s[j - 1] == NL then 1 else 0)
  }

  /** The number of lines of `s[i..j]`; an unterminated last one included. */
  function LineCount(s: seq<byte>, i: nat, j: nat): nat
    requires i <= j <= |s|
  {
    Newlines(s, i, j) + (if i < j && s[j - 1] != NL then 1 else 0)
  }

  function Flatten(ls: seq<seq<byte>>): seq<byte> {
    if ls == [] then [] else ls[0] + Flatten(ls[1..])
  }

  /** The line that starts at `i` ends at the first newline, wherever the stretch ends. */
  lemma {:induction false} EolAt(s: seq<byte>, i: nat, n: nat, j: nat)
    requires i < n <= j <= |s| && (forall k :: i <= k < n - 1 ==> s[k] != NL) && (s[n - 1] == NL || n == j)
    ensures Eol(s, i, j) == n
    decreases n - i
  {
    if i + 1 < n {
      EolAt(s, i + 1, n, j);
    }
  }

  /** At a line start the lines split. */
  lemma {:induction false} LinesConcat(s: seq<byte>, i: nat, m: nat, j: nat)
    requires i <= m <= j <= |s| && (m == i || s[m - 1] == NL)
    ensures LinesIn(s, i, j) == LinesIn(s, i, m) + LinesIn(s, m, j)
    decreases m - i
  {
    if i < m {
      var n := Eol(s, i, m);
      EolAt(s, i, n, j);
      LinesConcat(s, n, m, j);
      Reassoc([s[i..n]], LinesIn(s, n, m), LinesIn(s, m, j));
    }
  }

  /** The lines are the text. */
  lemma {:induction false} FlattenLines(s: seq<byte>, i: nat, j: nat)
    requires i <= j <= |s|
    ensures Flatten(LinesIn(s, i, j)) == s[i..j]
    decreases j - i
  {
    if i < j {
      var n := Eol(s, i, j);
      FlattenLines(s, n, j);
      Glue(s, i, n, j);
      assert LinesIn(s, i, j)[1..] == LinesIn(s, n, j);
    }
  }

  lemma {:induction false} NewlinesConcat(s: seq<byte>, i: nat, m: nat, j: nat)
    requires i <= m <= j <= |s|
    ensures Newlines(s, i, j) == Newlines(s, i, m) + Newlines(s, m, j)
    decreases j - m
  {
    if m < j {
      NewlinesConcat(s, i, m, j - 1);
    }
  }

  lemma {:induction false} NewlinesOfLine(s: seq<byte>, i: nat, j: nat)
    requires i <= j <= |s| && forall k :: i <= k < j ==> s[k] != NL
    ensures Newlines(s, i, j) == 0
    decreases j - i
  {
    if i < j {
      NewlinesOfLine(s, i, j - 1);
    }
  }

  /** Counting newlines counts lines. */
  lemma {:induction false} CountIsLines(s: seq<byte>, i: nat, j: nat)
    requires i <= j <= |s|
    ensures |LinesIn(s, i, j)| == LineCount(s, i, j)
    decreases j - i
  {
    if i < j {
      var n := Eol(s, i, j);
      CountIsLines(s, n, j);
      NewlinesConcat(s, i, n, j);
      NewlinesOfLine(s, i, n - 1);
    }
  }

  /** Dropping the first line drops one line. */
  lemma CountDrop(s: seq<byte>, i: nat, j: nat)
    requires i < j <= |s|
    ensures LineCount(s, Eol(s, i, j), j) == LineCount(s, i, j) - 1
  {
    CountIsLines(s, i, j);
    CountIsLines(s, Eol(s, i, j), j);
  }

  /** Lines do not depend on what surrounds the stretch. */
  lemma {:induction false} EolShift(s: seq<byte>, x: nat, y: nat, i: nat, j: nat)
    requires x <= y <= |s| && i < j <= y - x
    ensures x + Eol(s[x..y], i, j) == Eol(s, x + i, x + j)
    decreases j - i
  {
    if s[x + i] != NL && i + 1 < j {
      EolShift(s, x, y, i + 1, j);
    }
  }

  lemma LinesStep(s: seq<byte>, i: nat, j: nat)
    requires i <= j <= |s|
    ensures LinesIn(s, i, j) == if i == j then [] else [s[i..Eol(s, i, j)]] + LinesIn(s, Eol(s, i, j), j)
  {
  }

  lemma {:induction false} LinesShift(s: seq<byte>, x: nat, y: nat, i: nat, j: nat)
    requires x <= y <= |s| && i <= j <= y - x
    ensures LinesIn(s[x..y], i, j) == LinesIn(s, x + i, x + j)
    decreases j - i
  {
    hide LinesIn, Eol;
    LinesStep(s[x..y], i, j);
    LinesStep(s, x + i, x + j);
    if i < j {
      EolShift(s, x, y, i, j);
      var n := Eol(s[x..y], i, j);
      SliceOfSlice(s, x, y, i, n);
      LinesShift(s, x, y, n, j);
    }
  }

  lemma LinesOfSlice(s: seq<byte>, x: nat, y: nat)
    requires x <= y <= |s|
    ensures LinesOf(s[x..y]) == LinesIn(s, x, y)
  {
    hide LinesIn;
    LinesShift(s, x, y, 0, y - x);
  }

  /** The last `n` of a list, or all of it. */
  function LastN<T>(ls: seq<T>, n: nat): seq<T> {
    if n <= |ls| then ls[|ls| - n..] else ls
  }

  /** A line without its line ending. */
  function TrimEnd(line: seq<byte>): seq<byte> {
    if line != [] && (line[|line| - 1] == NL || line[|line| - 1] == 13) then TrimEnd(line[..|line| - 1]) else line
  }
}
