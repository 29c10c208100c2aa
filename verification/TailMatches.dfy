/** The last matching lines of a log, found by scanning backwards from its end. */
module TailMatches {
  import opened Basics
  import opened Bytes
  import opened Lines
  import opened Encodings

  /** Why the scan stopped short. */
  datatype Cut = Complete | ByteLimit | ScanLimit

  datatype Result = BinaryLog | Matches(lines: seq<string>, startOffset: nat, cut: Cut, enc: Encoding)

  /** How a line is shown and judged: decoded from its bytes without line ending, and matched. */
  datatype Filter = Filter(decode: (seq<byte>, Encoding) -> string, matches: string -> bool)

  function Text(f: Filter, enc: Encoding, line: seq<byte>): string { f.decode(TrimEnd(line), enc) }

  /** The forward filter: the texts of the matching lines, in file order. */
  function Matching(f: Filter, enc: Encoding, ls: seq<seq<byte>>): seq<string> {
    if ls == [] then []
    else (if f.matches(Text(f, enc, ls[0])) then [Text(f, enc, ls[0])] else []) + Matching(f, enc, ls[1..])
  }

  /** The matching lines from position `i` on. */
  function MatchingFrom(f: Filter, enc: Encoding, file: seq<byte>, i: nat): seq<string>
    requires i <= |file|
  {
    Matching(f, enc, LinesIn(file, i, |file|))
  }

  function Reversed<T>(s: seq<T>): (r: seq<T>)
    ensures |r| == |s|
  {
    if s == [] then [] else Reversed(s[1..]) + [s[0]]
  }

  lemma {:induction false} ReversedSnoc<T>(s: seq<T>, x: T)
    ensures Reversed(s + [x]) == [x] + Reversed(s)
  {
    if s == [] {
      assert s + [x] == [x] && [x][1..] == [];
    } else {
      ReversedSnoc(s[1..], x);
      assert (s + [x])[1..] == s[1..] + [x];
      Reassoc([x], Reversed(s[1..]), [s[0]]);
    }
  }

  /** The bytes of lines joined by newlines, one more. */
  function JoinedLen(ls: seq<string>): nat {
    if ls == [] then 0 else |ls[0]| + 1 + JoinedLen(ls[1..])
  }

  lemma {:induction false} MatchingConcat(f: Filter, enc: Encoding, x: seq<seq<byte>>, y: seq<seq<byte>>)
    ensures Matching(f, enc, x + y) == Matching(f, enc, x) + Matching(f, enc, y)
    decreases |x|
  {
    if x == [] {
      assert x + y == y;
    } else {
      MatchingConcat(f, enc, x[1..], y);
      assert (x + y)[1..] == x[1..] + y;
      Reassoc(if f.matches(Text(f, enc, x[0])) then [Text(f, enc, x[0])] else [], Matching(f, enc, x[1..]),
        Matching(f, enc, y));
    }
  }

  /** A place between lines: a line start or the end of the file. */
  predicate Between(file: seq<byte>, i: nat) {
    i <= |file| && (i == |file| || LineStart(file, i))
  }

  /** From any place between lines on, the matches are the last ones of the whole file. */
  lemma MatchingSuffix(f: Filter, enc: Encoding, file: seq<byte>, i: nat)
    requires Between(file, i)
    ensures MatchingFrom(f, enc, file, 0) == Matching(f, enc, LinesIn(file, 0, i)) + MatchingFrom(f, enc, file, i)
  {
    hide LinesIn;
    if i < |file| {
      LinesConcat(file, 0, i, |file|);
    } else {
      NoLines(file, i, |file|);
      assert LinesIn(file, 0, i) + [] == LinesIn(file, 0, i);
    }
    MatchingConcat(f, enc, LinesIn(file, 0, i), LinesIn(file, i, |file|));
  }

  /** One line further back. */
  lemma OneLineBack(f: Filter, enc: Encoding, file: seq<byte>, p: nat, end: nat)
    requires p < end && Between(file, p) && Between(file, end) && forall k :: p <= k < end - 1 ==> file[k] != NL
    ensures MatchingFrom(f, enc, file, p) ==
              (if f.matches(Text(f, enc, file[p..end])) then [Text(f, enc, file[p..end])] else [])
                + MatchingFrom(f, enc, file, end)
  {
    EolAt(file, p, end, |file|);
    assert LinesIn(file, p, |file|)[1..] == LinesIn(file, end, |file|);
  }

  /**
   * The scan so far: `found`, newest first, are the matches from `done` on; everything from `end` on has been looked
   * at.
   */
  ghost predicate Scanned(f: Filter, enc: Encoding, file: seq<byte>, n: nat, maxBytes: int,
                          done: nat, end: nat, found: seq<string>, start: nat, cut: Cut) {
    && Between(file, done) && Between(file, end) && end <= done
    && Reversed(found) == MatchingFrom(f, enc, file, done) && |found| <= n
    && (cut != ByteLimit ==> end == done)
    && (found != [] ==> JoinedLen(found) <= maxBytes + 1)
    && (if found == [] then start == |file|
        else Between(file, start) && done <= start < |file| && FirstAt(f, enc, file, start, found))
    && (cut == ByteLimit ==> |found| < n && end < done && StoppedBy(f, enc, file, end, done, found, maxBytes))
  }

  /** The matches start with the line at `start`. */
  ghost predicate FirstAt(f: Filter, enc: Encoding, file: seq<byte>, start: nat, found: seq<string>) {
    && Between(file, start) && start < |file|
    && f.matches(Text(f, enc, file[start..Eol(file, start, |file|)]))
    && Reversed(found) == MatchingFrom(f, enc, file, start)
  }

  /** The line before `done` matches and would not fit. */
  ghost predicate StoppedBy(f: Filter, enc: Encoding, file: seq<byte>, end: nat, done: nat, found: seq<string>,
                            maxBytes: int) {
    && end < done && Between(file, end) && Between(file, done)
    && MatchingFrom(f, enc, file, end) == [Text(f, enc, file[end..done])] + MatchingFrom(f, enc, file, done)
    && JoinedLen(found) + |Text(f, enc, file[end..done])| > maxBytes
  }

  lemma {:induction false} JoinedSnoc(ls: seq<string>, l: string)
    ensures JoinedLen(ls + [l]) == JoinedLen(ls) + |l| + 1
  {
    if ls == [] {
      assert ls + [l] == [l] && [l][1..] == [];
    } else {
      JoinedSnoc(ls[1..], l);
      assert (ls + [l])[1..] == ls[1..] + [l];
    }
  }

  /** Taking one more line of the buffer. */
  lemma ScanLine(f: Filter, enc: Encoding, file: seq<byte>, n: nat, maxBytes: int,
                 done: nat, found: seq<string>, start: nat, p: nat)
    requires Scanned(f, enc, file, n, maxBytes, done, done, found, start, Complete) && |found| < n
    requires p < done <= |file| && Between(file, p) && NoneInside(file, p, done)
    ensures var t := Text(f, enc, file[p..done]);
            if !f.matches(t) then Scanned(f, enc, file, n, maxBytes, p, p, found, start, Complete)
            else if JoinedLen(found) + |t| > maxBytes then
              Scanned(f, enc, file, n, maxBytes, done, p, found, start, ByteLimit)
            else Scanned(f, enc, file, n, maxBytes, p, p, found + [t], p, Complete)
  {
    hide Matching, LinesIn, JoinedLen, Reversed;
    var t := Text(f, enc, file[p..done]);
    OneLineBack(f, enc, file, p, done);
    EolAt(file, p, done, |file|);
    JoinedSnoc(found, t);
    ReversedSnoc(found, t);
    assert [] + MatchingFrom(f, enc, file, done) == MatchingFrom(f, enc, file, done);
  }

  /** No line starts behind `pos` and before `end`. */
  predicate NoneInside(file: seq<byte>, pos: nat, end: nat)
    requires end <= |file|
  {
    forall k :: pos <= k < end - 1 ==> file[k] != NL
  }

  /** The buffer holds `file[pos..end]`. */
  ghost predicate Holding(buf: seq<byte>, file: seq<byte>, pos: nat, end: nat) {
    pos <= end <= |file| && |buf| == end - pos && buf == file[pos..end]
  }

  lemma Holds(file: seq<byte>, pos: nat, end: nat)
    requires pos <= end <= |file|
    ensures Holding(file[pos..end], file, pos, end)
  {
  }

  /** The last line of the buffer begins behind the newline at `i`, or at or before `pos`. */
  lemma LastLine(file: seq<byte>, pos: nat, end: nat, buf: seq<byte>, i: int)
    requires Holding(buf, file, pos, end) && pos < end <= |file| && |buf| == end - pos
    requires i == LastIndex(buf, |buf| - 1, NL)
    ensures TrimEnd(buf[i + 1..]) == TrimEnd(file[pos + i + 1..end]) && Holding(buf[..i + 1], file, pos, pos + i + 1)
    ensures NoneInside(file, pos + i + 1, end)
    ensures (i >= 0 || pos == 0) ==> Between(file, pos + i + 1)
  {
    hide NoneInside, Holding, TrimEnd;
    NoneBehind(file, pos, end, buf, i);
    hide LastIndex;
    SplitBuffer(file, pos, end, buf, i + 1);
  }

  lemma NoneBehind(file: seq<byte>, pos: nat, end: nat, buf: seq<byte>, i: int)
    requires Holding(buf, file, pos, end) && pos < end <= |file| && i == LastIndex(buf, |buf| - 1, NL)
    ensures NoneInside(file, pos + i + 1, end)
    ensures (i >= 0 || pos == 0) ==> Between(file, pos + i + 1)
  {
    hide LastIndex;
    forall k | pos + i + 1 <= k < end - 1 ensures file[k] != NL {
      assert buf[k - pos] == file[k];
    }
    assert i >= 0 ==> file[pos + i] == buf[i];
  }

  lemma SplitBuffer(file: seq<byte>, pos: nat, end: nat, buf: seq<byte>, m: nat)
    requires Holding(buf, file, pos, end) && pos <= end <= |file| && m <= |buf| == end - pos
    ensures TrimEnd(buf[m..]) == TrimEnd(file[pos + m..end]) && Holding(buf[..m], file, pos, pos + m)
  {
    SliceOfSlice(file, pos, end, m, end - pos);
    SliceOfSlice(file, pos, end, 0, m);
  }

  /** Looks at the lines of the buffer `file[pos..end]` from its end, except a first line that may begin before it. */
  method ScanBuffer(f: Filter, enc: Encoding, file: seq<byte>, n: nat, maxBytes: int, pos: nat, end0: nat,
                    found0: seq<string>, start0: nat,
                    collected0: nat)
    returns (end: nat, found: seq<string>, start: nat, collected: nat, cut: Cut, ghost done: nat)
    requires pos < end0 && Scanned(f, enc, file, n, maxBytes, end0, end0, found0, start0, Complete) && |found0| < n
    requires collected0 == JoinedLen(found0)
    ensures pos <= end <= |file| && |found| <= n
    ensures Scanned(f, enc, file, n, maxBytes, done, end, found, start, cut) && collected == JoinedLen(found)
    ensures cut != ScanLimit
    ensures cut == Complete && |found| < n ==> if pos > 0 then pos < end && NoneInside(file, pos, end) else end == 0
  {
    hide Scanned, JoinedLen, TrimEnd, Between, NoneInside, Holding;
    end, found, start, collected, cut, done := end0, found0, start0, collected0, Complete, end0;
    ScannedBounds(f, enc, file, n, maxBytes, done, end, found, start, cut);
    var buf := file[pos..end];
    Holds(file, pos, end);
    while |found| < n
      invariant pos < end <= |file| && |buf| == end - pos && Holding(buf, file, pos, end) && end == done
      invariant Scanned(f, enc, file, n, maxBytes, done, end, found, start, Complete) && collected == JoinedLen(found)
      invariant cut == Complete
      decreases end
    {
      ScannedBounds(f, enc, file, n, maxBytes, done, end, found, start, cut);
      var i := LastIndex(buf, |buf| - 1, NL);
      ghost var p := pos + i + 1;
      LastLine(file, pos, end, buf, i);
      if i < 0 && pos > 0 {
        break;
      }
      ScanLine(f, enc, file, n, maxBytes, end, found, start, p);
      var line := f.decode(TrimEnd(buf[i + 1..]), enc);
      JoinedSnoc(found, line);
      end, buf := pos + i + 1, buf[..i + 1];
      if f.matches(line) {
        if collected + |line| > maxBytes {
          cut := ByteLimit;
          break;
        }
        found, collected, start := found + [line], collected + |line| + 1, pos + i + 1;
      }
      done := end;
      if i < 0 {
        break;
      }
    }
    ScannedBounds(f, enc, file, n, maxBytes, done, end, found, start, cut);
  }

  lemma ScannedBounds(f: Filter, enc: Encoding, file: seq<byte>, n: nat, maxBytes: int,
                      done: nat, end: nat, found: seq<string>, start: nat, cut: Cut)
    requires Scanned(f, enc, file, n, maxBytes, done, end, found, start, cut)
    ensures Between(file, end) && end <= |file| && |found| <= n
  {
  }

  /** `lines` are the last of `all`, at most `n`. */
  predicate IsSuffix(all: seq<string>, lines: seq<string>, n: nat) {
    |lines| <= n && |lines| <= |all| && lines == all[|all| - |lines|..]
  }

  /**
   * Why no more of the forward filter `all` is returned: there are no more or not wanted; the next one does not fit; or
   * the scan limit leaves out what starts no later than the first byte scanned.
   */
  predicate CutOk(f: Filter, file: seq<byte>, n: nat, maxBytes: int, scanCap: nat, r: Result)
    requires r.Matches?
  {
    var all, lines := MatchingFrom(f, r.enc, file, 0), r.lines;
    match r.cut
    case Complete => lines == LastN(all, n)
    case ByteLimit => |lines| < n && |lines| < |all| && JoinedLen(lines) + |all[|all| - |lines| - 1]| > maxBytes
    case ScanLimit =>
      |lines| < n && |file| > scanCap > 0 && lines == MatchingFrom(f, r.enc, file, Eol(file, |file| - scanCap, |file|))
  }

  /** The start offset is that of the first line returned. */
  predicate StartOk(f: Filter, file: seq<byte>, r: Result)
    requires r.Matches?
  {
    if r.lines == [] then r.startOffset == |file|
    else
      && Between(file, r.startOffset) && r.startOffset < |file|
      && Text(f, r.enc, file[r.startOffset..Eol(file, r.startOffset, |file|)]) == r.lines[0]
      && MatchingFrom(f, r.enc, file, r.startOffset) == r.lines
  }

  /** What the result promises in terms of the forward filter. */
  ghost predicate IsTail(f: Filter, file: seq<byte>, n: nat, maxBytes: int, scanCap: nat, r: Result)
    requires r.Matches?
  {
    && IsSuffix(MatchingFrom(f, r.enc, file, 0), r.lines, n)
    && CutOk(f, file, n, maxBytes, scanCap, r) && StartOk(f, file, r)
    && (r.lines != [] ==> JoinedLen(r.lines) <= maxBytes + 1)
  }

  /** The block read first, which decides whether the log is binary and, unless it is forced, its encoding. */
  function LastBlock(file: seq<byte>, blockSize: nat, scanCap: nat): seq<byte> {
    file[|file| - Min(Min(blockSize, |file|), scanCap)..]
  }

  function EncodingOf(file: seq<byte>, forced: Option<Encoding>, blockSize: nat, scanCap: nat): Encoding {
    if forced.Some? then forced.value
    else if file == [] then Utf8Text
    else Detect(LastBlock(file, blockSize, scanCap))
  }

  /** The last `n` matching lines, at most `maxBytes` of them, looking at no more than `scanCap` bytes of the file. */
  method LastMatches(f: Filter, file: seq<byte>, n: nat, maxBytes: int, forced: Option<Encoding>, blockSize: nat,
                     scanCap: nat)
    returns (r: Result)
    requires n > 0 && blockSize > 0 && scanCap > 0
    ensures r.Matches? ==> IsTail(f, file, n, maxBytes, scanCap, r)
    ensures r.BinaryLog? <==> LooksBinary(LastBlock(file, blockSize, scanCap))
    ensures r.Matches? ==> r.enc == EncodingOf(file, forced, blockSize, scanCap)
  {
    hide Scanned;
    var found: seq<string>, start: nat, cut, collected: nat := [], |file|, Complete, 0;
    var pos: nat, end: nat, enc := |file|, |file|, if forced.Some? then forced.value else Utf8Text;
    ghost var done: nat := |file|;
    ScanStart(f, enc, file, n, maxBytes);
    while pos > 0 && |found| < n && cut == Complete
      invariant pos <= end <= |file| && |found| <= n && collected == JoinedLen(found)
      invariant Scanned(f, enc, file, n, maxBytes, done, end, found, start, if cut == ScanLimit then Complete else cut)
      invariant pos == |file| ==> end == |file| && found == [] && start == |file| && done == |file|
      invariant cut == Complete && |found| < n ==> if pos == 0 then end == 0 else pos == |file| || pos < end
      invariant cut == Complete && |found| < n && 0 < pos < |file| ==> NoneInside(file, pos, end)
      invariant cut == ScanLimit ==> |found| < n && 0 < pos == |file| - scanCap < end && NoneInside(file, pos, end)
      invariant |file| - pos <= scanCap
      invariant pos == |file| ==> cut == Complete && enc == if forced.Some? then forced.value else Utf8Text
      invariant pos < |file| ==>
                  enc == EncodingOf(file, forced, blockSize, scanCap)
                    && !LooksBinary(LastBlock(file, blockSize, scanCap))
      decreases pos, cut == Complete
    {
      var scanned := |file| - pos;
      if scanned >= scanCap {
        cut := ScanLimit;
        break;
      }
      var block := Min(Min(Max(blockSize, end - pos), pos), scanCap - scanned);
      var chunk := file[pos - block..pos];
      if pos == |file| {
        assert chunk == LastBlock(file, blockSize, scanCap);
        if LooksBinary(chunk) {
          return BinaryLog;
        }
        if forced.None? {
          enc := DetectEncoding(chunk);
        }
        ScanStart(f, enc, file, n, maxBytes);
      }
      ScannedDone(f, enc, file, n, maxBytes, done, end, found, start);
      pos := pos - block;
      end, found, start, collected, cut, done :=
        ScanBuffer(f, enc, file, n, maxBytes, pos, end, found, start, collected);
    }
    ghost var newest := found;
    found := Reverse(found);
    r := Matches(found, start, cut, enc);
    ScanEnds(f, file, n, maxBytes, scanCap, done, end, newest, r);
  }

  method Reverse(s: seq<string>) returns (r: seq<string>)
    ensures r == Reversed(s)
  {
    r := s;
    var i := 0;
    while i < |s| / 2
      invariant 0 <= i <= |s| / 2 && |r| == |s|
      invariant forall k :: 0 <= k < i ==> r[k] == s[|s| - 1 - k]
      invariant forall k :: |s| - i <= k < |s| ==> r[k] == s[|s| - 1 - k]
      invariant forall k :: i <= k < |s| - i ==> r[k] == s[k]
    {
      r := r[i := r[|s| - 1 - i]][|s| - 1 - i := r[i]];
      i := i + 1;
    }
    forall k | 0 <= k < |s| ensures r[k] == Reversed(s)[k] {
      ReversedAt(s, k);
    }
  }

  lemma {:induction false} ReversedAt<T>(s: seq<T>, k: nat)
    requires k < |s|
    ensures Reversed(s)[k] == s[|s| - 1 - k]
  {
    if k < |s| - 1 {
      ReversedAt(s[1..], k);
    }
  }

  lemma ScanStart(f: Filter, enc: Encoding, file: seq<byte>, n: nat, maxBytes: int)
    ensures Scanned(f, enc, file, n, maxBytes, |file|, |file|, [], |file|, Complete)
  {
    NoLines(file, |file|, |file|);
  }

  lemma ScannedDone(f: Filter, enc: Encoding, file: seq<byte>, n: nat, maxBytes: int, done: nat, end: nat,
                    found: seq<string>, start: nat)
    requires Scanned(f, enc, file, n, maxBytes, done, end, found, start, Complete)
    ensures done == end
  {
  }

  lemma ScanEnds(f: Filter, file: seq<byte>, n: nat, maxBytes: int, scanCap: nat, done: nat, end: nat,
                 found: seq<string>, r: Result)
    requires r.Matches? && r.lines == Reversed(found)
    requires Scanned(f, r.enc, file, n, maxBytes, done, end, found, r.startOffset,
               if r.cut == ScanLimit then Complete else r.cut)
    requires r.cut == Complete ==> |found| == n || end == 0
    requires r.cut == ScanLimit ==> |found| < n && 0 < |file| - scanCap < end && NoneInside(file, |file| - scanCap, end)
    requires scanCap > 0
    ensures IsTail(f, file, n, maxBytes, scanCap, r)
  {
    assert done <= |file| && r.lines == MatchingFrom(f, r.enc, file, done);
    hide JoinedLen, IsSuffix, CutOk, StartOk, MatchingFrom;
    JoinedReversed(found);
    TailOf(f, r.enc, file, done, r.lines, n);
    EndsFor(f, file, n, maxBytes, scanCap, done, end, found, r);
    EndsAt(f, file, done, found, r);
  }

  lemma EndsFor(f: Filter, file: seq<byte>, n: nat, maxBytes: int, scanCap: nat, done: nat, end: nat,
                found: seq<string>, r: Result)
    requires r.Matches? && |r.lines| == |found| <= n && Between(file, done) && Between(file, end)
    requires r.lines == MatchingFrom(f, r.enc, file, done)
    requires JoinedLen(r.lines) == JoinedLen(found) && IsSuffix(MatchingFrom(f, r.enc, file, 0), r.lines, n)
    requires if r.cut == ByteLimit then |found| < n && StoppedBy(f, r.enc, file, end, done, found, maxBytes)
             else end == done
    requires r.cut == Complete ==> |found| == n || end == 0
    requires r.cut == ScanLimit ==>
               |found| < n && scanCap > 0 && 0 < |file| - scanCap < end && NoneInside(file, |file| - scanCap, end)
    ensures CutOk(f, file, n, maxBytes, scanCap, r)
  {
    hide JoinedLen, MatchingFrom, Text, Eol;
    match r.cut
    case ByteLimit => StoppedTail(f, r.enc, file, end, done, r.lines);
    case ScanLimit => EolAtEnd(file, |file| - scanCap, end);
    case Complete => LastOnes(MatchingFrom(f, r.enc, file, 0), r.lines, n);
  }

  lemma LastOnes(all: seq<string>, lines: seq<string>, n: nat)
    requires IsSuffix(all, lines, n) && (|lines| == n || lines == all)
    ensures lines == LastN(all, n)
  {
  }

  lemma EndsAt(f: Filter, file: seq<byte>, done: nat, found: seq<string>, r: Result)
    requires r.Matches? && r.lines == Reversed(found)
    requires if found == [] then r.startOffset == |file| else FirstAt(f, r.enc, file, r.startOffset, found)
    ensures StartOk(f, file, r)
  {
    hide MatchingFrom, Text, Eol, Reversed;
    if found != [] {
      FirstLine(f, r.enc, file, r.startOffset);
    }
  }

  lemma TailOf(f: Filter, enc: Encoding, file: seq<byte>, i: nat, lines: seq<string>, n: nat)
    requires Between(file, i) && lines == MatchingFrom(f, enc, file, i) && |lines| <= n
    ensures IsSuffix(MatchingFrom(f, enc, file, 0), lines, n)
  {
    hide MatchingFrom, Matching, LinesIn;
    MatchingSuffix(f, enc, file, i);
    SuffixOf(MatchingFrom(f, enc, file, 0), Matching(f, enc, LinesIn(file, 0, i)), lines);
  }

  lemma StoppedTail(f: Filter, enc: Encoding, file: seq<byte>, end: nat, done: nat, lines: seq<string>)
    requires end < done && Between(file, end) && Between(file, done) && lines == MatchingFrom(f, enc, file, done)
    requires MatchingFrom(f, enc, file, end) == [Text(f, enc, file[end..done])] + lines
    ensures var all := MatchingFrom(f, enc, file, 0);
            |lines| < |all| && all[|all| - |lines| - 1] == Text(f, enc, file[end..done])
  {
    hide MatchingFrom, Matching, LinesIn, Text;
    MatchingSuffix(f, enc, file, end);
    BeforeSuffix(MatchingFrom(f, enc, file, 0), Matching(f, enc, LinesIn(file, 0, end)), Text(f, enc, file[end..done]),
      lines);
  }

  lemma EolAtEnd(file: seq<byte>, pos: nat, end: nat)
    requires pos < end && Between(file, end) && NoneInside(file, pos, end)
    ensures Eol(file, pos, |file|) == end
  {
    EolAt(file, pos, end, |file|);
  }

  lemma SuffixOf<T>(all: seq<T>, older: seq<T>, lines: seq<T>)
    requires all == older + lines
    ensures |lines| <= |all| && lines == all[|all| - |lines|..]
  {
  }

  lemma BeforeSuffix<T>(all: seq<T>, older: seq<T>, t: T, lines: seq<T>)
    requires all == older + ([t] + lines)
    ensures |lines| < |all| && all[|all| - |lines| - 1] == t
  {
  }

  lemma FirstLine(f: Filter, enc: Encoding, file: seq<byte>, start: nat)
    requires Between(file, start) && start < |file| && f.matches(Text(f, enc, file[start..Eol(file, start, |file|)]))
    ensures var ms := MatchingFrom(f, enc, file, start);
            ms != [] && ms[0] == Text(f, enc, file[start..Eol(file, start, |file|)])
  {
  }

  lemma {:induction false} JoinedReversed(ls: seq<string>)
    ensures JoinedLen(Reversed(ls)) == JoinedLen(ls)
  {
    if ls != [] {
      JoinedReversed(ls[1..]);
      JoinedSnoc(Reversed(ls[1..]), ls[0]);
    }
  }
}
