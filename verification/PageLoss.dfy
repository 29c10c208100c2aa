/**
 * Pages smaller than a character may cut it; which page sizes even lose bytes on the way, and why the others do not.
 */
module PageLoss {
  import opened Basics
  import opened Bytes
  import opened Utf8
  import opened GbText
  import opened Encodings
  import opened Paging

  /** The page sizes that lose bytes: the rest of a cut character is dropped at the head of the next page. */
  predicate Losing(enc: Encoding, maxBytes: nat) {
    match enc
    case Utf8Text => maxBytes == 2 || maxBytes == 3
    case Gb18030 => maxBytes == 3
    case _ => false
  }

  /** The file is read as `enc`: by request, or because it is recognized. */
  predicate ReadAs(enc: Encoding, forced: Option<Encoding>) {
    forced == Some(enc) || (forced == None && enc == Utf8Text)
  }

  lemma ChosenIs(file: seq<byte>, w: Window, enc: Encoding, forced: Option<Encoding>)
    requires WindowOf(w, file) && Readable(file, enc) && ReadAs(enc, forced)
    ensures Chosen(w.data, forced) == enc
  {
    hide Detect, ValidIn;
    if forced == None {
      DetectWindow(file, w.offset, w.offset + |w.data|);
    }
  }

  // ----- two-byte pages of GB18030 -----

  /** `r` is the first boundary from `off` on, so it is one. */
  lemma NextIsBoundary(s: seq<byte>, off: nat, r: nat, gb18030: bool)
    requires off <= r <= |s| && NextBoundary(s, off, gb18030) == r
    ensures IsBoundary(s, r, gb18030)
    ensures forall k :: off <= k < r ==> !IsBoundary(s, k, gb18030)
  {
    NextNext(s, 0, off, r, gb18030);
  }

  lemma {:induction false} NextNext(s: seq<byte>, p: nat, off: nat, r: nat, gb18030: bool)
    requires off <= r <= |s| && p <= r && NextFrom(s, p, off, |s|, gb18030) == r
    ensures NextFrom(s, p, r, |s|, gb18030) == r
    ensures forall k :: off <= k < r ==> NextFrom(s, p, k, |s|, gb18030) == r
    decreases off - p
  {
    if p < off {
      var q := p + CharLen(s, p, |s|, gb18030);
      NextBounds(s, q, off, |s|, gb18030);
      NextNext(s, q, off, r, gb18030);
    }
  }

  /** Behind a character that starts on a boundary there is another one. */
  lemma BoundaryStep(s: seq<byte>, q: nat, off: nat, gb18030: bool)
    requires q <= off <= |s| && IsBoundary(s, q, gb18030)
    ensures NextBoundary(s, off, gb18030) == NextFrom(s, q, off, |s|, gb18030)
  {
    NextThrough(s, 0, q, off, |s|, gb18030);
  }

  /** No lead byte starts a character right before `off`. */
  predicate NoLeadBefore(s: seq<byte>, off: nat)
    requires off <= |s|
  {
    off > 0 && IsBoundary(s, off - 1, true) ==> !IsLead(s[off - 1])
  }

  /** Where a two-byte page of GB18030 may start: on a character or in the middle of one of four bytes. */
  predicate PairStart(s: seq<byte>, off: nat)
    requires off <= |s|
  {
    && (NextBoundary(s, off, true) == off || NextBoundary(s, off, true) == off + 2)
    && NoLeadBefore(s, off)
  }

  /** With two bytes of the window visible, the parse up to such a place is the parse of the file. */
  lemma {:induction false} PairParse(s: seq<byte>, q: nat, off: nat, j: nat)
    requires q <= off <= j <= |s| && IsBoundary(s, q, true) && NoLeadBefore(s, off) && (j == |s| || off + 2 <= j)
    ensures NextFrom(s, q, off, j, true) == NextFrom(s, q, off, |s|, true)
    decreases off - q
  {
    hide NextFrom;
    NextUnfold(s, q, off, j);
    NextUnfold(s, q, off, |s|);
    if q < off {
      var n := CharLen(s, q, |s|, true);
      assert q < off - 1 || !IsLead(s[q]);
      assert CharLen(s, q, j, true) == n;
      if q + n <= off {
        BoundaryStep(s, q, q + n, true);
        NextUnfold(s, q, q + n, |s|);
        NextUnfold(s, q + n, q + n, |s|);
        PairParse(s, q + n, off, j);
      } else {
        NextUnfold(s, q + n, off, j);
        NextUnfold(s, q + n, off, |s|);
      }
    }
  }

  lemma NextUnfold(s: seq<byte>, p: nat, off: nat, j: nat)
    requires off <= j <= |s|
    ensures NextFrom(s, p, off, j, true) ==
              if p >= off then p else NextFrom(s, p + CharLen(s, p, j, true), off, j, true)
  {
  }

  /** So the head scan of such a window follows the file's own parse from the boundary it starts on. */
  lemma PairHead(s: seq<byte>, off: nat, end: nat, p: nat)
    requires 0 < off < end <= |s| && NoLeadBefore(s, off) && end == Min(off + 2, |s|)
    requires var n := Min(off, GB_SYNC_SCAN); p <= n && IsBoundary(s, off - n + p, true)
    ensures var n, view := Min(off, GB_SYNC_SCAN), HeadView(s, off, end);
            off - n + NextFrom(view, p, n, |view|, true) == NextBoundary(s, off, true)
  {
    hide NextFrom, CharLen, NoLeadBefore;
    var n := Min(off, GB_SYNC_SCAN);
    HeadViewIsSlice(s, off, end);
    NextShift(s, off - n, end, p, n, true);
    PairParse(s, off - n + p, off, end);
    BoundaryStep(s, off - n + p, off, true);
  }

  /** The head skip of a two-byte window is nothing or all of it, and nothing on a character start. */
  lemma PairSkip(s: seq<byte>, off: nat, end: nat)
    requires off < end <= |s| && PairStart(s, off) && end == Min(off + 2, |s|)
    ensures var r := HeadSkip(s, off, end, true);
            (r == 0 || r == end - off) && (NextBoundary(s, off, true) == off ==> r == 0)
  {
    if off > 0 {
      hide NextFrom, SyncBefore, HeadView, HeadSkip, NoLeadBefore, Back;
      var n := Min(off, GB_SYNC_SCAN);
      var p := SyncBefore(Back(s, off), n, true);
      HeadSkipUnfold(s, off, end, true);
      if p > 0 || off == n {
        SyncStart(s, off, true);
        PairHead(s, off, end, Max(p, 0));
      }
    }
  }

  /** A boundary two bytes on means that `off` is in the middle of a four-byte character. */
  lemma {:induction false} MiddleOfFour(s: seq<byte>, p: nat, off: nat)
    requires p <= off < |s| && NextFrom(s, p, off, |s|, true) == off + 2
    ensures off >= 2 && CharLen(s, off - 2, |s|, true) == 4
    decreases off - p
  {
    var q := p + CharLen(s, p, |s|, true);
    if q < off {
      MiddleOfFour(s, q, off);
    }
  }

  /** From a character start: where the page after a two-byte window begins. */
  lemma PairOnStart(s: seq<byte>, off: nat)
    requires off + 2 <= |s| && IsBoundary(s, off, true)
    ensures var e := WholeFrom(s, off, off + 2, true); PairStart(s, if e > off then e else off + 2)
  {
    var e := WholeFrom(s, off, off + 2, true);
    WholeIsNext(s, off, off + 2, true);
    forall k | off <= k <= off + 2 ensures NextBoundary(s, k, true) == NextFrom(s, off, k, |s|, true) {
      BoundaryStep(s, off, k, true);
    }
    hide NextBoundary;
    PairWhole(s, off);
    if e > off {
      PairAfterWhole(s, off, e);
    } else {
      PairAfterCut(s, off);
    }
  }

  /** What the whole characters of two bytes can be. */
  lemma PairWhole(s: seq<byte>, off: nat)
    requires off + 2 <= |s|
    ensures var e, n := WholeFrom(s, off, off + 2, true), CharLen(s, off, off + 2, true);
            && (e == off <==> n == 4) && (n == 2 ==> e == off + 2)
            && (n == 1 ==> e == off + 1 || e == off + 2)
            && (n == 1 && e == off + 1 ==> IsLead(s[off + 1]))
            && (n == 1 && e == off + 2 ==> !IsLead(s[off + 1]))
  {
  }

  lemma PairAfterWhole(s: seq<byte>, off: nat, e: nat)
    requires off + 2 <= |s| && off < e == WholeFrom(s, off, off + 2, true) && NextFrom(s, off, e, |s|, true) == e
    requires forall k :: off <= k <= off + 2 ==> NextBoundary(s, k, true) == NextFrom(s, off, k, |s|, true)
    ensures PairStart(s, e)
  {
    hide WholeFrom, NextBoundary;
    PairWhole(s, off);
    var n := CharLen(s, off, off + 2, true);
    assert NextBoundary(s, e, true) == e;
    if n == 2 {
      SeenLen(s, off, off + 2, true);
      assert NextFrom(s, off, off + 1, |s|, true) == off + 2;
      assert NextBoundary(s, off + 1, true) == off + 2;
    } else if e == off + 1 {
      assert !IsLead(s[off]);
    }
  }

  lemma PairAfterCut(s: seq<byte>, off: nat)
    requires off + 2 <= |s| && CharLen(s, off, off + 2, true) == 4
    requires forall k :: off <= k <= off + 2 ==> NextBoundary(s, k, true) == NextFrom(s, off, k, |s|, true)
    ensures PairStart(s, off + 2)
  {
    hide NextBoundary;
    assert IsLead(s[off]) && !IsLead(s[off + 1]) && CharLen(s, off + 1, |s|, true) == 1;
    var n := CharLen(s, off, |s|, true);
    if n == 4 {
      assert NextFrom(s, off, off + 2, |s|, true) == off + 4;
    } else {
      assert NextFrom(s, off + 1, off + 2, |s|, true) == off + 2;
    }
    assert NextBoundary(s, off + 2, true) == NextFrom(s, off, off + 2, |s|, true);
  }

  /** In the middle of a four-byte character its second half looks cut, too, and the page ends with it. */
  lemma PairInMiddle(s: seq<byte>, off: nat)
    requires off + 2 <= |s| && NextBoundary(s, off, true) == off + 2
    ensures WholeFrom(s, off, off + 2, true) == off && PairStart(s, off + 2)
  {
    MiddleOfFour(s, 0, off);
    assert CharLen(s, off, off + 2, true) == 4;
    NextIsBoundary(s, off, off + 2, true);
  }

  /** A page in one piece from `off`, to the end of the file or to a place where the next one may start. */
  ghost predicate Unbroken(p: Page, file: seq<byte>, off: nat)
    requires off <= |file|
  {
    && p.TextPage? && p.offset == off && p.NextOffset() <= |file| && p.data == file[off..p.NextOffset()]
    && (p.more ==> off < p.NextOffset() < |file|) && (!p.more ==> p.NextOffset() == |file|)
  }

  lemma PairWindow(file: seq<byte>, off: nat)
    requires off < |file|
    ensures var end := Min(off + 2, |file|); ByteWindow(file, off, 2) == Window(file[off..end], off, end < |file|)
  {
    var end := Min(off + 2, |file|);
    var data := file[off..end];
    if end < |file| && LastIndex(data, 2, NL) == 1 {
      assert data[..2] == data;
    }
  }

  /** The bounds shown of a two-byte window: all of it, none of it, or the whole characters from its start. */
  lemma PairShown(file: seq<byte>, w: Window, skip: nat)
    requires WindowOf(w, file) && skip == Skipped(file, w, Gb18030) && (skip == 0 || skip == |w.data|)
    ensures var (x, y) := Shown(file, w, Gb18030);
            if skip > 0 then x == y
            else
              && x == 0
              && y == if w.more then WholeFrom(file, w.offset, w.offset + |w.data|, true) - w.offset else |w.data|
  {
    hide Skipped, WholeFrom, SyncBefore;
    if skip == |w.data| {
      assert w.data[skip..] == [];
      GbEdges([], true);
    } else {
      assert w.data[0..] == w.data;
      GbEdges(w.data, true);
    }
    WholeShift(file, w.offset, w.offset + |w.data|, 0, true);
  }

  lemma PairSkipped(file: seq<byte>, w: Window) returns (skip: nat)
    requires WindowOf(w, file) && w.offset < |file| && PairStart(file, w.offset)
    requires w.offset + |w.data| == Min(w.offset + 2, |file|)
    ensures skip == Skipped(file, w, Gb18030) && (skip == 0 || skip == |w.data|)
    ensures NextBoundary(file, w.offset, true) == w.offset ==> skip == 0
    ensures NextBoundary(file, w.offset, true) == w.offset || NextBoundary(file, w.offset, true) == w.offset + 2
  {
    hide HeadSkip, NextBoundary, NoLeadBefore;
    skip := Skipped(file, w, Gb18030);
    PairSkip(file, w.offset, w.offset + |w.data|);
  }

  lemma PairPage(file: seq<byte>, off: nat)
    requires off < |file| && PairStart(file, off)
    ensures var w := ByteWindow(file, off, 2);
            && WindowOf(w, file)
            && var p := PageOf(file, w, Gb18030); Unbroken(p, file, off) && (p.more ==> PairStart(file, p.NextOffset()))
  {
    hide ByteWindow, WholeFrom, NextBoundary, HeadSkip, NoLeadBefore, Shown, Skipped, PairStart;
    PairWindow(file, off);
    var end := Min(off + 2, |file|);
    var w := Window(file[off..end], off, end < |file|);
    var skip := PairSkipped(file, w);
    PairShown(file, w, skip);
    if w.more {
      if NextBoundary(file, off, true) == off {
        PairOnStart(file, off);
      } else {
        PairInMiddle(file, off);
      }
    }
  }

  // ----- every size that does not lose -----

  /** Where the pages of a size that loses nothing start. */
  predicate SafeStart(file: seq<byte>, enc: Encoding, maxBytes: nat, off: nat)
    requires off <= |file|
  {
    if maxBytes >= Widest(enc) then PageStart(file, enc, off)
    else if maxBytes == 1 then true
    else PairStart(file, off)
  }

  /** A one-byte window is shown whatever its edges are. */
  lemma BytePage(file: seq<byte>, w: Window, x: nat, y: nat)
    requires WindowOf(w, file) && |w.data| == 1 && x <= y <= 1
    ensures CutPage(file, w, x, y) == TextPage(w.data, w.offset, w.more)
  {
    if x < y {
      assert w.data[0..1] == w.data;
    }
  }

  lemma RawPage(file: seq<byte>, w: Window)
    requires WindowOf(w, file)
    ensures PageOf(file, w, Unknown) == TextPage(w.data, w.offset, w.more)
  {
    assert w.data[0..] == w.data && w.data[0..|w.data|] == w.data;
  }

  lemma EmptyPage(file: seq<byte>, maxBytes: nat, forced: Option<Encoding>)
    requires NoNul(file)
    ensures Unbroken(ReadPage(file, |file|, maxBytes, forced), file, |file|)
  {
    hide Shown, Detect;
    assert ByteWindow(file, |file|, maxBytes).data == [];
  }

  /** A page from such a place drops nothing at its head, and the next page starts at such a place again. */
  lemma SafePage(file: seq<byte>, off: nat, maxBytes: nat, enc: Encoding, forced: Option<Encoding>)
    requires maxBytes > 0 && !Losing(enc, maxBytes) && Readable(file, enc) && ReadAs(enc, forced)
    requires off <= |file| && SafeStart(file, enc, maxBytes, off)
    ensures var p := ReadPage(file, off, maxBytes, forced);
            Unbroken(p, file, off) && (p.more ==> SafeStart(file, enc, maxBytes, p.NextOffset()))
  {
    hide Shown, Detect, PageStart, PairStart, ByteWindow, ValidIn, PageOf;
    if off == |file| {
      EmptyPage(file, maxBytes, forced);
    } else if maxBytes >= Widest(enc) && enc != Unknown {
      GoodPage(file, off, maxBytes, enc, forced);
    } else {
      var w := ByteWindow(file, off, maxBytes);
      WindowFacts(file, off, maxBytes);
      ChosenIs(file, w, enc, forced);
      SmallPage(file, off, maxBytes, enc);
    }
  }

  lemma SmallPage(file: seq<byte>, off: nat, maxBytes: nat, enc: Encoding)
    requires 0 < maxBytes && !Losing(enc, maxBytes) && off < |file| && SafeStart(file, enc, maxBytes, off)
    requires maxBytes < Widest(enc) || enc == Unknown
    ensures var w := ByteWindow(file, off, maxBytes);
            && WindowOf(w, file)
            && var p := PageOf(file, w, enc);
               Unbroken(p, file, off) && (p.more ==> SafeStart(file, enc, maxBytes, p.NextOffset()))
  {
    hide Shown, PairStart, ByteWindow;
    var w := ByteWindow(file, off, maxBytes);
    WindowFacts(file, off, maxBytes);
    if enc == Unknown {
      RawPage(file, w);
    } else if maxBytes == 1 {
      var (x, y) := Shown(file, w, enc);
      BytePage(file, w, x, y);
    } else {
      PairPage(file, off);
    }
  }

  lemma {:induction false} SafePages(file: seq<byte>, off: nat, maxBytes: nat, enc: Encoding, forced: Option<Encoding>)
    requires maxBytes > 0 && !Losing(enc, maxBytes) && Readable(file, enc) && ReadAs(enc, forced)
    requires off <= |file| && SafeStart(file, enc, maxBytes, off)
    ensures Contents(FollowPages(file, off, maxBytes, forced)) == file[off..]
    decreases |file| - off
  {
    hide ReadPage, SafeStart;
    var p, ps := ReadPage(file, off, maxBytes, forced), FollowPages(file, off, maxBytes, forced);
    SafePage(file, off, maxBytes, enc, forced);
    var n := p.NextOffset();
    if p.more {
      SafePages(file, n, maxBytes, enc, forced);
      assert ps[1..] == FollowPages(file, n, maxBytes, forced);
      Glue(file, off, n, |file|);
      assert file[n..] == file[n..|file|];
    } else {
      assert ps[1..] == [] && p.data + [] == p.data;
    }
    assert file[off..] == file[off..|file|];
  }

  lemma SafeAtZero(file: seq<byte>, enc: Encoding, maxBytes: nat)
    requires maxBytes > 0 && !Losing(enc, maxBytes) && Readable(file, enc)
    ensures SafeStart(file, enc, maxBytes, 0)
  {
  }

  // ----- every size that loses -----

  /** A character one byte wider than a page, and one more byte. */
  function LossyFile(enc: Encoding, maxBytes: nat): seq<byte> {
    if enc == Gb18030 then [0x81, 0x30, 0x81, 0x30, 0x61]
    else if maxBytes == 3 then [0xF0, 0x90, 0x80, 0x80, 0x61]
    else [0xE4, 0xB8, 0xAD, 0x61]
  }

  /** The first page is the cut head of a character, the second one drops the byte left of it. */
  lemma LossyPages(maxBytes: nat, enc: Encoding, forced: Option<Encoding>)
    requires Losing(enc, maxBytes) && ReadAs(enc, forced)
    ensures var file := LossyFile(enc, maxBytes);
            && Readable(file, enc)
            && ReadPage(file, 0, maxBytes, forced) == TextPage(file[..maxBytes], 0, true)
            && ReadPage(file, maxBytes, maxBytes, forced) == TextPage([0x61], maxBytes + 1, false)
  {
    hide Detect, PageOf;
    var file := LossyFile(enc, maxBytes);
    LossyReadable(maxBytes, enc);
    LossyWindows(maxBytes, enc);
    var w0, w1 := ByteWindow(file, 0, maxBytes), ByteWindow(file, maxBytes, maxBytes);
    hide ByteWindow, ValidIn;
    ChosenIs(file, w0, enc, forced);
    ChosenIs(file, w1, enc, forced);
    if enc == Gb18030 {
      LossyGb(file);
    } else {
      LossyUtf8(file, maxBytes);
    }
  }

  lemma LossyReadable(maxBytes: nat, enc: Encoding)
    requires Losing(enc, maxBytes)
    ensures Readable(LossyFile(enc, maxBytes), enc) && |LossyFile(enc, maxBytes)| == maxBytes + 2
  {
    var file := LossyFile(enc, maxBytes);
    if enc == Utf8Text {
      var n := |file|;
      assert SeqLen(file, 0, n) == n - 1 && SeqLen(file, n - 1, n) == 1 && ValidIn(file, n, n);
      assert ValidIn(file, n - 1, n);
    }
  }

  lemma LossyWindows(maxBytes: nat, enc: Encoding)
    requires Losing(enc, maxBytes)
    ensures var file := LossyFile(enc, maxBytes);
            && ByteWindow(file, 0, maxBytes) == Window(file[..maxBytes], 0, true)
            && ByteWindow(file, maxBytes, maxBytes) == Window(file[maxBytes..], maxBytes, false)
  {
    var file := LossyFile(enc, maxBytes);
    var data := file[0..maxBytes];
    assert data == file[..maxBytes];
    NoNewline(data, maxBytes);
  }

  lemma LossyGb(file: seq<byte>)
    requires file == [0x81, 0x30, 0x81, 0x30, 0x61]
    ensures PageOf(file, Window(file[..3], 0, true), Gb18030) == TextPage(file[..3], 0, true)
    ensures PageOf(file, Window(file[3..], 3, false), Gb18030) == TextPage([0x61], 4, false)
  {
    LossyView(file);
    hide HeadSkip, SyncBefore, NextFrom;
    var w0, w1 := Window(file[..3], 0, true), Window(file[3..], 3, false);
    assert w0.data[0..] == w0.data == [0x81, 0x30, 0x81];
    GbEdges(w0.data, true);
    assert CharLen(w0.data, 0, 3, true) == 4;
    assert Shown(file, w0, Gb18030) == (0, 0);
    assert w1.data == [0x30, 0x61] && w1.data[1..] == [0x61] && w1.data[1..2] == [0x61];
    assert Skipped(file, w1, Gb18030) == 1;
    assert Shown(file, w1, Gb18030) == (1, 2);
  }

  lemma LossyView(file: seq<byte>)
    requires file == [0x81, 0x30, 0x81, 0x30, 0x61]
    ensures HeadSkip(file, 3, 5, true) == 1
  {
    assert HeadView(file, 3, 5) == file;
    assert CharLen(file, 0, 5, true) == 4;
    assert NextFrom(file, 0, 3, 5, true) == 4;
    assert SyncBefore(Back(file, 3), 3, true) == -1;
  }

  lemma LossyUtf8(file: seq<byte>, maxBytes: nat)
    requires (maxBytes == 2 || maxBytes == 3) && file == LossyFile(Utf8Text, maxBytes)
    ensures PageOf(file, Window(file[..maxBytes], 0, true), Utf8Text) == TextPage(file[..maxBytes], 0, true)
    ensures PageOf(file, Window(file[maxBytes..], maxBytes, false), Utf8Text) == TextPage([0x61], maxBytes + 1, false)
  {
    var w0, w1 := Window(file[..maxBytes], 0, true), Window(file[maxBytes..], maxBytes, false);
    assert w0.data[0..] == w0.data && w1.data[0..] == w1.data;
    CutHead(w0.data, maxBytes - 1);
    assert w1.data[1..2] == [0x61];
    assert HeadEdge(w1.data, 1) == 1;
    assert Edges(w1.data).0 == 1;
  }

  /** The head of a longer character shows nothing whole. */
  lemma {:induction false} CutHead(data: seq<byte>, i: nat)
    requires (data == [0xE4, 0xB8] || data == [0xF0, 0x90, 0x80]) && i < |data|
    ensures TailEdge(data, 0, i) == 0
  {
    if i > 0 {
      CutHead(data, i - 1);
    }
  }

  lemma LossyContents(maxBytes: nat, enc: Encoding, forced: Option<Encoding>)
    requires Losing(enc, maxBytes) && ReadAs(enc, forced)
    ensures var file := LossyFile(enc, maxBytes);
            Readable(file, enc)
              && Contents(FollowPages(file, 0, maxBytes, forced)) == file[..maxBytes] + file[maxBytes + 1..] != file
  {
    hide ReadPage;
    var file := LossyFile(enc, maxBytes);
    LossyReadable(maxBytes, enc);
    LossyPages(maxBytes, enc, forced);
    var p0, p1 := ReadPage(file, 0, maxBytes, forced), ReadPage(file, maxBytes, maxBytes, forced);
    assert FollowPages(file, maxBytes, maxBytes, forced) == [p1];
    assert FollowPages(file, 0, maxBytes, forced) == [p0] + [p1] == [p0, p1];
    assert [p0, p1][1..] == [p1] && [p1][1..] == [];
    assert Contents([p1]) == p1.data == file[maxBytes + 1..];
  }

  /**
   * Following next_offset shows every byte of every readable file exactly when the page size is none of the losing
   * ones.
   */
  lemma LosslessIff(maxBytes: nat, enc: Encoding, forced: Option<Encoding>)
    requires maxBytes > 0 && ReadAs(enc, forced)
    ensures !Losing(enc, maxBytes) <==>
              forall file :: Readable(file, enc) ==> Contents(FollowPages(file, 0, maxBytes, forced)) == file
  {
    if Losing(enc, maxBytes) {
      LossyContents(maxBytes, enc, forced);
    } else {
      forall file | Readable(file, enc) ensures Contents(FollowPages(file, 0, maxBytes, forced)) == file {
        SafeAtZero(file, enc, maxBytes);
        SafePages(file, 0, maxBytes, enc, forced);
        assert file[0..] == file;
      }
    }
  }
}
