/** Reading a file window by window: byte windows that never split a character, and why following them loses nothing. */
module Paging {
  import opened Basics
  import opened Bytes
  import opened Utf8
  import opened GbText
  import opened Encodings
  import opened Lines

  /** Raw bytes and where they sit; `more` says that file content follows the bytes read. */
  datatype Window = Window(data: seq<byte>, offset: nat, more: bool)

  /** What a caller gets; the cursor of the next page is `NextOffset`. */
  datatype Page = BinaryPage | TextPage(data: seq<byte>, offset: nat, more: bool) {
    function NextOffset(): nat
      requires TextPage?
    {
      offset + |data|
    }
  }

  /** The bytes read at `offset`; if more follow, they are cut behind a newline in their second half. */
  function ByteWindow(file: seq<byte>, offset: int, maxBytes: nat): (w: Window)
    ensures w.offset == Min(Max(offset, 0), |file|)
    ensures w.offset + |w.data| <= |file| && w.data == file[w.offset..w.offset + |w.data|]
    ensures |w.data| <= maxBytes && (w.more || w.offset + |w.data| == |file|)
    ensures w.more ==>
              w.offset + |w.data| < |file|
                && (|w.data| == maxBytes || (|w.data| > 0 && file[w.offset + |w.data| - 1] == NL))
  {
    var off := Min(Max(offset, 0), |file|);
    var end := off + Min(maxBytes, |file| - off);
    var data := file[off..end];
    var i := LastIndex(data, |data|, NL);
    if end < |file| && i >= 0 && i >= |data| / 2 then
      SliceOfSlice(file, off, end, 0, i + 1);
      Window(data[..i + 1], off, true)
    else Window(data, off, end < |file|)
  }

  /**
   * Where the window stops: at the limit or the end of the file; but if more follows and the second half of what was
   * read holds a newline, behind the last one.
   */
  lemma WindowStops(file: seq<byte>, offset: int, maxBytes: nat)
    ensures var w := ByteWindow(file, offset, maxBytes);
            var full, n := Min(maxBytes, |file| - w.offset), |w.data|;
            && n <= full && (w.more <==> w.offset + full < |file|)
            && (n < full ==> w.more && full / 2 < n && file[w.offset + n - 1] == NL)
            && (w.more ==> forall k :: w.offset + full / 2 <= k < w.offset + full && file[k] == NL ==>
                  k < w.offset + n && file[w.offset + n - 1] == NL)
  {
    var off := Min(Max(offset, 0), |file|);
    var end := off + Min(maxBytes, |file| - off);
    WindowLength(file, offset, maxBytes);
    LastInFile(file, off, end);
    hide ByteWindow, LastIndex;
  }

  lemma WindowLength(file: seq<byte>, offset: int, maxBytes: nat)
    ensures var w := ByteWindow(file, offset, maxBytes);
            var end := w.offset + Min(maxBytes, |file| - w.offset);
            var full, i := end - w.offset, LastIndex(file[w.offset..end], end - w.offset, NL);
            && (w.more <==> end < |file|)
            && |w.data| == if end < |file| && i >= 0 && i >= full / 2 then i + 1 else full
  {
    hide LastIndex;
  }

  lemma LastInFile(file: seq<byte>, off: nat, end: nat)
    requires off <= end <= |file|
    ensures var i := LastIndex(file[off..end], end - off, NL);
            (i >= 0 ==> file[off + i] == NL) && forall k :: off + i < k < end && off <= k ==> file[k] != NL
  {
    hide LastIndex;
    forall k | off <= k < end ensures file[k] == file[off..end][k - off] {
    }
  }

  /** Where the characters of `data` that neither edge cuts begin and end. */
  function WindowEdges(data: seq<byte>, enc: Encoding, head: bool, tail: bool): (r: (nat, nat))
    ensures r.0 <= r.1 <= |data|
  {
    match enc
    case Unknown => (0, |data|)
    case Utf8Text =>
      var (s, e) := Edges(data);
      var start := if head then s else 0;
      (start, if tail then Max(e, start) else |data|)
    case _ =>
      var gb18030 := enc == Gb18030;
      var base := Max(SyncBefore(data, |data|, gb18030), 0);
      (0, if tail then base + WholeFrom(data[base..], 0, |data| - base, gb18030) else |data|)
  }

  /** The window `w` lies in the file. */
  predicate WindowOf(w: Window, file: seq<byte>) {
    w.offset + |w.data| <= |file| && w.data == file[w.offset..w.offset + |w.data|]
  }

  /** How much of the head of `w` belongs to a character of the GBK family begun before it. */
  function Skipped(file: seq<byte>, w: Window, enc: Encoding): (r: nat)
    requires WindowOf(w, file)
    ensures r <= |w.data|
  {
    if IsGb(enc) && !LineStart(file, w.offset) then HeadSkip(file, w.offset, w.offset + |w.data|, enc == Gb18030) else 0
  }

  /** The bounds of the characters of `w` that are shown. */
  function Shown(file: seq<byte>, w: Window, enc: Encoding): (r: (nat, nat))
    requires WindowOf(w, file)
    ensures r.0 <= r.1 <= |w.data|
  {
    var skip := Skipped(file, w, enc);
    var (s, e) := WindowEdges(w.data[skip..], enc, !IsGb(enc) && !LineStart(file, w.offset), w.more);
    (skip + s, skip + e)
  }

  /** The page of window `w` between the bounds `x` and `y`, or all of it when there is nothing between them. */
  function CutPage(file: seq<byte>, w: Window, x: nat, y: nat): (p: Page)
    requires WindowOf(w, file) && x <= y <= |w.data|
    ensures p.TextPage? && p.NextOffset() <= |file| && p.data == file[p.offset..p.NextOffset()] && p.more == w.more
  {
    if x < y then
      SliceOfSlice(file, w.offset, w.offset + |w.data|, x, y);
      TextPage(w.data[x..y], w.offset + x, w.more)
    else TextPage(w.data, w.offset, w.more)
  }

  function PageOf(file: seq<byte>, w: Window, enc: Encoding): (p: Page)
    requires WindowOf(w, file)
    ensures p.TextPage? && p.NextOffset() <= |file| && p.data == file[p.offset..p.NextOffset()]
  {
    var (x, y) := Shown(file, w, enc);
    CutPage(file, w, x, y)
  }

  function Chosen(data: seq<byte>, forced: Option<Encoding>): Encoding {
    if forced.Some? then forced.value else Detect(data)
  }

  /** One byte-mode read. */
  function ReadPage(file: seq<byte>, offset: int, maxBytes: nat, forced: Option<Encoding>): (p: Page)
    ensures p.TextPage? ==> p.NextOffset() <= |file| && p.data == file[p.offset..p.NextOffset()]
  {
    var w := ByteWindow(file, offset, maxBytes);
    if LooksBinary(w.data) then BinaryPage else PageOf(file, w, Chosen(w.data, forced))
  }

  /** No text is shown exactly if a NUL is among the first 8000 bytes of the window. */
  lemma BinaryIff(file: seq<byte>, offset: int, maxBytes: nat, forced: Option<Encoding>)
    ensures var w := ByteWindow(file, offset, maxBytes);
            ReadPage(file, offset, maxBytes, forced).BinaryPage? <==>
              exists k :: w.offset <= k < w.offset + Min(|w.data|, 8000) && file[k] == 0
  {
    var w := ByteWindow(file, offset, maxBytes);
    if exists k :: w.offset <= k < w.offset + Min(|w.data|, 8000) && file[k] == 0 {
      var k :| w.offset <= k < w.offset + Min(|w.data|, 8000) && file[k] == 0;
      assert w.data[k - w.offset] == 0;
    }
    if LooksBinary(w.data) {
      var i :| 0 <= i < Min(|w.data|, BINARY_SNIFF_LEN) && w.data[i] == 0;
      assert file[w.offset + i] == 0;
    }
  }

  method EdgesOf(data: seq<byte>, enc: Encoding, head: bool, tail: bool) returns (start: nat, end: nat)
    ensures (start, end) == WindowEdges(data, enc, head, tail)
  {
    start, end := 0, |data|;
    if IsGb(enc) {
      if tail {
        var gb18030 := enc == Gb18030;
        var base := LastBoundary(data, gb18030);
        base := Max(base, 0);
        var n := WholeChars(data[base..], gb18030);
        end := base + n;
      }
    } else if enc == Utf8Text {
      var s, e := Utf8Edges(data);
      if head {
        start := s;
      }
      if tail {
        end := Max(e, start);
      }
    }
  }

  method ShownBounds(file: seq<byte>, w: Window, enc: Encoding) returns (x: nat, y: nat)
    requires WindowOf(w, file)
    ensures (x, y) == Shown(file, w, enc)
  {
    hide WindowEdges, HeadSkip, Edges, ValidIn;
    var headCut, skip := !LineStart(file, w.offset), 0;
    if headCut && IsGb(enc) {
      skip := GbHeadSkip(file, w.offset, w.data, enc == Gb18030);
      headCut := false;
    }
    assert skip == Skipped(file, w, enc);
    hide Skipped;
    var s, e := EdgesOf(w.data[skip..], enc, headCut, w.more);
    x, y := skip + s, skip + e;
  }

  method PageOfWindow(file: seq<byte>, w: Window, enc: Encoding) returns (p: Page)
    requires WindowOf(w, file)
    ensures p == PageOf(file, w, enc)
  {
    hide Shown;
    var x, y := ShownBounds(file, w, enc);
    p := if y > x then TextPage(w.data[x..y], w.offset + x, w.more) else TextPage(w.data, w.offset, w.more);
  }

  method ReadFilePage(file: seq<byte>, offset: int, maxBytes: nat, forced: Option<Encoding>) returns (p: Page)
    ensures p == ReadPage(file, offset, maxBytes, forced)
  {
    hide PageOf, Detect, ByteWindow;
    var w := ByteWindow(file, offset, maxBytes);
    if LooksBinary(w.data) {
      return BinaryPage;
    }
    var enc;
    if forced.Some? {
      enc := forced.value;
    } else {
      enc := DetectEncoding(w.data);
    }
    p := PageOfWindow(file, w, enc);
  }

  // ----- following next_offset -----

  /** The pages a caller gets by following the cursor from `off` on. */
  function FollowPages(file: seq<byte>, off: nat, maxBytes: nat, forced: Option<Encoding>): seq<Page>
    decreases |file| - off
  {
    var p := ReadPage(file, off, maxBytes, forced);
    if p.TextPage? && p.more && off < p.NextOffset() then [p] + FollowPages(file, p.NextOffset(), maxBytes, forced)
    else [p]
  }

  /** What the pages show together. */
  function Contents(ps: seq<Page>): seq<byte> {
    if ps == [] then [] else (if ps[0].TextPage? then ps[0].data else []) + Contents(ps[1..])
  }

  /**
   * The stretch `file[x..y]` is made of whole characters of the file; the last one may be cut only by the end of the
   * file.
   */
  predicate WholeStretch(file: seq<byte>, enc: Encoding, x: nat, y: nat)
    requires x <= y <= |file|
  {
    match enc
    case Utf8Text => ValidIn(file, x, y)
    case Unknown => true
    case _ => y == |file| || IsBoundary(file, y, enc == Gb18030)
  }

  /**
   * `p` is the page of `file` from `off` on: non-empty unless the file ends there, within the limit, never splitting
   * a character.
   */
  predicate IsPageAt(p: Page, file: seq<byte>, off: nat, maxBytes: nat, enc: Encoding)
    requires off <= |file|
  {
    && p.TextPage? && p.offset == off && p.NextOffset() <= |file|
    && p.data == file[off..p.NextOffset()] && |p.data| <= maxBytes
    && (p.more <==> p.NextOffset() < |file|)
    && (off < |file| ==> p.data != [])
    && WholeStretch(file, enc, off, p.NextOffset())
  }

  /** The pages lie side by side from `off` to the end of the file. */
  predicate Tiles(ps: seq<Page>, file: seq<byte>, off: nat, maxBytes: nat, enc: Encoding)
    requires off <= |file|
    decreases |ps|
  {
    && ps != [] && IsPageAt(ps[0], file, off, maxBytes, enc)
    && (if ps[0].more then Tiles(ps[1..], file, ps[0].NextOffset(), maxBytes, enc) else |ps| == 1)
  }

  /** Side by side, the pages show exactly the file. */
  lemma {:induction false} TilesShowFile(ps: seq<Page>, file: seq<byte>, off: nat, maxBytes: nat, enc: Encoding)
    requires off <= |file| && Tiles(ps, file, off, maxBytes, enc)
    ensures Contents(ps) == file[off..]
    decreases |ps|
  {
    var n := ps[0].NextOffset();
    if ps[0].more {
      TilesShowFile(ps[1..], file, n, maxBytes, enc);
      Glue(file, off, n, |file|);
      assert file[n..] == file[n..|file|];
    } else {
      assert ps[1..] == [] && ps[0].data + [] == ps[0].data;
    }
    assert file[off..] == file[off..|file|];
  }

  /** The smallest page size that always holds a character. */
  function Widest(enc: Encoding): nat {
    match enc
    case Gbk => 2
    case Gb18030 => 4
    case Utf8Text => 4
    case Unknown => 1
  }

  predicate NoNul(file: seq<byte>) { forall i :: 0 <= i < |file| ==> file[i] != 0 }

  /** What the promise is made for: no NUL bytes, and text that really is UTF-8 when read as such. */
  predicate Readable(file: seq<byte>, enc: Encoding) {
    NoNul(file) && (enc == Utf8Text ==> Valid(file))
  }

  /** A page may start at `off`: a character of the file starts there. */
  predicate PageStart(file: seq<byte>, enc: Encoding, off: nat)
    requires off <= |file|
  {
    match enc
    case Utf8Text => ValidIn(file, off, |file|)
    case Unknown => true
    case _ => IsBoundary(file, off, enc == Gb18030)
  }

  // ----- GBK family -----

  lemma GbEdges(data: seq<byte>, gb18030: bool)
    ensures WindowEdges(data, if gb18030 then Gb18030 else Gbk, false, true) == (0, WholeFrom(data, 0, |data|, gb18030))
  {
    hide WholeFrom, SyncBefore;
    var base := Max(SyncBefore(data, |data|, gb18030), 0);
    WholeOfSuffix(data, base, gb18030);
    ResyncWhole(data, gb18030);
  }

  /** Where a GBK-family page that starts on a character ends: on another one. */
  lemma GbPageEnd(file: seq<byte>, off: nat, end: nat, gb18030: bool)
    requires off < end <= |file| && IsBoundary(file, off, gb18030)
    requires off + (if gb18030 then 4 else 2) <= end || file[end - 1] == NL
    ensures var e := WholeFrom(file[off..end], 0, end - off, gb18030);
            0 < e <= end - off && IsBoundary(file, off + e, gb18030)
  {
    hide WholeFrom, NextFrom;
    var e := WholeFrom(file, off, end, gb18030);
    WholeShift(file, off, end, 0, gb18030);
    WholeIsNext(file, off, end, gb18030);
    WholeProgress(file, off, end, gb18030);
    NextThrough(file, 0, off, e, |file|, gb18030);
  }

  /** The window of a page that starts inside the file. */
  lemma WindowFacts(file: seq<byte>, off: nat, maxBytes: nat)
    requires off < |file| && maxBytes > 0
    ensures var w := ByteWindow(file, off, maxBytes);
            && WindowOf(w, file) && w.offset == off && 0 < |w.data| <= maxBytes
            && (w.more <==> off + |w.data| < |file|)
            && (w.more ==> off + maxBytes <= off + |w.data| || file[off + |w.data| - 1] == NL)
            && (NoNul(file) ==> !LooksBinary(w.data))
  {
  }

  /** A window that starts on a character and either reaches the end of the file or is wide enough. */
  predicate GoodWindow(w: Window, file: seq<byte>, enc: Encoding) {
    && WindowOf(w, file) && w.data != [] && PageStart(file, enc, w.offset)
    && (w.more <==> w.offset + |w.data| < |file|)
    && (w.more ==> |w.data| >= Widest(enc) || file[w.offset + |w.data| - 1] == NL)
  }

  /** The bounds `(x, y)` show all of the window from its first byte on, or stop at the start of another character. */
  predicate ShowsWhole(file: seq<byte>, w: Window, enc: Encoding, x: nat, y: nat)
    requires WindowOf(w, file)
  {
    && x == 0 < y <= |w.data| && (!w.more ==> y == |w.data|)
    && WholeStretch(file, enc, w.offset, w.offset + y)
    && (w.more ==> PageStart(file, enc, w.offset + y))
  }

  lemma GbShown(file: seq<byte>, w: Window, enc: Encoding)
    requires IsGb(enc) && GoodWindow(w, file, enc)
    ensures var (x, y) := Shown(file, w, enc); ShowsWhole(file, w, enc, x, y)
  {
    hide WholeFrom, NextFrom, HeadSkip, SyncBefore, Edges, ValidIn, CharLen;
    var gb18030, end := enc == Gb18030, w.offset + |w.data|;
    HeadSkipAtBoundary(file, w.offset, end, gb18030);
    assert Skipped(file, w, enc) == 0 && w.data[0..] == w.data;
    if w.more {
      GbEdges(w.data, gb18030);
      GbPageEnd(file, w.offset, end, gb18030);
    }
  }

  // ----- UTF-8 -----

  /** Nothing is dropped at the head of such a window, and its tail edge is a character start. */
  lemma Utf8Tail(file: seq<byte>, off: nat, end: nat)
    requires Valid(file) && off < end <= |file| && ValidIn(file, off, |file|)
    requires end == |file| || end - off >= UTF_MAX || file[end - 1] == NL
    ensures var (a, b) := Edges(file[off..end]);
            a == 0 < b <= end - off && ValidIn(file, off, off + b) && ValidIn(file, off + b, |file|)
  {
    assert RuneStart(file[off]) && file[off..end][0] == file[off];
    hide Edges, ValidIn;
    EdgesAtStart(file[off..end]);
    EdgesOfWindow(file, off, end);
    var (a, b) := Edges(file[off..end]);
    EdgeProgress(file, off, end, off + b);
    PrefixEndsAtStart(file, off, off + b, |file|);
  }

  lemma Utf8Shown(file: seq<byte>, w: Window)
    requires Valid(file) && GoodWindow(w, file, Utf8Text)
    ensures var (x, y) := Shown(file, w, Utf8Text); ShowsWhole(file, w, Utf8Text, x, y)
  {
    hide Edges, ValidIn, NextFrom, WholeFrom, SyncBefore;
    assert Skipped(file, w, Utf8Text) == 0 && w.data[0..] == w.data;
    Utf8Tail(file, w.offset, w.offset + |w.data|);
  }

  lemma EdgesAtStart(data: seq<byte>)
    requires data != [] && RuneStart(data[0])
    ensures Edges(data).0 == 0
  {
  }

  lemma EdgeProgress(file: seq<byte>, off: nat, end: nat, e: nat)
    requires off < end <= |file| && GoodTail(file, off, end, |file|, e)
    requires end == |file| || end - off >= UTF_MAX || file[end - 1] == NL
    ensures e > off
  {
  }

  // ----- both -----

  /** A page that starts on a character is a good page, and the next one may start where it ends. */
  lemma GoodPage(file: seq<byte>, off: nat, maxBytes: nat, enc: Encoding, forced: Option<Encoding>)
    requires enc != Unknown && (forced == Some(enc) || (forced == None && enc == Utf8Text))
    requires maxBytes >= Widest(enc) && Readable(file, enc) && off <= |file| && PageStart(file, enc, off)
    ensures var p := ReadPage(file, off, maxBytes, forced);
            IsPageAt(p, file, off, maxBytes, enc) && (p.more ==> PageStart(file, enc, p.NextOffset()))
  {
    hide Shown, Detect, PageStart, ByteWindow;
    var w := ByteWindow(file, off, maxBytes);
    if enc == Utf8Text {
      DetectWindow(file, off, off + |w.data|);
    }
    if off < |file| {
      WindowFacts(file, off, maxBytes);
      var (x, y) := Shown(file, w, enc);
      if IsGb(enc) {
        GbShown(file, w, enc);
      } else {
        Utf8Shown(file, w);
      }
      CutIsGood(file, w, enc, y, maxBytes);
    } else {
      assert w.data == [];
      EmptyStretch(file, enc);
    }
  }

  lemma EmptyStretch(file: seq<byte>, enc: Encoding)
    ensures WholeStretch(file, enc, |file|, |file|)
  {
  }

  lemma CutIsGood(file: seq<byte>, w: Window, enc: Encoding, y: nat, maxBytes: nat)
    requires GoodWindow(w, file, enc) && ShowsWhole(file, w, enc, 0, y) && |w.data| <= maxBytes
    ensures var p := CutPage(file, w, 0, y);
            IsPageAt(p, file, w.offset, maxBytes, enc) && (p.more ==> PageStart(file, enc, p.NextOffset()))
  {
    hide PageStart, WholeStretch;
  }

  /** From any place a page may start, the pages tile the rest of the file. */
  lemma {:induction false} PagesTile(file: seq<byte>, off: nat, maxBytes: nat, enc: Encoding, forced: Option<Encoding>)
    requires enc != Unknown && (forced == Some(enc) || (forced == None && enc == Utf8Text))
    requires maxBytes >= Widest(enc) && Readable(file, enc) && off <= |file| && PageStart(file, enc, off)
    ensures Tiles(FollowPages(file, off, maxBytes, forced), file, off, maxBytes, enc)
    decreases |file| - off
  {
    hide ReadPage, PageStart;
    var p := ReadPage(file, off, maxBytes, forced);
    GoodPage(file, off, maxBytes, enc, forced);
    if p.more {
      PagesTile(file, p.NextOffset(), maxBytes, enc, forced);
      assert FollowPages(file, off, maxBytes, forced)[1..] == FollowPages(file, p.NextOffset(), maxBytes, forced);
    }
  }

  /**
   * Following next_offset from the start shows the whole file, page by page, whatever the page size from `Widest` up.
   */
  lemma PagingLossless(file: seq<byte>, maxBytes: nat, enc: Encoding, forced: Option<Encoding>)
    requires enc != Unknown && (forced == Some(enc) || (forced == None && enc == Utf8Text))
    requires maxBytes >= Widest(enc) && Readable(file, enc)
    ensures var ps := FollowPages(file, 0, maxBytes, forced);
            && Tiles(ps, file, 0, maxBytes, enc) && Contents(ps) == file
            && (enc == Utf8Text ==> forall p :: p in ps ==> p.TextPage? && Valid(p.data))
  {
    var ps := FollowPages(file, 0, maxBytes, forced);
    PagesTile(file, 0, maxBytes, enc, forced);
    TilesShowFile(ps, file, 0, maxBytes, enc);
    assert file[0..] == file;
    if enc == Utf8Text {
      TilesValid(ps, file, 0, maxBytes);
    }
  }

  lemma {:induction false} TilesValid(ps: seq<Page>, file: seq<byte>, off: nat, maxBytes: nat)
    requires off <= |file| && Tiles(ps, file, off, maxBytes, Utf8Text)
    ensures forall p :: p in ps ==> p.TextPage? && Valid(p.data)
    decreases |ps|
  {
    hide ValidIn;
    var n := ps[0].NextOffset();
    ValidSlice(file, off, n);
    if ps[0].more {
      TilesValid(ps[1..], file, n, maxBytes);
      assert forall p :: p in ps ==> p == ps[0] || p in ps[1..];
    }
  }

  // ----- smaller pages -----

  /** A file that opens with the widest character of its encoding. */
  function WidestCharacter(enc: Encoding): seq<byte> {
    match enc
    case Utf8Text => [0xF0, 0x90, 0x80, 0x80]
    case Gb18030 => [0x81, 0x30, 0x81, 0x30]
    case Gbk => [0x81, 0x40]
    case Unknown => []
  }

  /** A page smaller than that character shows all of its window, and cuts the character. */
  lemma SmallPageCuts(maxBytes: nat, enc: Encoding)
    requires enc != Unknown && 0 < maxBytes < Widest(enc)
    ensures var file := WidestCharacter(enc);
            && Readable(file, enc) && !IsPageAt(ReadPage(file, 0, maxBytes, Some(enc)), file, 0, maxBytes, enc)
  {
    hide ReadPage, ValidIn, NextFrom;
    var file := WidestCharacter(enc);
    if enc == Utf8Text {
      SmallUtf8Page(file, maxBytes);
    } else {
      SmallGbPage(file, maxBytes, enc);
    }
  }

  lemma SmallUtf8Page(file: seq<byte>, maxBytes: nat)
    requires file == [0xF0, 0x90, 0x80, 0x80] && 0 < maxBytes < 4
    ensures Valid(file) && !ValidIn(file, 0, maxBytes)
    ensures ReadPage(file, 0, maxBytes, Some(Utf8Text)) == TextPage(file[..maxBytes], 0, true)
  {
    var data := file[..maxBytes];
    assert file[0..maxBytes] == data && data[0..] == data;
    assert SeqLen(file, 0, 4) == 4 && ValidIn(file, 4, 4) && SeqLen(file, 0, maxBytes) == 0;
    SmallUtf8(data);
  }

  lemma SmallGbPage(file: seq<byte>, maxBytes: nat, enc: Encoding)
    requires IsGb(enc) && file == WidestCharacter(enc) && 0 < maxBytes < Widest(enc)
    ensures !IsBoundary(file, maxBytes, enc == Gb18030)
    ensures ReadPage(file, 0, maxBytes, Some(enc)) == TextPage(file[..maxBytes], 0, true)
  {
    var data := file[..maxBytes];
    assert file[0..maxBytes] == data && data[0..] == data;
    var gb18030 := enc == Gb18030;
    assert CharLen(file, 0, |file|, gb18030) == |file|;
    assert NextFrom(file, 0, maxBytes, |file|, gb18030) == |file|;
    SmallGb(data, gb18030);
  }

  lemma SmallUtf8(data: seq<byte>)
    requires 0 < |data| < 4 && data <= [0xF0, 0x90, 0x80, 0x80]
    ensures ByteWindow([0xF0, 0x90, 0x80, 0x80], 0, |data|) == Window(data, 0, true)
    ensures Edges(data) == (0, 0)
  {
    NoNewline(data, |data|);
    assert data[0] == 0xF0;
    TailZero(data, |data| - 1);
  }

  lemma {:induction false} TailZero(data: seq<byte>, i: nat)
    requires i < |data| < 4 && data <= [0xF0, 0x90, 0x80, 0x80]
    ensures TailEdge(data, 0, i) == 0
  {
    if i > 0 {
      TailZero(data, i - 1);
    }
  }

  lemma {:induction false} NoNewline(data: seq<byte>, n: nat)
    requires n <= |data| && NL !in data
    ensures LastIndex(data, n, NL) == -1
  {
  }

  lemma SmallGb(data: seq<byte>, gb18030: bool)
    requires var file: seq<byte> := if gb18030 then [0x81, 0x30, 0x81, 0x30] else [0x81, 0x40];
             0 < |data| < |file| && data <= file
    ensures var file: seq<byte> := if gb18030 then [0x81, 0x30, 0x81, 0x30] else [0x81, 0x40];
            ByteWindow(file, 0, |data|) == Window(data, 0, true)
    ensures WindowEdges(data, if gb18030 then Gb18030 else Gbk, false, true) == (0, 0)
  {
    NoNewline(data, |data|);
    GbEdges(data, gb18030);
    assert CharLen(data, 0, |data|, gb18030) > |data|;
  }

  /** Pages never split a character, for every readable file, exactly from the size of the widest character up. */
  lemma PageSizeIff(maxBytes: nat, enc: Encoding)
    requires enc != Unknown && maxBytes > 0
    ensures maxBytes >= Widest(enc) <==>
              forall file :: Readable(file, enc) ==>
                Tiles(FollowPages(file, 0, maxBytes, Some(enc)), file, 0, maxBytes, enc)
  {
    if maxBytes >= Widest(enc) {
      forall file | Readable(file, enc)
        ensures Tiles(FollowPages(file, 0, maxBytes, Some(enc)), file, 0, maxBytes, enc)
      {
        PagingLossless(file, maxBytes, enc, Some(enc));
      }
    } else {
      SmallPageCuts(maxBytes, enc);
      var file := WidestCharacter(enc);
      assert FollowPages(file, 0, maxBytes, Some(enc))[0] == ReadPage(file, 0, maxBytes, Some(enc));
      assert !Tiles(FollowPages(file, 0, maxBytes, Some(enc)), file, 0, maxBytes, enc);
    }
  }
}
