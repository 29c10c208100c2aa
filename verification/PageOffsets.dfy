/** What a caller can check on every page: it begins at the offset asked for, or bytes are missing before it. */
module PageOffsets {
  import opened Basics
  import opened Bytes
  import opened Utf8
  import opened GbText
  import opened Encodings
  import opened Lines
  import opened Paging

  /** Every page is text that begins where the caller asked: at `off`, then where the page before it ended. */
  predicate Connected(ps: seq<Page>, off: nat)
    decreases |ps|
  {
    ps != [] ==> ps[0].TextPage? && ps[0].offset == off && Connected(ps[1..], ps[0].NextOffset())
  }

  /**
   * A page never goes back, makes progress, and leaves nothing behind it out: more follows, or the file ends with it.
   */
  predicate Forward(p: Page, file: seq<byte>, off: nat)
    requires off <= |file|
  {
    && p.TextPage? && off <= p.offset && p.NextOffset() <= |file| && p.data == file[p.offset..p.NextOffset()]
    && (if p.more then off < p.NextOffset() else p.NextOffset() == |file|)
  }

  /** A window that reaches the end of the file keeps its tail. */
  lemma TailKept(file: seq<byte>, w: Window, enc: Encoding)
    requires WindowOf(w, file) && !w.more
    ensures Shown(file, w, enc).1 == |w.data|
  {
    hide Skipped, Edges, SyncBefore, WholeFrom;
  }

  lemma PageForward(file: seq<byte>, off: nat, maxBytes: nat, forced: Option<Encoding>)
    requires off <= |file| && maxBytes > 0
    ensures var p := ReadPage(file, off, maxBytes, forced);
            Forward(p, file, off) || (p.BinaryPage? && off < |file|)
  {
    hide Shown, Detect;
    var w := ByteWindow(file, off, maxBytes);
    if !LooksBinary(w.data) {
      var enc := Chosen(w.data, forced);
      if !w.more {
        TailKept(file, w, enc);
      }
      CutForward(file, w, Shown(file, w, enc).0, Shown(file, w, enc).1);
    }
  }

  lemma CutForward(file: seq<byte>, w: Window, x: nat, y: nat)
    requires WindowOf(w, file) && x <= y <= |w.data| && (!w.more ==> y == |w.data| && w.offset + |w.data| == |file|)
    requires w.more ==> w.data != []
    ensures Forward(CutPage(file, w, x, y), file, w.offset)
  {
  }

  /**
   * Following next_offset from `off` shows the rest of the file exactly if every page begins at the offset asked for,
   * whatever the file, the page size and the encoding asked for or guessed; otherwise bytes are missing.
   */
  lemma {:induction false} FollowShowsIff(file: seq<byte>, off: nat, maxBytes: nat, forced: Option<Encoding>)
    requires off <= |file| && maxBytes > 0
    ensures var ps := FollowPages(file, off, maxBytes, forced);
            && (Contents(ps) == file[off..] <==> Connected(ps, off))
            && (!Connected(ps, off) ==> |Contents(ps)| < |file| - off)
    decreases |file| - off
  {
    hide ReadPage;
    var p, ps := ReadPage(file, off, maxBytes, forced), FollowPages(file, off, maxBytes, forced);
    PageForward(file, off, maxBytes, forced);
    if p.TextPage? && p.more {
      var n := p.NextOffset();
      var rest := FollowPages(file, n, maxBytes, forced);
      FollowShowsIff(file, n, maxBytes, forced);
      assert ps[1..] == rest;
      NextPage(file, off, p, rest);
      assert Contents(ps) == p.data + Contents(rest);
    } else {
      assert ps[1..] == [];
      LastPage(file, off, p);
      assert Contents(ps) == if p.TextPage? then p.data else [];
    }
  }

  lemma NextPage(file: seq<byte>, off: nat, p: Page, rest: seq<Page>)
    requires off <= |file| && Forward(p, file, off) && p.more
    requires Contents(rest) == file[p.NextOffset()..] <==> Connected(rest, p.NextOffset())
    requires !Connected(rest, p.NextOffset()) ==> |Contents(rest)| < |file| - p.NextOffset()
    ensures p.data + Contents(rest) == file[off..] <==> p.offset == off && Connected(rest, p.NextOffset())
    ensures !(p.offset == off && Connected(rest, p.NextOffset())) ==> |p.data + Contents(rest)| < |file| - off
  {
    hide Connected, Contents;
    var n := p.NextOffset();
    assert |p.data| == n - p.offset;
    if Connected(rest, n) {
      Glue(file, p.offset, n, |file|);
      assert file[n..] == file[n..|file|] && file[off..] == file[off..|file|];
    }
  }

  lemma LastPage(file: seq<byte>, off: nat, p: Page)
    requires off <= |file|
    requires if p.TextPage? then Forward(p, file, off) && !p.more else off < |file|
    ensures var c := if p.TextPage? then p.data else [];
            && (c == file[off..] <==> p.TextPage? && p.offset == off)
            && (!(p.TextPage? && p.offset == off) ==> |c| < |file| - off)
  {
    if p.TextPage? && p.offset == off {
      assert file[off..] == file[off..|file|];
    }
  }

  // ----- when a page begins later than asked -----

  /** A page begins later than asked exactly if its head is dropped and something is left of it. */
  lemma ShiftedIff(file: seq<byte>, off: nat, maxBytes: nat, forced: Option<Encoding>)
    requires off <= |file| && ReadPage(file, off, maxBytes, forced).TextPage?
    ensures var w := ByteWindow(file, off, maxBytes);
            var (x, y) := Shown(file, w, Chosen(w.data, forced));
            ReadPage(file, off, maxBytes, forced).offset != off <==> 0 < x < y
  {
    hide Shown, Detect;
  }

  /** In bytes: the window starts in mid-line, and within what is taken for a character begun before it. */
  lemma HeadDroppedIff(file: seq<byte>, w: Window, enc: Encoding)
    requires WindowOf(w, file) && w.data != []
    ensures 0 < Shown(file, w, enc).0 <==>
              && !LineStart(file, w.offset)
              && match enc
                 case Unknown => false
                 case Utf8Text => IsCont(w.data[0])
                 case _ => HeadSkip(file, w.offset, w.offset + |w.data|, enc == Gb18030) > 0
  {
    hide HeadSkip, SyncBefore, WholeFrom;
    if enc == Utf8Text {
      assert w.data[0..] == w.data;
      HeadEdgeIff(w.data);
    }
  }

  lemma HeadEdgeIff(data: seq<byte>)
    requires data != []
    ensures Edges(data).0 > 0 <==> IsCont(data[0])
  {
    hide TailEdge;
  }

  // ----- reads that do not name the encoding -----

  /** `n` letters, then one GBK character. */
  function LettersThenGbk(n: nat): seq<byte> { seq(n, _ => 0x61) + [0x81, 0x40] }

  /** It is GBK text through and through. */
  lemma {:induction false} LettersAreGbk(n: nat, i: nat, gb18030: bool)
    requires i <= n
    ensures WholeFrom(LettersThenGbk(n), i, n + 2, gb18030) == n + 2 && IsBoundary(LettersThenGbk(n), n, gb18030)
    decreases n - i
  {
    var s := LettersThenGbk(n);
    if i < n {
      assert CharLen(s, i, n + 2, gb18030) == 1;
      LettersAreGbk(n, i + 1, gb18030);
    } else {
      assert CharLen(s, n, n + 2, gb18030) == 2 && WholeFrom(s, n + 2, n + 2, gb18030) == n + 2;
      LettersNext(n, 0, gb18030);
    }
  }

  lemma {:induction false} LettersNext(n: nat, i: nat, gb18030: bool)
    requires i <= n
    ensures NextFrom(LettersThenGbk(n), i, n, n + 2, gb18030) == n
    decreases n - i
  {
    if i < n {
      assert CharLen(LettersThenGbk(n), i, n + 2, gb18030) == 1;
      LettersNext(n, i + 1, gb18030);
    }
  }

  lemma {:induction false} LettersValid(s: seq<byte>, i: nat)
    requires i <= |s| && forall k :: 0 <= k < |s| ==> s[k] == 0x61
    ensures ValidIn(s, i, |s|)
    decreases |s| - i
  {
    if i < |s| {
      assert SeqLen(s, i, |s|) == 1;
      LettersValid(s, i + 1);
    }
  }

  lemma LettersWhole(s: seq<byte>)
    requires s != [] && forall k :: 0 <= k < |s| ==> s[k] == 0x61
    ensures Edges(s) == (0, |s|) && Detect(s) == Utf8Text
  {
    assert RuneStart(s[|s| - 1]) && FullRune(s, |s| - 1);
    assert Edges(s) == (0, |s|);
    assert s[0..|s|] == s;
    LettersValid(s, 0);
  }

  /** The character alone is taken for the end of a longer UTF-8 one and a letter. */
  lemma LoneGbk(s: seq<byte>)
    requires s == [0x81, 0x40]
    ensures Edges(s) == (1, 2) && Detect(s) == Utf8Text
  {
    assert HeadEdge(s, 1) == 1;
    assert FullRune(s, 1);
    assert Edges(s) == (1, 2);
    assert s[1..2] == [0x40];
    assert SeqLen([0x40], 0, 1) == 1 && ValidIn([0x40], 1, 1);
  }

  lemma FirstLetters(n: nat)
    requires n > 0
    ensures ReadPage(LettersThenGbk(n), 0, n, None) == TextPage(LettersThenGbk(n)[..n], 0, true)
  {
    var file := LettersThenGbk(n);
    var data := file[0..n];
    assert data == file[..n];
    LettersWhole(data);
    NoNewline(data, n);
    hide Edges, Detect, ValidIn;
    var w := Window(data, 0, true);
    assert ByteWindow(file, 0, n) == w;
    assert data[0..] == data && data[0..n] == data;
    assert Shown(file, w, Utf8Text) == (0, n);
  }

  lemma ThenLoneGbk(n: nat)
    requires n >= 2
    ensures ReadPage(LettersThenGbk(n), n, n, None) == TextPage([0x40], n + 1, false)
  {
    var file := LettersThenGbk(n);
    var data := file[n..n + 2];
    assert data == [0x81, 0x40];
    LoneGbk(data);
    hide Edges, Detect, ValidIn;
    var w := Window(data, n, false);
    assert ByteWindow(file, n, n) == w;
    assert data[0..] == data && data[1..2] == [0x40];
    assert !LineStart(file, n);
    assert Shown(file, w, Utf8Text) == (1, 2);
  }

  /** So the second page of this file loses the lead byte. */
  lemma GuessedPagesLose(n: nat)
    requires n >= 2
    ensures var file := LettersThenGbk(n);
            NoNul(file) && Contents(FollowPages(file, 0, n, None)) == file[..n] + [0x40] != file
  {
    hide ReadPage;
    var file := LettersThenGbk(n);
    FirstLetters(n);
    ThenLoneGbk(n);
    var p0, p1 := ReadPage(file, 0, n, None), ReadPage(file, n, n, None);
    assert FollowPages(file, n, n, None) == [p1];
    assert FollowPages(file, 0, n, None) == [p0] + [p1] == [p0, p1];
    assert [p0, p1][1..] == [p1] && [p1][1..] == [];
    assert Contents([p1]) == [0x40];
  }

  lemma BytePages(file: seq<byte>, off: nat, forced: Option<Encoding>)
    requires NoNul(file) && off <= |file|
    ensures Connected(FollowPages(file, off, 1, forced), off)
    decreases |file| - off
  {
    hide Shown, Detect, ReadPage;
    var p := ReadPage(file, off, 1, forced);
    BytePageHere(file, off, forced);
    if p.more {
      BytePages(file, off + 1, forced);
      assert FollowPages(file, off, 1, forced)[1..] == FollowPages(file, off + 1, 1, forced);
    } else {
      assert FollowPages(file, off, 1, forced)[1..] == [];
    }
  }

  lemma BytePageHere(file: seq<byte>, off: nat, forced: Option<Encoding>)
    requires NoNul(file) && off <= |file|
    ensures var p := ReadPage(file, off, 1, forced);
            p.TextPage? && p.offset == off && (p.more ==> p.NextOffset() == off + 1)
  {
    hide Shown, Detect;
  }

  /**
   * When no encoding is named, each page is judged for itself. Following next_offset then shows every byte of every
   * file without NUL bytes for one-byte pages only: for any other size a GBK text is among those that lose a byte.
   */
  lemma GuessedLosslessIff(maxBytes: nat)
    requires maxBytes > 0
    ensures maxBytes == 1 <==> forall file :: NoNul(file) ==> Contents(FollowPages(file, 0, maxBytes, None)) == file
  {
    if maxBytes == 1 {
      forall file | NoNul(file) ensures Contents(FollowPages(file, 0, 1, None)) == file {
        BytePages(file, 0, None);
        FollowShowsIff(file, 0, 1, None);
        assert file[0..] == file;
      }
    } else {
      GuessedPagesLose(maxBytes);
    }
  }

  /** The guess changes between pages: the first page is judged GBK, the second UTF-8. */
  lemma GuessChanges()
    ensures var file: seq<byte> := [0xD6, 0xD0, 0xCE, 0xC4, 0x81, 0x40, 0x61, 0x62];
            && Readable(file, Gbk) && Detect(file[0..4]) == Gbk && Detect(file[4..8]) == Utf8Text
            && Contents(FollowPages(file, 0, 4, None)) == [0xD6, 0xD0, 0xCE, 0xC4, 0x40, 0x61, 0x62] != file
  {
    hide ReadPage, Detect;
    var file: seq<byte> := [0xD6, 0xD0, 0xCE, 0xC4, 0x81, 0x40, 0x61, 0x62];
    assert file[0..4] == [0xD6, 0xD0, 0xCE, 0xC4] && file[4..8] == [0x81, 0x40, 0x61, 0x62];
    JudgedGbk();
    JudgedUtf8();
    ChangedFirst(file);
    ChangedSecond(file);
    var p0, p1 := ReadPage(file, 0, 4, None), ReadPage(file, 4, 4, None);
    assert FollowPages(file, 4, 4, None) == [p1];
    assert FollowPages(file, 0, 4, None) == [p0] + [p1] == [p0, p1];
    assert [p0, p1][1..] == [p1] && [p1][1..] == [];
    assert Contents([p1]) == [0x40, 0x61, 0x62];
  }

  lemma JudgedGbk()
    ensures Detect([0xD6, 0xD0, 0xCE, 0xC4]) == Gbk
  {
    var s: seq<byte> := [0xD6, 0xD0, 0xCE, 0xC4];
    assert !FullRune(s, 3);
    assert Edges(s) == (0, 3);
    var t := s[0..3];
    assert SeqLen(t, 0, 3) == 0 && SeqLen(t, 1, 3) == 0 && SeqLen(t, 2, 3) == 0;
    assert !ValidIn(t, 0, 3);
    assert SequencesFrom(t, 3) == (0, 0);
    assert SequencesFrom(t, 2) == (0, 1);
    assert SequencesFrom(t, 1) == (0, 2);
    assert SequencesFrom(t, 0) == (0, 3);
    assert PairsFrom(s, 4) == (0, 0) && PairsFrom(s, 2) == (1, 0);
  }

  lemma JudgedUtf8()
    ensures Detect([0x81, 0x40, 0x61, 0x62]) == Utf8Text && Edges([0x81, 0x40, 0x61, 0x62]) == (1, 4)
  {
    var s: seq<byte> := [0x81, 0x40, 0x61, 0x62];
    assert HeadEdge(s, 1) == 1;
    assert FullRune(s, 3);
    assert Edges(s) == (1, 4);
    var t := s[1..4];
    assert SeqLen(t, 0, 3) == 1 && SeqLen(t, 1, 3) == 1 && SeqLen(t, 2, 3) == 1;
    assert ValidIn(t, 2, 3) && ValidIn(t, 1, 3);
  }

  lemma ChangedFirst(file: seq<byte>)
    requires file == [0xD6, 0xD0, 0xCE, 0xC4, 0x81, 0x40, 0x61, 0x62] && Detect(file[0..4]) == Gbk
    ensures ReadPage(file, 0, 4, None) == TextPage([0xD6, 0xD0, 0xCE, 0xC4], 0, true)
  {
    var data := file[0..4];
    assert data == [0xD6, 0xD0, 0xCE, 0xC4];
    hide Detect, SyncBefore, WholeFrom;
    NoNewline(data, 4);
    GbEdges(data, false);
    TwoCharacters(data);
    var w := Window(data, 0, true);
    assert ByteWindow(file, 0, 4) == w;
    assert data[0..] == data && data[0..4] == data;
    assert Shown(file, w, Gbk) == (0, 4);
  }

  lemma TwoCharacters(data: seq<byte>)
    requires data == [0xD6, 0xD0, 0xCE, 0xC4]
    ensures WholeFrom(data, 0, 4, false) == 4
  {
    assert CharLen(data, 0, 4, false) == 2 && CharLen(data, 2, 4, false) == 2;
    assert WholeFrom(data, 2, 4, false) == 4;
  }

  lemma ChangedSecond(file: seq<byte>)
    requires file == [0xD6, 0xD0, 0xCE, 0xC4, 0x81, 0x40, 0x61, 0x62] && Detect(file[4..8]) == Utf8Text
    ensures ReadPage(file, 4, 4, None) == TextPage([0x40, 0x61, 0x62], 5, false)
  {
    var data := file[4..8];
    assert data == [0x81, 0x40, 0x61, 0x62];
    JudgedUtf8();
    hide Detect, Edges;
    var w := Window(data, 4, false);
    assert ByteWindow(file, 4, 4) == w;
    assert data[0..] == data && data[1..4] == [0x40, 0x61, 0x62];
    assert Shown(file, w, Utf8Text) == (1, 4);
  }
}
