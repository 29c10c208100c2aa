/** What the guess of an encoding amounts to, in terms of the characters that reading in that encoding would find. */
module Guess {
  import opened Bytes
  import opened Utf8
  import opened GbText
  import opened Encodings

  /**
   * Reading `s[i..]` as GBK: the two-byte characters, and the high bytes that are read alone. A character cut off at
   * the end is neither.
   */
  function ParsedFrom(s: seq<byte>, i: nat): (nat, nat)
    requires i <= |s|
    decreases |s| - i
  {
    if i == |s| || i + CharLen(s, i, |s|, false) > |s| then (0, 0)
    else
      var n := CharLen(s, i, |s|, false);
      var (two, lone) := ParsedFrom(s, i + n);
      (if n == 2 then two + 1 else two, if n == 1 && s[i] >= 0x80 then lone + 1 else lone)
  }

  /** The pairs counted are the characters that paging in GBK would find. */
  lemma {:induction false} PairsAreCharacters(s: seq<byte>, i: nat)
    requires i <= |s|
    ensures PairsFrom(s, i) == ParsedFrom(s, i)
    decreases |s| - i
  {
    if i < |s| && i + CharLen(s, i, |s|, false) <= |s| {
      PairsAreCharacters(s, i + CharLen(s, i, |s|, false));
    }
  }

  lemma {:induction false} NoneInvalid(s: seq<byte>, i: nat)
    requires i <= |s|
    ensures SequencesFrom(s, i).1 == 0 <==> ValidIn(s, i, |s|)
    decreases |s| - i
  {
    if i < |s| {
      var n := SeqLen(s, i, |s|);
      NoneInvalid(s, if n == 0 then i + 1 else i + n);
    }
  }

  /**
   * The guess: UTF-8 when nothing is invalid, when at most one byte in fifty sequences is, or when reading as GBK
   * leaves as many high bytes alone; else GBK when at most one high byte in twenty characters is alone, and fewer than
   * are invalid; else neither. What the edges of the window cut does not count as invalid.
   */
  lemma GuessIff(data: seq<byte>)
    ensures var (good, bad) := SequencesFrom(data[Edges(data).0..Edges(data).1], 0);
            var (two, lone) := ParsedFrom(data, 0);
            && (Detect(data) == Utf8Text <==> bad == 0 || good >= 50 * bad || (good > 0 && lone >= bad))
            && (Detect(data) == Gbk <==>
                  bad > 0 && good < 50 * bad && (good == 0 || lone < bad) && two > 0 && two >= 20 * lone && lone < bad)
            && Detect(data) != Gb18030
  {
    PairsAreCharacters(data, 0);
    NoneInvalid(data[Edges(data).0..Edges(data).1], 0);
    hide SequencesFrom, PairsFrom, ParsedFrom, ValidIn, Edges;
  }

  // ----- text with one stray byte -----

  /** The multi-byte characters of `s[i..j]`. */
  function Multi(s: seq<byte>, i: nat, j: nat): nat
    requires i <= j <= |s|
    decreases j - i
  {
    var n := SeqLen(s, i, j);
    if n == 0 then 0 else Multi(s, i + n, j) + if n > 1 then 1 else 0
  }

  lemma {:induction false} SequencesOfValid(s: seq<byte>, i: nat, j: nat)
    requires i <= j <= |s| && ValidIn(s, i, j)
    ensures SequencesFrom(s, i) == (Multi(s, i, j) + SequencesFrom(s, j).0, SequencesFrom(s, j).1)
    decreases j - i
  {
    if i < j {
      var n := SeqLen(s, i, j);
      assert SeqLen(s, i, |s|) == n;
      SequencesOfValid(s, i + n, j);
    }
  }

  /** The last character is complete, so the tail of the window is kept. */
  lemma {:induction false} TailWhole(s: seq<byte>, i: nat, p: nat)
    requires p <= i < |s| && SeqLen(s, p, |s|) == |s| - p
    ensures TailEdge(s, 0, i) == |s|
    decreases i
  {
    if i > p {
      TailWhole(s, i - 1, p);
    }
  }

  lemma {:induction false} LastStart(s: seq<byte>, i: nat) returns (p: nat)
    requires i < |s| && ValidIn(s, i, |s|)
    ensures i <= p < |s| && SeqLen(s, p, |s|) == |s| - p
    decreases |s| - i
  {
    var n := SeqLen(s, i, |s|);
    p := i;
    if i + n < |s| {
      p := LastStart(s, i + n);
    }
  }

  /**
   * UTF-8 text in which one byte at `p` belongs to no character is recognized exactly if it has fifty multi-byte
   * characters, or one at least while reading as GBK leaves a high byte alone as well.
   */
  lemma StrayByteIff(s: seq<byte>, p: nat)
    requires 0 < p < |s| - 1 && ValidIn(s, 0, p) && Announced(s[p]) == 0 && ValidIn(s, p + 1, |s|)
    ensures var m := Multi(s, 0, p) + Multi(s, p + 1, |s|);
            Detect(s) == Utf8Text <==> m >= 50 || (m > 0 && ParsedFrom(s, 0).1 > 0)
  {
    assert SeqLen(s, 0, p) > 0;
    var q := LastStart(s, p + 1);
    TailWhole(s, |s| - 1, q);
    assert Edges(s) == (0, |s|) && s[0..|s|] == s;
    SequencesOfValid(s, 0, p);
    SequencesOfValid(s, p + 1, |s|);
    assert SequencesFrom(s, p) == (SequencesFrom(s, p + 1).0, SequencesFrom(s, p + 1).1 + 1);
    hide Edges, Multi, ValidIn;
    GuessIff(s);
  }

  /** GBK text, all of it characters, is taken for GBK unless it is as good as valid UTF-8. */
  lemma GbkIff(s: seq<byte>)
    requires ParsedFrom(s, 0).0 > 0 && ParsedFrom(s, 0).1 == 0
    ensures var (good, bad) := SequencesFrom(s[Edges(s).0..Edges(s).1], 0);
            if bad > 0 && good < 50 * bad then Detect(s) == Gbk else Detect(s) == Utf8Text
  {
    GuessIff(s);
  }
}
