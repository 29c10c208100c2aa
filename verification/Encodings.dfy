/** Guessing the encoding of part of a file from its bytes. */
module Encodings {
  import opened Basics
  import opened Bytes
  import opened Utf8

  const BINARY_SNIFF_LEN: nat := 8000

  /** GB2312 is read as GBK; `Unknown` stands for raw bytes. */
  datatype Encoding = Utf8Text | Gbk | Gb18030 | Unknown

  predicate IsGb(e: Encoding) { e == Gbk || e == Gb18030 }

  /** Whether a NUL is among the first bytes. */
  predicate LooksBinary(data: seq<byte>) {
    exists i :: 0 <= i < Min(|data|, BINARY_SNIFF_LEN) && data[i] == 0
  }

  /** Valid multi-byte sequences and invalid bytes of `s[i..]`. */
  function SequencesFrom(s: seq<byte>, i: nat): (nat, nat)
    requires i <= |s|
    decreases |s| - i
  {
    if i == |s| then (0, 0)
    else
      var n := SeqLen(s, i, |s|);
      var (good, bad) := SequencesFrom(s, if n == 0 then i + 1 else i + n);
      (if n > 1 then good + 1 else good, if n == 0 then bad + 1 else bad)
  }

  method Utf8Sequences(s: seq<byte>) returns (good: nat, bad: nat)
    ensures (good, bad) == SequencesFrom(s, 0)
  {
    good, bad := 0, 0;
    var i := 0;
    ghost var goal := SequencesFrom(s, 0);
    while i < |s|
      invariant i <= |s|
      invariant goal == (good + SequencesFrom(s, i).0, bad + SequencesFrom(s, i).1)
    {
      var n := SeqLen(s, i, |s|);
      if n == 0 {
        bad := bad + 1;
      } else if n > 1 {
        good := good + 1;
      }
      i := if n == 0 then i + 1 else i + n;
    }
  }

  predicate IsGbkPair(b: byte, t: byte) { 0x81 <= b <= 0xFE && 0x40 <= t <= 0xFE && t != 0x7F }

  /** High bytes of `s[i..]` in GBK pairs, and those in none; a lead byte without room for its trail is not counted. */
  function PairsFrom(s: seq<byte>, i: nat): (nat, nat)
    requires i <= |s|
    decreases |s| - i
  {
    if i == |s| then (0, 0)
    else if s[i] < 0x80 then PairsFrom(s, i + 1)
    else if 0x81 <= s[i] <= 0xFE && i + 1 == |s| then (0, 0)
    else if i + 1 < |s| && IsGbkPair(s[i], s[i + 1]) then
      var (good, bad) := PairsFrom(s, i + 2);
      (good + 1, bad)
    else
      var (good, bad) := PairsFrom(s, i + 1);
      (good, bad + 1)
  }

  method GbkPairs(s: seq<byte>) returns (good: nat, bad: nat)
    ensures (good, bad) == PairsFrom(s, 0)
  {
    good, bad := 0, 0;
    var i := 0;
    ghost var goal := PairsFrom(s, 0);
    while i < |s|
      invariant i <= |s|
      invariant goal == (good + PairsFrom(s, i).0, bad + PairsFrom(s, i).1)
    {
      var b := s[i];
      if b < 0x80 {
        i := i + 1;
      } else if b >= 0x81 && b <= 0xFE && i + 1 == |s| {
        break;
      } else if i + 1 < |s| && IsGbkPair(b, s[i + 1]) {
        good, i := good + 1, i + 2;
      } else {
        bad, i := bad + 1, i + 1;
      }
    }
  }

  /** The decision from the counts of `t`, the window without its edges, and of the whole window. */
  function Decide(ug: nat, ub: nat, gg: nat, gb: nat): Encoding {
    if ug > 0 && (ub * 50 <= ug || ub <= gb) then Utf8Text
    else if gg > 0 && gb * 20 <= gg && gb < ub then Gbk
    else Unknown
  }

  function Detect(data: seq<byte>): Encoding {
    var (s, e) := Edges(data);
    var t := data[s..e];
    if Valid(t) then Utf8Text
    else
      var (ug, ub) := SequencesFrom(t, 0);
      var (gg, gb) := PairsFrom(data, 0);
      Decide(ug, ub, gg, gb)
  }

  method DetectEncoding(data: seq<byte>) returns (e: Encoding)
    ensures e == Detect(data)
  {
    var start, end := Utf8Edges(data);
    var t := data[start..end];
    if Valid(t) {
      return Utf8Text;
    }
    var ug, ub := Utf8Sequences(t);
    var gg, gb := GbkPairs(data);
    e := Decide(ug, ub, gg, gb);
  }

  /** Every window of valid UTF-8 text is recognized, wherever its edges cut. */
  lemma DetectWindow(s: seq<byte>, x: nat, y: nat)
    requires Valid(s) && x <= y <= |s|
    ensures Detect(s[x..y]) == Utf8Text
  {
    EdgesValid(s, x, y);
  }
}
