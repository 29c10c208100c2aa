/** The printed form of a unified diff: rendering, parsing, and applying it to a list of lines. */
module Patch {
  import opened Basics
  import opened EditScript

  datatype Line = Line(kind: Kind, text: string)

  /** One hunk as printed: the header numbers and the lines below it. */
  datatype Hunk = Hunk(oldStart: nat, oldCount: nat, newStart: nat, newCount: nat, body: seq<Line>)

  // ----- rendering -----

  function Digit(d: nat): char
    requires d < 10
  {
    '0' + d as char
  }

  function Dec(n: nat): (s: string)
    ensures s != "" && IsDigit(s[0])
  {
    if n < 10 then [Digit(n)] else Dec(n / 10) + [Digit(n % 10)]
  }

  /** The header line of `h`, followed by `rest`. */
  function HeaderThen(h: Hunk, rest: string): string {
    "@@ -" + (Dec(h.oldStart) + ("," + (Dec(h.oldCount) + (" +" +
      (Dec(h.newStart) + ("," + (Dec(h.newCount) + (" @@\n" + rest))))))))
  }

  function KindChar(k: Kind): char {
    match k
    case Same => ' '
    case Del => '-'
    case Ins => '+'
  }

  function LineText(l: Line): string { [KindChar(l.kind)] + l.text + "\n" }

  /** The text lines of one hunk, each with its newline. */
  function HunkLines(h: Hunk): seq<string> {
    [HeaderThen(h, "")] + seq(|h.body|, i requires 0 <= i < |h.body| => LineText(h.body[i]))
  }

  function PatchLines(hs: seq<Hunk>): seq<string> {
    if hs == [] then [] else HunkLines(hs[0]) + PatchLines(hs[1..])
  }

  function Concat(ls: seq<string>): string {
    if ls == [] then "" else ls[0] + Concat(ls[1..])
  }

  /** The full text of a patch. */
  function PatchText(hs: seq<Hunk>): string { Concat(PatchLines(hs)) }

  // ----- parsing -----

  predicate IsDigit(c: char) { '0' <= c <= '9' }

  function Expect(s: string, lit: string): (r: Option<string>) {
    if lit <= s then Some(s[|lit|..]) else None
  }

  function Digits(s: string, acc: nat): (nat, string) {
    if s != "" && IsDigit(s[0]) then Digits(s[1..], acc * 10 + (s[0] - '0') as nat) else (acc, s)
  }

  function TakeNat(s: string): Option<(nat, string)> {
    if s != "" && IsDigit(s[0]) then Some(Digits(s, 0)) else None
  }

  /** A hunk without its lines, and the text after the header. */
  function ParseHeader(s: string): Option<(Hunk, string)> {
    var s :- Expect(s, "@@ -");
    var (oldStart, s) :- TakeNat(s);
    var s :- Expect(s, ",");
    var (oldCount, s) :- TakeNat(s);
    var s :- Expect(s, " +");
    var (newStart, s) :- TakeNat(s);
    var s :- Expect(s, ",");
    var (newCount, s) :- TakeNat(s);
    var s :- Expect(s, " @@\n");
    Some((Hunk(oldStart, oldCount, newStart, newCount, []), s))
  }

  /** Position of the first newline, or the length of `s`. */
  function LineEnd(s: string): (n: nat)
    ensures n <= |s|
    ensures forall i :: 0 <= i < n ==> s[i] != '\n'
    ensures n < |s| ==> s[n] == '\n'
  {
    if s == "" || s[0] == '\n' then 0 else 1 + LineEnd(s[1..])
  }

  function KindOf(c: char): Option<Kind> {
    if c == ' ' then Some(Same) else if c == '-' then Some(Del) else if c == '+' then Some(Ins) else None
  }

  /** The hunk lines at the head of `s`, and what follows them. */
  function ParseBody(s: string): (r: (seq<Line>, string))
    ensures |r.1| <= |s|
    decreases |s|
  {
    var n := LineEnd(s);
    if n == 0 || n == |s| || KindOf(s[0]).None? then ([], s)
    else
      var (ls, rest) := ParseBody(s[n + 1..]);
      ([Line(KindOf(s[0]).value, s[1..n])] + ls, rest)
  }

  function ParsePatch(s: string): Option<seq<Hunk>>
    decreases |s|
  {
    if s == "" then Some([])
    else
      var (h, s1) :- ParseHeader(s);
      var (body, s2) := ParseBody(s1);
      if |s2| < |s| then
        var hs :- ParsePatch(s2);
        Some([h.(body := body)] + hs)
      else None
  }

  // ----- applying -----

  function Texts(body: seq<Line>, n: nat, skip: Kind): seq<string>
    requires n <= |body|
  {
    if n == 0 then []
    else Texts(body, n - 1, skip) + (if body[n - 1].kind == skip then [] else [body[n - 1].text])
  }

  /** The old lines a hunk shows. */
  function OldLines(h: Hunk): seq<string> { Texts(h.body, |h.body|, Ins) }

  /** The new lines a hunk shows. */
  function NewLines(h: Hunk): seq<string> { Texts(h.body, |h.body|, Del) }

  /** 0-based position of a hunk; a side without lines is numbered by the line before it. */
  function Position(start: nat, count: nat): int { if count == 0 then start else start - 1 }

  /**
   * Applies `hs` strictly: `i` old lines are already consumed and `j` new lines produced. Every hunk must lie at
   * its header positions on both sides, have the counts its header says, and show the old lines that are there.
   */
  function ApplyFrom(hs: seq<Hunk>, a: seq<string>, i: nat, j: nat): Option<seq<string>>
    requires i <= |a|
    decreases |hs|
  {
    if hs == [] then Some(a[i..])
    else
      var h := hs[0];
      var p, q := Position(h.oldStart, h.oldCount), Position(h.newStart, h.newCount);
      if i <= p && p + h.oldCount <= |a| && q - j == p - i
         && OldLines(h) == a[p..p + h.oldCount] && |NewLines(h)| == h.newCount
      then
        var rest :- ApplyFrom(hs[1..], a, p + h.oldCount, q + h.newCount);
        Some(a[i..p] + NewLines(h) + rest)
      else None
  }

  function Apply(hs: seq<Hunk>, a: seq<string>): Option<seq<string>> { ApplyFrom(hs, a, 0, 0) }

  // ----- parsing undoes rendering -----

  predicate NoNewline(h: Hunk) {
    forall k :: 0 <= k < |h.body| ==> '\n' !in h.body[k].text
  }

  lemma ExpectLit(lit: string, rest: string)
    ensures Expect(lit + rest, lit) == Some(rest)
  {
  }

  lemma {:induction false} DigitsOfDec(n: nat, rest: string)
    ensures Digits(Dec(n) + rest, 0) == Digits(rest, n)
  {
    if n < 10 {
      assert (Dec(n) + rest)[1..] == rest;
    } else {
      var d := [Digit(n % 10)];
      Reassoc(Dec(n / 10), d, rest);
      DigitsOfDec(n / 10, d + rest);
      assert (d + rest)[1..] == rest;
    }
  }

  lemma TakeNatOfDec(n: nat, rest: string)
    requires rest != "" && !IsDigit(rest[0])
    ensures TakeNat(Dec(n) + rest) == Some((n, rest))
  {
    DigitsOfDec(n, rest);
  }

  lemma ParseHeaderThen(h: Hunk, rest: string)
    ensures ParseHeader(HeaderThen(h, rest)) == Some((h.(body := []), rest))
  {
    var r9 := " @@\n" + rest;
    var r8 := Dec(h.newCount) + r9;
    var r7 := "," + r8;
    var r6 := Dec(h.newStart) + r7;
    var r5 := " +" + r6;
    var r4 := Dec(h.oldCount) + r5;
    var r3 := "," + r4;
    var r2 := Dec(h.oldStart) + r3;
    ExpectLit("@@ -", r2);
    TakeNatOfDec(h.oldStart, r3);
    ExpectLit(",", r4);
    TakeNatOfDec(h.oldCount, r5);
    ExpectLit(" +", r6);
    TakeNatOfDec(h.newStart, r7);
    ExpectLit(",", r8);
    TakeNatOfDec(h.newCount, r9);
    ExpectLit(" @@\n", rest);
  }

  lemma HeaderSplits(h: Hunk, rest: string)
    ensures HeaderThen(h, rest) == HeaderThen(h, "") + rest
  {
    var x9, y9 := " @@\n" + "", " @@\n" + rest;
    assert y9 == x9 + rest;
    var x8, y8 := Dec(h.newCount) + x9, Dec(h.newCount) + y9;
    Reassoc(Dec(h.newCount), x9, rest);
    var x7, y7 := "," + x8, "," + y8;
    Reassoc(",", x8, rest);
    var x6, y6 := Dec(h.newStart) + x7, Dec(h.newStart) + y7;
    Reassoc(Dec(h.newStart), x7, rest);
    var x5, y5 := " +" + x6, " +" + y6;
    Reassoc(" +", x6, rest);
    var x4, y4 := Dec(h.oldCount) + x5, Dec(h.oldCount) + y5;
    Reassoc(Dec(h.oldCount), x5, rest);
    var x3, y3 := "," + x4, "," + y4;
    Reassoc(",", x4, rest);
    var x2, y2 := Dec(h.oldStart) + x3, Dec(h.oldStart) + y3;
    Reassoc(Dec(h.oldStart), x3, rest);
    Reassoc("@@ -", x2, rest);
  }

  /** `rest` does not continue a hunk body. */
  predicate EndsBody(rest: string) { rest == "" || KindOf(rest[0]).None? }

  /** The text of the lines `body[k..]`, followed by `rest`. */
  function BodyText(body: seq<Line>, k: nat, rest: string): string
    requires k <= |body|
    decreases |body| - k
  {
    if k == |body| then rest else LineText(body[k]) + BodyText(body, k + 1, rest)
  }

  lemma LineEndAt(s: string, n: nat)
    requires n < |s| && s[n] == '\n' && forall i :: 0 <= i < n ==> s[i] != '\n'
    ensures LineEnd(s) == n
  {
  }

  lemma LineTextParts(l: Line, tail: string)
    requires '\n' !in l.text
    ensures var s, n := LineText(l) + tail, 1 + |l.text|;
            && LineEnd(s) == n && n + 1 <= |s| && s[0] == KindChar(l.kind) && s[1..n] == l.text && s[n + 1..] == tail
  {
    var s, n := LineText(l) + tail, 1 + |l.text|;
    assert s[n] == '\n';
    LineEndAt(s, n);
  }

  lemma ParseBodyLine(l: Line, tail: string)
    requires '\n' !in l.text
    ensures var (ls, rest) := ParseBody(tail); ParseBody(LineText(l) + tail) == ([l] + ls, rest)
  {
    LineTextParts(l, tail);
  }

  lemma ParseBodyStop(rest: string)
    requires EndsBody(rest)
    ensures ParseBody(rest) == ([], rest)
  {
  }

  lemma {:induction false} ParseBodyText(body: seq<Line>, k: nat, rest: string)
    requires k <= |body| && EndsBody(rest) && forall k :: 0 <= k < |body| ==> '\n' !in body[k].text
    ensures ParseBody(BodyText(body, k, rest)) == (body[k..], rest)
    decreases |body| - k
  {
    if k == |body| {
      ParseBodyStop(rest);
    } else {
      var tail := BodyText(body, k + 1, rest);
      assert BodyText(body, k, rest) == LineText(body[k]) + tail;
      ParseBodyLine(body[k], tail);
      ParseBodyText(body, k + 1, rest);
      DropCons(body, k);
    }
  }

  lemma {:induction false} BodyTextConcat(h: Hunk, k: nat, rest: seq<string>)
    requires k <= |h.body|
    ensures Concat(HunkLines(h)[k + 1..] + rest) == BodyText(h.body, k, Concat(rest))
    decreases |h.body| - k
  {
    var ls := HunkLines(h);
    if k == |h.body| {
      assert ls[k + 1..] + rest == rest;
    } else {
      BodyTextConcat(h, k + 1, rest);
      DropCons(ls, k + 1);
      assert ls[k + 1] == LineText(h.body[k]);
      assert ls[k + 1..] + rest == [ls[k + 1]] + (ls[k + 2..] + rest);
    }
  }

  /** The text of a patch is its first header, the first body, and the text of the other hunks. */
  lemma PatchTextHead(hs: seq<Hunk>)
    requires hs != []
    ensures PatchText(hs) == HeaderThen(hs[0], BodyText(hs[0].body, 0, PatchText(hs[1..])))
  {
    var h, rest := hs[0], PatchLines(hs[1..]);
    var ls := HunkLines(h);
    BodyTextConcat(h, 0, rest);
    assert ls + rest == [HeaderThen(h, "")] + (ls[1..] + rest);
    HeaderSplits(h, BodyText(h.body, 0, Concat(rest)));
  }

  lemma PatchTextEndsBody(hs: seq<Hunk>)
    ensures EndsBody(PatchText(hs))
  {
    if hs != [] {
      PatchTextHead(hs);
    }
  }

  /** Parsing the printed patch gives back exactly its hunks. */
  lemma {:induction false} ParsePatchText(hs: seq<Hunk>)
    requires forall h :: h in hs ==> NoNewline(h)
    ensures ParsePatch(PatchText(hs)) == Some(hs)
    decreases |hs|
  {
    if hs != [] {
      var h, tail := hs[0], PatchText(hs[1..]);
      var body := BodyText(h.body, 0, tail);
      PatchTextHead(hs);
      PatchTextEndsBody(hs[1..]);
      ParseHeaderThen(h, body);
      assert NoNewline(h);
      ParseBodyText(h.body, 0, tail);
      assert h.body[0..] == h.body;
      ParsePatchText(hs[1..]);
      assert [h] + hs[1..] == hs;
    }
  }
}
