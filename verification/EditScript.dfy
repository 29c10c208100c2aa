/** Edit scripts and the table diff of the changed middle. A `char` of a `string` stands for one byte. */
module EditScript {
  import opened Basics
  import opened Lcs

  const MAX_DIFF_CELLS: nat := 0x10_0000

  /** The size the table would have, not counting its last row and column. */
  function Cells(n: int, m: int): int { n * m }

  newtype int32 = x: int | -0x8000_0000 <= x < 0x8000_0000

  datatype Kind = Same | Del | Ins

  /** One script line; `oldIdx` and `newIdx` are 0-based line positions on either side. */
  datatype Op = Op(kind: Kind, text: string, oldIdx: nat, newIdx: nat)

  function NextOld(op: Op): nat { if op.kind == Ins then op.oldIdx else op.oldIdx + 1 }

  function NextNew(op: Op): nat { if op.kind == Del then op.newIdx else op.newIdx + 1 }

  /** `op` is an edge of the edit graph of `a` (at old position `ao`) and `b` (at new position `bo`). */
  predicate IsEdge(op: Op, a: seq<string>, b: seq<string>, ao: nat, bo: nat) {
    && (op.kind != Ins ==> ao <= op.oldIdx < ao + |a| && op.text == a[op.oldIdx - ao])
    && (op.kind != Del ==> bo <= op.newIdx < bo + |b| && op.text == b[op.newIdx - bo])
  }

  /** Each line of `ops` starts where the one before it stopped. */
  predicate Chained(ops: seq<Op>) {
    forall k, l :: 0 <= k < |ops| && l == k + 1 < |ops| ==>
      ops[l].oldIdx == NextOld(ops[k]) && ops[l].newIdx == NextNew(ops[k])
  }

  /** Where `ops`, starting at `(i, j)`, leads from and to. */
  predicate Leads(ops: seq<Op>, i: nat, j: nat, i': nat, j': nat) {
    if ops == [] then i == i' && j == j'
    else
      && ops[0].oldIdx == i && ops[0].newIdx == j
      && NextOld(ops[|ops| - 1]) == i' && NextNew(ops[|ops| - 1]) == j'
  }

  /** `ops` is a path of the edit graph from `(i, j)` to `(i', j')`. */
  predicate IsPath(ops: seq<Op>, a: seq<string>, b: seq<string>, ao: nat, bo: nat, i: nat, j: nat, i': nat, j': nat) {
    && Chained(ops)
    && Leads(ops, i, j, i', j')
    && (forall k :: 0 <= k < |ops| ==> IsEdge(ops[k], a, b, ao, bo))
  }

  /** `ops` turns the lines `a` at old position `ao` into the lines `b` at new position `bo`. */
  predicate IsScript(ops: seq<Op>, a: seq<string>, b: seq<string>, ao: nat, bo: nat) {
    IsPath(ops, a, b, ao, bo, ao, bo, ao + |a|, bo + |b|)
  }

  /** How many of the first `n` lines of `ops` are of kind `k`. */
  function CountTo(ops: seq<Op>, n: nat, k: Kind): nat
    requires n <= |ops|
  {
    if n == 0 then 0 else CountTo(ops, n - 1, k) + (if ops[n - 1].kind == k then 1 else 0)
  }

  function Count(ops: seq<Op>, k: Kind): nat { CountTo(ops, |ops|, k) }

  /** The first `n` lines of `ops`, without those of kind `skip`. */
  function SideTo(ops: seq<Op>, n: nat, skip: Kind): seq<string>
    requires n <= |ops|
  {
    if n == 0 then [] else SideTo(ops, n - 1, skip) + (if ops[n - 1].kind == skip then [] else [ops[n - 1].text])
  }

  /** The old side of a script is `Side(ops, Ins)`, the new side `Side(ops, Del)`. */
  function Side(ops: seq<Op>, skip: Kind): seq<string> { SideTo(ops, |ops|, skip) }

  /** Inside a run of changes the deletions come first. */
  predicate DeletionsFirst(ops: seq<Op>) {
    forall k, l :: 0 <= k < |ops| && l == k + 1 < |ops| && ops[k].kind == Ins ==> ops[l].kind != Del
  }

  lemma PathSnoc(ops: seq<Op>, a: seq<string>, b: seq<string>, ao: nat, bo: nat, i: nat, j: nat, op: Op)
    requires IsPath(ops, a, b, ao, bo, i, j, op.oldIdx, op.newIdx) && IsEdge(op, a, b, ao, bo)
    ensures IsPath(ops + [op], a, b, ao, bo, i, j, NextOld(op), NextNew(op))
  {
  }

  lemma {:induction false} CountPrefix(x: seq<Op>, y: seq<Op>, n: nat, k: Kind)
    requires n <= |x|
    ensures CountTo(x + y, n, k) == CountTo(x, n, k)
  {
    if n > 0 {
      CountPrefix(x, y, n - 1, k);
    }
  }

  lemma CountSnoc(ops: seq<Op>, op: Op, k: Kind)
    ensures Count(ops + [op], k) == Count(ops, k) + (if op.kind == k then 1 else 0)
  {
    CountPrefix(ops, [op], |ops|, k);
  }

  lemma {:induction false} CountConcatTo(x: seq<Op>, y: seq<Op>, n: nat, k: Kind)
    requires n <= |y|
    ensures CountTo(x + y, |x| + n, k) == Count(x, k) + CountTo(y, n, k)
  {
    if n == 0 {
      CountPrefix(x, y, |x|, k);
    } else {
      CountConcatTo(x, y, n - 1, k);
    }
  }

  lemma CountConcat(x: seq<Op>, y: seq<Op>, k: Kind)
    ensures Count(x + y, k) == Count(x, k) + Count(y, k)
  {
    CountConcatTo(x, y, |y|, k);
  }

  /** Where the path stands before its `n`-th line. */
  function OldAt(ops: seq<Op>, n: nat, end: nat): nat
    requires n <= |ops|
  {
    if n < |ops| then ops[n].oldIdx else end
  }

  function NewAt(ops: seq<Op>, n: nat, end: nat): nat
    requires n <= |ops|
  {
    if n < |ops| then ops[n].newIdx else end
  }

  /** A path consumes exactly the old lines and produces exactly the new lines between its ends. */
  lemma {:induction false} PathSides(ops: seq<Op>, a: seq<string>, b: seq<string>, i: nat, j: nat, i': nat, j': nat,
                                     n: nat)
    requires IsPath(ops, a, b, 0, 0, i, j, i', j') && n <= |ops|
    requires i <= |a| && j <= |b|
    ensures i <= OldAt(ops, n, i') <= |a| && SideTo(ops, n, Ins) == a[i..OldAt(ops, n, i')]
    ensures j <= NewAt(ops, n, j') <= |b| && SideTo(ops, n, Del) == b[j..NewAt(ops, n, j')]
    ensures OldAt(ops, n, i') == i + CountTo(ops, n, Same) + CountTo(ops, n, Del)
    ensures NewAt(ops, n, j') == j + CountTo(ops, n, Same) + CountTo(ops, n, Ins)
  {
    if n > 0 {
      PathSides(ops, a, b, i, j, i', j', n - 1);
      var op := ops[n - 1];
      assert IsEdge(op, a, b, 0, 0);
      assert OldAt(ops, n, i') == NextOld(op) && NewAt(ops, n, j') == NextNew(op);
      if op.kind != Ins {
        SliceSnoc(a, i, op.oldIdx);
      }
      if op.kind != Del {
        SliceSnoc(b, j, op.newIdx);
      }
    }
  }

  lemma SliceSnoc<T>(s: seq<T>, i: nat, j: nat)
    requires i <= j < |s|
    ensures s[i..j + 1] == s[i..j] + [s[j]]
  {
  }

  lemma {:induction false} NoChanges(ops: seq<Op>, n: nat)
    requires n <= |ops|
    ensures (forall k :: 0 <= k < n ==> ops[k].kind == Same) <==> CountTo(ops, n, Del) == 0 && CountTo(ops, n, Ins) == 0
    ensures (forall k :: 0 <= k < n ==> ops[k].kind == Same) ==> SideTo(ops, n, Ins) == SideTo(ops, n, Del)
  {
    if n > 0 {
      NoChanges(ops, n - 1);
    }
  }

  // ----- the table -----

  /** Where row `r` of a table of width `w` starts: `r * w`, by repeated addition. */
  function Base(r: nat, w: nat): nat {
    if r == 0 then 0 else Base(r - 1, w) + w
  }

  lemma {:induction false} BaseIsProduct(r: nat, w: nat)
    ensures Base(r, w) == r * w
  {
    if r > 0 {
      BaseIsProduct(r - 1, w);
      assert r * w == (r - 1) * w + w;
    }
  }

  lemma {:induction false} BaseMonotone(r: nat, s: nat, w: nat)
    requires r < s
    ensures Base(r, w) + w <= Base(s, w)
    decreases s
  {
    if r + 1 < s {
      BaseMonotone(r, s - 1, w);
    }
  }

  /** The flat index of a cell. */
  method Cell(r: nat, j: nat, w: nat) returns (k: nat)
    ensures k == Base(r, w) + j
  {
    BaseIsProduct(r, w);
    k := r * w + j;
  }

  /** Entry `[i][j]` of `m` is the LCS length of `a[i..]` and `b[j..]`. */
  ghost predicate IsLcsMatrix(m: seq<seq<nat>>, a: seq<string>, b: seq<string>) {
    && |m| == |a| + 1
    && (forall i :: 0 <= i <= |a| ==> |m[i]| == |b| + 1)
    && (forall i, j :: 0 <= i <= |a| && 0 <= j <= |b| ==> m[i][j] == LcsLen(a[i..], b[j..]))
  }

  /** The same matrix seen through its recurrence alone. */
  ghost predicate IsTable(m: seq<seq<nat>>, a: seq<string>, b: seq<string>) {
    && |m| == |a| + 1
    && (forall i :: 0 <= i <= |a| ==> |m[i]| == |b| + 1)
    && (forall i, j :: 0 <= i <= |a| && 0 <= j <= |b| ==> StepOk(m, a, b, i, j))
  }

  ghost predicate StepOk(m: seq<seq<nat>>, a: seq<string>, b: seq<string>, i: nat, j: nat)
    requires |m| == |a| + 1 && (forall i :: 0 <= i <= |a| ==> |m[i]| == |b| + 1)
    requires i <= |a| && j <= |b|
  {
    && m[i][j] <= |a| && m[i][j] <= |b|
    && (i == |a| || j == |b| ==> m[i][j] == 0)
    && (i < |a| && j < |b| ==>
          && m[i + 1][j + 1] <= m[i + 1][j]
          && m[i][j] == if a[i] == b[j] then m[i + 1][j + 1] + 1 else Max(m[i + 1][j], m[i][j + 1]))
  }

  lemma LcsMatrix(a: seq<string>, b: seq<string>) returns (m: seq<seq<nat>>)
    ensures IsTable(m, a, b) && m[0][0] == LcsLen(a, b)
  {
    m := seq(|a| + 1, i requires 0 <= i <= |a| => seq(|b| + 1, j requires 0 <= j <= |b| => LcsLen(a[i..], b[j..])));
    assert IsLcsMatrix(m, a, b);
    forall i, j | 0 <= i <= |a| && 0 <= j <= |b| ensures StepOk(m, a, b, i, j) {
      LcsStep(a, b, i, j);
    }
    assert a[0..] == a && b[0..] == b;
  }

  /** Row `r` of the flat table holds row `r` of the matrix. */
  ghost predicate RowDone(table: seq<int32>, r: nat, row: seq<nat>) {
    var base := Base(r, |row|);
    && base + |row| <= |table|
    && (forall j :: 0 <= j < |row| ==> table[base + j] as int == row[j])
  }

  /** A table within the cell limit has a short side, so its entries fit the 32-bit cells. */
  lemma ShortSide(n: nat, m: nat)
    requires Cells(n, m) <= MAX_DIFF_CELLS
    ensures n <= MAX_DIFF_CELLS || m <= MAX_DIFF_CELLS
  {
    if 0 < m {
      var k := m - 1;
      assert n * (k + 1) == n * k + n && 0 <= n * k;
    }
  }

  lemma RowEnd(m: seq<seq<nat>>, a: seq<string>, b: seq<string>, r: nat)
    requires IsTable(m, a, b) && r < |a|
    ensures |m| == |a| + 1 && |m[r]| == |b| + 1 && |m[r + 1]| == |b| + 1 && m[r][|b|] == 0
  {
    assert StepOk(m, a, b, r, |b|);
  }

  lemma RowCell(m: seq<seq<nat>>, a: seq<string>, b: seq<string>, r: nat, j: nat)
    requires IsTable(m, a, b) && r < |a| && j < |b|
    ensures |m| == |a| + 1 && |m[r]| == |b| + 1 && |m[r + 1]| == |b| + 1 && m[r][j] <= |a| && m[r][j] <= |b|
    ensures m[r][j] == if a[r] == b[j] then m[r + 1][j + 1] + 1 else Max(m[r + 1][j], m[r][j + 1])
  {
    assert StepOk(m, a, b, r, j);
  }

  method FillRow(table: array<int32>, r: nat, a: seq<string>, b: seq<string>, ghost m: seq<seq<nat>>)
    requires r < |a| && (|a| <= MAX_DIFF_CELLS || |b| <= MAX_DIFF_CELLS)
    requires IsTable(m, a, b) && RowDone(table[..], r + 1, m[r + 1])
    requires table[Base(r, |b| + 1) + |b|] == 0
    modifies table
    ensures RowDone(table[..], r, m[r])
    ensures SameOutside(old(table[..]), table[..], r, |b| + 1)
  {
    var w := |b| + 1;
    var base := Cell(r, 0, w);
    var next := Cell(r + 1, 0, w);
    ghost var was, row, below := table[..], m[r], m[r + 1];
    var j := |b|;
    RowEnd(m, a, b, r);
    hide IsTable, StepOk;
    while j > 0
      invariant 0 <= j <= |b|
      invariant forall k :: j <= k <= |b| ==> table[base + k] as int == row[k]
      invariant forall k :: 0 <= k < table.Length && !(base <= k < next) ==> table[k] == was[k]
    {
      j := j - 1;
      RowCell(m, a, b, r, j);
      assert was[next + j] as int == below[j] && was[next + (j + 1)] as int == below[j + 1];
      assert table[base + (j + 1)] as int == row[j + 1];
      if a[r] == b[j] {
        table[base + j] := table[next + j + 1] + 1;
      } else {
        table[base + j] := if table[next + j] >= table[base + j + 1] then table[next + j] else table[base + j + 1];
      }
    }
  }

  ghost predicate SameOutside(before: seq<int32>, after: seq<int32>, r: nat, w: nat) {
    && |after| == |before|
    && forall k :: 0 <= k < |before| && !(Base(r, w) <= k < Base(r + 1, w)) ==> after[k] == before[k]
  }

  lemma RowKept(before: seq<int32>, after: seq<int32>, r: nat, i: nat, row: seq<nat>)
    requires r < i && RowDone(before, i, row) && SameOutside(before, after, r, |row|)
    ensures RowDone(after, i, row)
  {
    BaseMonotone(r, i, |row|);
  }

  method FillTable(a: seq<string>, b: seq<string>, ghost m: seq<seq<nat>>) returns (table: array<int32>)
    requires |a| <= MAX_DIFF_CELLS || |b| <= MAX_DIFF_CELLS
    requires IsTable(m, a, b)
    ensures fresh(table)
    ensures var t := table[..]; forall r :: 0 <= r <= |a| ==> RowDone(t, r, m[r])
  {
    var w := |b| + 1;
    var size := Cell(|a| + 1, 0, w);
    table := new int32[size](_ => 0);
    var r := |a|;
    ghost var t := table[..];
    forall j | 0 <= j <= |b| ensures m[|a|][j] == 0 {
      assert StepOk(m, a, b, |a|, j);
    }
    while r > 0
      invariant 0 <= r <= |a|
      invariant t == table[..] && |t| == Base(|a| + 1, w)
      invariant Base(r, w) <= |t| && forall k :: 0 <= k < Base(r, w) ==> t[k] == 0
      invariant forall i :: r <= i <= |a| ==> RowDone(t, i, m[i])
    {
      r := r - 1;
      ghost var before := t;
      BaseMonotone(r, |a| + 1, w);
      FillRow(table, r, a, b, m);
      t := table[..];
      forall i | r < i <= |a| ensures RowDone(t, i, m[i]) {
        RowKept(before, t, r, i, m[i]);
      }
    }
  }

  // ----- the walk -----

  /** The script of the changed middle: a table walk, or one replace block when the table would be too large. */
  method DiffMiddle(a: seq<string>, b: seq<string>, ao: nat, bo: nat) returns (ops: seq<Op>)
    ensures IsScript(ops, a, b, ao, bo)
    ensures DeletionsFirst(ops)
    ensures Cells(|a|, |b|) <= MAX_DIFF_CELLS ==> IsLcsLength(Count(ops, Same), a, b)
    ensures Cells(|a|, |b|) > MAX_DIFF_CELLS ==> Count(ops, Same) == 0
  {
    if Cells(|a|, |b|) > MAX_DIFF_CELLS {
      ops := ReplaceBlock(a, b, ao, bo);
    } else {
      ShortSide(|a|, |b|);
      ops := WalkTable(a, b, ao, bo);
      LcsLenIsLcs(a, b, Count(ops, Same));
    }
  }

  method ReplaceBlock(a: seq<string>, b: seq<string>, ao: nat, bo: nat) returns (ops: seq<Op>)
    ensures IsScript(ops, a, b, ao, bo)
    ensures DeletionsFirst(ops)
    ensures Count(ops, Same) == 0
  {
    ops := DeleteAll(a, b, ao, bo);
    for j := 0 to |b|
      invariant IsPath(ops, a, b, ao, bo, ao, bo, ao + |a|, bo + j) && Count(ops, Same) == 0
      invariant |ops| == |a| + j && forall k :: 0 <= k < |ops| ==> ops[k].kind == if k < |a| then Del else Ins
    {
      var op := Op(Ins, b[j], ao + |a|, bo + j);
      PathSnoc(ops, a, b, ao, bo, ao, bo, op);
      CountSnoc(ops, op, Same);
      ops := ops + [op];
    }
  }

  method DeleteAll(a: seq<string>, b: seq<string>, ao: nat, bo: nat) returns (ops: seq<Op>)
    ensures IsPath(ops, a, b, ao, bo, ao, bo, ao + |a|, bo) && Count(ops, Same) == 0
    ensures |ops| == |a| && forall k :: 0 <= k < |ops| ==> ops[k].kind == Del
  {
    ops := [];
    for i := 0 to |a|
      invariant IsPath(ops, a, b, ao, bo, ao, bo, ao + i, bo) && Count(ops, Same) == 0
      invariant |ops| == i && forall k :: 0 <= k < |ops| ==> ops[k].kind == Del
    {
      var op := Op(Del, a[i], ao + i, bo);
      PathSnoc(ops, a, b, ao, bo, ao, bo, op);
      CountSnoc(ops, op, Same);
      ops := ops + [op];
    }
  }

  /** What the walk keeps: the path so far, and that the rest of the table still holds the missing matches. */
  ghost predicate WalkInv(ops: seq<Op>, a: seq<string>, b: seq<string>, i: nat, j: nat, ao: nat, bo: nat,
                          m: seq<seq<nat>>) {
    && i <= |a| && j <= |b| && IsTable(m, a, b)
    && IsPath(ops, a, b, ao, bo, ao, bo, ao + i, bo + j)
    && DeletionsFirst(ops)
    && Count(ops, Same) + m[i][j] == m[0][0]
    // After an insertion no deletion is preferred: the next old line still has its partner ahead.
    && (ops != [] && ops[|ops| - 1].kind == Ins && i < |a| ==> m[i][j] > m[i + 1][j])
  }

  /** The walk's choice at `(i, j)`: a match is always taken, and ties go to the deletion. */
  ghost predicate GoodChoice(kind: Kind, a: seq<string>, b: seq<string>, i: nat, j: nat, m: seq<seq<nat>>)
    requires i <= |a| && j <= |b| && IsTable(m, a, b)
  {
    match kind
    case Same => i < |a| && j < |b| && a[i] == b[j] && m[i][j] == m[i + 1][j + 1] + 1
    case Del => i < |a| && m[i][j] == m[i + 1][j]
    case Ins => j < |b| && m[i][j] == m[i][j + 1] && (i < |a| ==> m[i][j + 1] > m[i + 1][j] >= m[i + 1][j + 1])
  }

  method WalkTable(a: seq<string>, b: seq<string>, ao: nat, bo: nat) returns (ops: seq<Op>)
    requires |a| <= MAX_DIFF_CELLS || |b| <= MAX_DIFF_CELLS
    ensures IsScript(ops, a, b, ao, bo)
    ensures DeletionsFirst(ops)
    ensures Count(ops, Same) == LcsLen(a, b)
  {
    ghost var m := LcsMatrix(a, b);
    var table := FillTable(a, b, m);
    ghost var t := table[..];
    var i, j := 0, 0;
    ops := [];
    while i < |a| || j < |b|
      invariant t == table[..] && WalkInv(ops, a, b, i, j, ao, bo, m)
      decreases |a| - i + |b| - j
    {
      var kind := NextKind(table, a, b, i, j, m);
      var op := Op(kind, if kind == Ins then b[j] else a[i], ao + i, bo + j);
      WalkStep(ops, a, b, i, j, ao, bo, m, op);
      ops := ops + [op];
      i := if kind == Ins then i else i + 1;
      j := if kind == Del then j else j + 1;
    }
    assert StepOk(m, a, b, i, j);
  }

  lemma WalkStep(ops: seq<Op>, a: seq<string>, b: seq<string>, i: nat, j: nat, ao: nat, bo: nat, m: seq<seq<nat>>,
                 op: Op)
    requires WalkInv(ops, a, b, i, j, ao, bo, m) && GoodChoice(op.kind, a, b, i, j, m)
    requires op == Op(op.kind, if op.kind == Ins then b[j] else a[i], ao + i, bo + j)
    ensures var i', j' := if op.kind == Ins then i else i + 1, if op.kind == Del then j else j + 1;
            WalkInv(ops + [op], a, b, i', j', ao, bo, m)
  {
    PathSnoc(ops, a, b, ao, bo, ao, bo, op);
    CountSnoc(ops, op, Same);
  }

  method NextKind(table: array<int32>, a: seq<string>, b: seq<string>, i: nat, j: nat, ghost m: seq<seq<nat>>)
    returns (kind: Kind)
    requires i <= |a| && j <= |b| && (i < |a| || j < |b|)
    requires IsTable(m, a, b)
    requires var t := table[..]; forall r :: 0 <= r <= |a| ==> RowDone(t, r, m[r])
    ensures GoodChoice(kind, a, b, i, j, m)
  {
    assert StepOk(m, a, b, i, j);
    if i < |a| && j < |b| && a[i] == b[j] {
      kind := Same;
    } else if i < |a| && j == |b| {
      assert StepOk(m, a, b, i + 1, j);
      kind := Del;
    } else if i < |a| {
      var w := |b| + 1;
      var below := Cell(i + 1, j, w);
      var right := Cell(i, j + 1, w);
      assert RowDone(table[..], i, m[i]) && RowDone(table[..], i + 1, m[i + 1]);
      assert table[..][Base(i, w) + (j + 1)] as int == m[i][j + 1];
      kind := if table[below] >= table[right] then Del else Ins;
    } else {
      assert StepOk(m, a, b, i, j + 1);
      kind := Ins;
    }
  }

  /** One step of the recurrence in terms of positions, with the monotonicity the walk relies on. */
  lemma LcsStep(a: seq<string>, b: seq<string>, i: nat, j: nat)
    requires i <= |a| && j <= |b|
    ensures i == |a| || j == |b| ==> LcsLen(a[i..], b[j..]) == 0
    ensures i < |a| && j < |b| && a[i] == b[j] ==> LcsLen(a[i..], b[j..]) == 1 + LcsLen(a[i + 1..], b[j + 1..])
    ensures i < |a| && j < |b| && a[i] != b[j] ==>
              LcsLen(a[i..], b[j..]) == Max(LcsLen(a[i + 1..], b[j..]), LcsLen(a[i..], b[j + 1..]))
    ensures i < |a| && j < |b| ==> LcsLen(a[i + 1..], b[j + 1..]) <= LcsLen(a[i + 1..], b[j..])
  {
    if i < |a| && j < |b| {
      assert a[i..][0] == a[i] && a[i..][1..] == a[i + 1..] && b[j..][0] == b[j] && b[j..][1..] == b[j + 1..];
      var c := LcsWitness(a[i + 1..], b[j + 1..]);
      assert IsSubseq(c, b[j..]);
      LcsUpper(c, a[i + 1..], b[j..]);
    }
  }
}
