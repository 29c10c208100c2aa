/** Searching a tree of files: one streaming pass per file, result pages, and why following the pages loses nothing. */
module Search {
  import opened Basics
  import opened SearchContext

  datatype Mode = ContentMode | FilesMode | CountMode

  /** A searchable file, its lines decoded, in walk order. */
  datatype File = File(path: string, lines: seq<string>)

  /** The request; `cap` is the limit on the text of one page. */
  datatype Opts = Opts(mode: Mode, style: Style, maxResults: nat, skip: nat, cap: nat)

  predicate ValidOpts(o: Opts) { o.maxResults > 0 && o.cap > 0 }

  datatype FileHit = FileHit(file: string, count: nat)

  /** One result: a matching line, or a file of the other modes. */
  datatype Item = LineItem(file: string, line: nat, content: string) | FileItem(hit: FileHit)

  // ----- the results of an unbounded scan -----

  /** The matching lines among the first `n`. */
  function LineItems(f: File, s: Style, n: nat): seq<Item>
    requires n <= |f.lines|
  {
    if n == 0 then []
    else LineItems(f, s, n - 1) + (if s.re(f.lines[n - 1]) then [LineItem(f.path, n, s.hit(f.lines[n - 1]))] else [])
  }

  function CountTo(lines: seq<string>, s: Style, n: nat): nat
    requires n <= |lines|
  {
    if n == 0 then 0 else CountTo(lines, s, n - 1) + (if s.re(lines[n - 1]) then 1 else 0)
  }

  function FileItems(f: File, o: Opts): seq<Item> {
    var n := |f.lines|;
    match o.mode
    case ContentMode => LineItems(f, o.style, n)
    case FilesMode => if CountTo(f.lines, o.style, n) > 0 then [FileItem(FileHit(f.path, 0))] else []
    case CountMode =>
      if CountTo(f.lines, o.style, n) > 0 then [FileItem(FileHit(f.path, CountTo(f.lines, o.style, n)))] else []
  }

  /** The results of the first `n` files. */
  function TreeItems(tree: seq<File>, o: Opts, n: nat): seq<Item>
    requires n <= |tree|
  {
    if n == 0 then [] else TreeItems(tree, o, n - 1) + FileItems(tree[n - 1], o)
  }

  function AllItems(tree: seq<File>, o: Opts): seq<Item> { TreeItems(tree, o, |tree|) }

  // ----- one call -----

  function ItemOf(m: Match): Item { LineItem(m.file, m.line, m.content) }

  function MatchItems(ms: seq<Match>): seq<Item> { seq(|ms|, i requires 0 <= i < |ms| => ItemOf(ms[i])) }

  function HitItems(hs: seq<FileHit>): seq<Item> { seq(|hs|, i requires 0 <= i < |hs| => FileItem(hs[i])) }

  /** The bytes of the first `n` texts. */
  function TextLen(ts: seq<string>, n: nat): nat
    requires n <= |ts|
  {
    if n == 0 then 0 else TextLen(ts, n - 1) + |ts[n - 1]|
  }

  /** The bytes shown with a match. */
  function MatchLen(m: Match): nat { TextLen(m.before, |m.before|) + |m.content| + TextLen(m.after, |m.after|) }

  /** The bytes of the first `n` matches. */
  function MatchesLen(ms: seq<Match>, n: nat): nat
    requires n <= |ms|
  {
    if n == 0 then 0 else MatchesLen(ms, n - 1) + MatchLen(ms[n - 1])
  }

  function HitsLen(hs: seq<FileHit>, n: nat): nat
    requires n <= |hs|
  {
    if n == 0 then 0 else HitsLen(hs, n - 1) + |hs[n - 1].file| + 16
  }

  /** The results of a page. */
  function PageItems(mode: Mode, ms: seq<Match>, hs: seq<FileHit>): seq<Item> {
    if mode == ContentMode then MatchItems(ms) else HitItems(hs)
  }

  /** The bytes of its first `n` results. */
  function PageLen(mode: Mode, ms: seq<Match>, hs: seq<FileHit>, n: nat): nat
    requires n <= |PageItems(mode, ms, hs)|
  {
    if mode == ContentMode then MatchesLen(ms, n) else HitsLen(hs, n)
  }

  lemma {:induction false} TextLenPrefix(ts: seq<string>, t: string, n: nat)
    requires n <= |ts|
    ensures TextLen(ts + [t], n) == TextLen(ts, n)
  {
    if n > 0 {
      TextLenPrefix(ts, t, n - 1);
    }
  }

  lemma {:induction false} MatchesLenPrefix(ms: seq<Match>, ms': seq<Match>, n: nat)
    requires n <= |ms| && n <= |ms'| && forall k :: 0 <= k < n ==> MatchLen(ms[k]) == MatchLen(ms'[k])
    ensures MatchesLen(ms, n) == MatchesLen(ms', n)
  {
    if n > 0 {
      MatchesLenPrefix(ms, ms', n - 1);
    }
  }

  lemma {:induction false} HitsLenPrefix(hs: seq<FileHit>, h: FileHit, n: nat)
    requires n <= |hs|
    ensures HitsLen(hs + [h], n) == HitsLen(hs, n)
  {
    if n > 0 {
      HitsLenPrefix(hs, h, n - 1);
    }
  }

  lemma MatchesLenSnoc(ms: seq<Match>, m: Match)
    ensures MatchesLen(ms + [m], |ms| + 1) == MatchesLen(ms, |ms|) + MatchLen(m)
  {
    MatchesLenPrefix(ms + [m], ms, |ms|);
  }

  lemma MatchesLenAfter(ms: seq<Match>, t: string)
    requires ms != []
    ensures var k := |ms| - 1;
            var ms' := ms[k := ms[k].(after := ms[k].after + [t])];
            MatchesLen(ms', |ms|) == MatchesLen(ms, |ms|) + |t|
  {
    var k := |ms| - 1;
    var ms' := ms[k := ms[k].(after := ms[k].after + [t])];
    MatchesLenPrefix(ms, ms', k);
    TextLenPrefix(ms[k].after, t, |ms[k].after|);
  }

  /** A line kept for the context of a later match. */
  datatype ContextLine = ContextLine(n: nat, text: string)

  /** The ring holds the last lines before line `n + 1`, up to the context asked for. */
  predicate IsRing(ring: seq<ContextLine>, lines: seq<string>, s: Style, n: nat) {
    && n <= |lines| && |ring| == Min(n, s.before)
    && (forall i :: 0 <= i < |ring| ==> ring[i] == ContextLine(n - |ring| + i + 1, s.ctx(lines[n - |ring| + i])))
  }

  /** The texts of the ring that lie behind the last line shown and in the window of a match at line `n + 1`. */
  method ContextBefore(ring: seq<ContextLine>, lines: seq<string>, s: Style, n: nat, emitted: nat)
    returns (before: seq<string>, bytes: nat)
    requires IsRing(ring, lines, s, n) && emitted <= n
    ensures |before| == n - Max(Max(emitted, n - s.before), 0)
    ensures forall i :: 0 <= i < |before| ==> before[i] == s.ctx(lines[n - |before| + i])
    ensures bytes == TextLen(before, |before|)
  {
    before, bytes := [], 0;
    var start := n - |ring|;
    for k := 0 to |ring|
      invariant |before| == Max(start + k - Max(emitted, start), 0)
      invariant forall i :: 0 <= i < |before| ==> before[i] == s.ctx(lines[start + k - |before| + i])
      invariant bytes == TextLen(before, |before|)
    {
      var c := ring[k];
      if c.n > emitted && c.n >= n + 1 - s.before {
        TextLenPrefix(before, c.text, |before|);
        before, bytes := before + [c.text], bytes + |c.text|;
      }
    }
  }

  method PushRing(ring: seq<ContextLine>, lines: seq<string>, s: Style, n: nat) returns (out: seq<ContextLine>)
    requires n < |lines| && IsRing(ring, lines, s, n)
    ensures IsRing(out, lines, s, n + 1)
  {
    out := ring;
    if s.before > 0 {
      if |out| == s.before {
        out := out[1..];
      }
      out := out + [ContextLine(n + 1, s.ctx(lines[n]))];
    }
  }

  /** The state of one call. */
  class Run {
    const o: Opts
    var matches: seq<Match>
    var files: seq<FileHit>
    var skipped: nat
    var returned: nat
    var outBytes: nat
    var stopped: bool
    var nextOffset: nat
    ghost var seen: seq<Item>  // every result met so far, skipped or returned

    function Items(): seq<Item>
      reads this
    {
      PageItems(o.mode, matches, files)
    }

    predicate Full()
      reads this
    {
      returned >= o.maxResults || outBytes >= o.cap
    }

    ghost predicate Valid()
      reads this
    {
      && ValidOpts(o)
      && skipped == Min(o.skip, |seen|) && returned == |seen| - skipped && Items() == seen[skipped..]
      && outBytes == PageLen(o.mode, matches, files, returned)
      && returned <= o.maxResults && (returned > 0 ==> PageLen(o.mode, matches, files, returned - 1) < o.cap)
      && (stopped ==> Full() && returned > 0 && nextOffset == o.skip + returned)
    }

    constructor (o: Opts)
      requires ValidOpts(o)
      ensures Valid() && this.o == o && seen == [] && !stopped && matches == [] && files == []
    {
      this.o := o;
      matches, files, skipped, returned, outBytes, stopped, nextOffset, seen := [], [], 0, 0, 0, false, 0, [];
    }

    method Stop()
      requires Valid() && Full()
      modifies this`stopped, this`nextOffset
      ensures Valid() && stopped
    {
      stopped := true;
      nextOffset := o.skip + returned;
    }

    /** A result of the file modes, unless the page is full: then the search stops. */
    method AddFile(path: string, count: nat)
      requires Valid() && o.mode != ContentMode && !stopped
      modifies this
      ensures Valid() && matches == old(matches)
      ensures seen == if stopped then old(seen) else old(seen) + [FileItem(FileHit(path, count))]
    {
      if Full() {
        Stop();
        return;
      }
      ghost var item := FileItem(FileHit(path, count));
      SnocDrop(seen, skipped, item);
      seen := seen + [item];
      if skipped < o.skip {
        skipped := skipped + 1;
        return;
      }
      HitItemsSnoc(files, FileHit(path, count));
      HitsLenPrefix(files, FileHit(path, count), |files|);
      files := files + [FileHit(path, count)];
      outBytes := outBytes + |path| + 16;
      returned := returned + 1;
    }

    method CountMatches(f: File) returns (count: nat)
      ensures count == CountTo(f.lines, o.style, |f.lines|)
    {
      count := 0;
      for n := 0 to |f.lines|
        invariant count == CountTo(f.lines, o.style, n)
      {
        if o.style.re(f.lines[n]) {
          count := count + 1;
        }
      }
    }

    method FirstMatch(f: File) returns (found: bool)
      ensures found <==> CountTo(f.lines, o.style, |f.lines|) > 0
    {
      found := false;
      var n := 0;
      while n < |f.lines|
        invariant n <= |f.lines| && CountTo(f.lines, o.style, n) == 0
      {
        if o.style.re(f.lines[n]) {
          CountGrows(f.lines, o.style, n + 1, |f.lines|);
          return true;
        }
        n := n + 1;
      }
    }

    /** A match left out for the offset. */
    method SkipMatch(ghost item: Item)
      requires Valid() && o.mode == ContentMode && !stopped && skipped < o.skip
      modifies this`skipped, this`seen
      ensures Valid() && seen == old(seen) + [item]
    {
      SnocDrop(seen, skipped, item);
      seen, skipped := seen + [item], skipped + 1;
    }

    /** A match returned, with the context before it. */
    method ReturnMatch(m: Match, bytes: nat)
      requires Valid() && o.mode == ContentMode && !stopped && skipped == o.skip && !Full()
      requires m.after == [] && bytes == TextLen(m.before, |m.before|)
      modifies this`matches, this`outBytes, this`returned, this`seen
      ensures Valid() && matches == old(matches) + [m] && seen == old(seen) + [ItemOf(m)]
    {
      SnocDrop(seen, skipped, ItemOf(m));
      MatchItemsSnoc(matches, m);
      MatchesLenSnoc(matches, m);
      matches := matches + [m];
      outBytes := outBytes + bytes + |m.content|;
      returned := returned + 1;
      seen := seen + [ItemOf(m)];
    }

    /** A line of context behind the match collecting it. */
    method AppendAfter(cur: nat, text: string)
      requires Valid() && o.mode == ContentMode && cur == |matches| - 1
      modifies this`matches, this`outBytes
      ensures Valid() && matches == old(matches)[cur := old(matches)[cur].(after := old(matches)[cur].after + [text])]
    {
      var m := matches[cur];
      MatchesLenAfter(matches, text);
      MatchesLenPrefix(matches[cur := m.(after := m.after + [text])], matches, cur);
      MatchItemsUpdate(matches, cur, m.(after := m.after + [text]));
      matches := matches[cur := m.(after := m.after + [text])];
      outBytes := outBytes + |text|;
    }

    /** The match at line `n + 1` with the context before it that is not shown yet. */
    method TakeMatch(f: File, n: nat, ring: seq<ContextLine>, emitted: nat, ghost base: seq<Match>,
                     ghost ms: seq<Match>)
      returns (ghost ms': seq<Match>)
      requires Valid() && o.mode == ContentMode && !stopped && skipped == o.skip && !Full()
      requires n < |f.lines| && o.style.re(f.lines[n])
      requires matches == base + ms && IsMerged(ms, f.path, f.lines, o.style, n) && Collected(ms, o.style, n)
      requires IsRing(ring, f.lines, o.style, n) && emitted == Emitted(ms) <= n
      modifies this`matches, this`outBytes, this`returned, this`seen
      ensures Valid() && matches == base + ms' && seen == old(seen) + [LineItem(f.path, n + 1, o.style.hit(f.lines[n]))]
      ensures IsMerged(ms', f.path, f.lines, o.style, n + 1) && Collected(ms', o.style, n + 1)
      ensures ms' != [] && ms'[|ms'| - 1].line == n + 1 && ms'[|ms'| - 1].after == []
    {
      hide IsMerged, Collected, Valid;
      var before, bytes := ContextBefore(ring, f.lines, o.style, n, emitted);
      var m := Match(f.path, n + 1, o.style.hit(f.lines[n]), before, []);
      AddMatch(ms, f.path, f.lines, o.style, n, m);
      assert (base + ms) + [m] == base + (ms + [m]);
      ReturnMatch(m, bytes);
      ms' := ms + [m];
    }

    /** One pass over a file in content mode; `ms` are the matches it adds and `upto` how many lines were looked at. */
    method ScanContent(f: File) returns (ghost ms: seq<Match>, ghost upto: nat)
      requires Valid() && o.mode == ContentMode && !stopped
      modifies this
      ensures Valid() && files == old(files)
      ensures matches == old(matches) + ms && IsMerged(ms, f.path, f.lines, o.style, upto)
      ensures seen == old(seen) + LineItems(f, o.style, upto)
      ensures if stopped then upto < |f.lines| && o.style.re(f.lines[upto]) else upto == |f.lines|
    {
      hide IsMerged, Valid, LineItems;
      RingStart(f.lines, o.style);
      var ring, cur, afterLeft: nat, emitted: nat, n: nat := [], -1, 0, 0, 0;
      var lines, s := f.lines, o.style;
      ms, upto := [], 0;
      ghost var base := matches;
      MergedStart(f.path, lines, s);
      LineItemsStart(f, s, seen);
      hide IsRing;
      while n < |lines| && !stopped
        invariant n <= |lines| && upto == n && Valid() && files == old(files)
        invariant matches == base + ms && IsMerged(ms, f.path, lines, s, n) && Collected(ms, s, n)
        invariant seen == old(seen) + LineItems(f, s, n)
        invariant cur == if ms == [] then -1 else |matches| - 1
        invariant emitted == Emitted(ms) <= n
        invariant afterLeft == if ms == [] then 0 else s.after - |ms[|ms| - 1].after|
        invariant IsRing(ring, lines, s, n)
        invariant ms != [] ==> skipped == o.skip
        invariant stopped ==> n < |lines| && s.re(lines[n])
        decreases |lines| - n, !stopped
      {
        var text := lines[n];
        LineItemsSame(f, s, n);
        if s.re(text) {
          if Full() {
            Stop();
            break;
          }
          ghost var item := LineItem(f.path, n + 1, s.hit(text));
          LineItemsStep(f, s, n, old(seen), item);
          if skipped < o.skip {
            SkipMatch(item);
            AddNothing(ms, f.path, lines, s, n);
            afterLeft := 0;
          } else {
            SkippedAll();
            ms := TakeMatch(f, n, ring, emitted, base, ms);
            cur, emitted, afterLeft := |matches| - 1, n + 1, s.after;
          }
        } else if afterLeft > 0 && cur >= 0 {
          ghost var m' := ms[|ms| - 1].(after := ms[|ms| - 1].after + [s.ctx(text)]);
          AddAfter(ms, f.path, lines, s, n, m');
          UpdateLast(base, ms, m');
          AppendAfter(cur, s.ctx(text));
          ms := ms[|ms| - 1 := m'];
          emitted, afterLeft := n + 1, afterLeft - 1;
        } else {
          AddNothing(ms, f.path, lines, s, n);
        }
        ring := PushRing(ring, lines, s, n);
        n := n + 1;
        upto := n;
      }
    }

    lemma SkippedAll()
      requires Valid() && skipped >= o.skip
      ensures skipped == o.skip
    {
    }

    /** A content search looks at every line of a file, or stops at a match that the full page has no room for. */
    ghost predicate LooksAt(f: File, n: nat)
      reads this
    {
      o.mode == ContentMode ==> if stopped then n < |f.lines| && o.style.re(f.lines[n]) else n == |f.lines|
    }

    /** One file in whatever mode. */
    method SearchFile(f: File)
      requires Valid() && !stopped
      modifies this
      ensures Valid()
      ensures !stopped ==> seen == old(seen) + FileItems(f, o)
      ensures stopped ==> exists k :: 0 <= k < |FileItems(f, o)| && seen == old(seen) + FileItems(f, o)[..k]
      ensures exists ms: seq<Match>, n: nat ::
                matches == old(matches) + ms && IsMerged(ms, f.path, f.lines, o.style, n) && LooksAt(f, n)
    {
      hide IsMerged, Valid, LineItems, CountTo;
      match o.mode
      case ContentMode =>
        ghost var ms, upto := ScanContent(f);
        if stopped {
          LineItemsPrefix(f, o.style, upto, |f.lines|);
          ghost var k := |LineItems(f, o.style, upto)|;
          LineItemsMore(f, o.style, upto);
          assert seen == old(seen) + FileItems(f, o)[..k];
        }
      case FilesMode =>
        var found := FirstMatch(f);
        if found {
          AddFile(f.path, 0);
        }
        NoneMore(matches, old(seen), FileItems(f, o));
        MergedStart(f.path, f.lines, o.style);
      case CountMode =>
        var count := CountMatches(f);
        if count > 0 {
          AddFile(f.path, count);
        }
        NoneMore(matches, old(seen), FileItems(f, o));
        MergedStart(f.path, f.lines, o.style);
    }

    /** The whole tree, until a page is full and one more result exists. */
    method SearchTree(tree: seq<File>)
      requires Valid() && !stopped && seen == [] && matches == []
      modifies this
      ensures Valid()
      ensures !stopped ==> seen == AllItems(tree, o)
      ensures stopped ==> |seen| < |AllItems(tree, o)| && seen == AllItems(tree, o)[..|seen|]
      ensures forall m :: m in matches ==> FromTree(m, tree, o.style)
      ensures DistinctPaths(tree) ==> InOrder(matches)
      ensures exists parts :: ShownOf(parts, matches, tree, o, stopped)
    {
      hide Valid, FileItems, IsNumbered, IsMerged, ShownOf;
      var n := 0;
      ghost var parts: seq<Part> := [];
      ShownStart(tree, o);
      while n < |tree| && !stopped
        invariant n <= |tree| && Valid()
        invariant !stopped ==> seen == TreeItems(tree, o, n)
        invariant stopped ==> |seen| < |AllItems(tree, o)| && seen == AllItems(tree, o)[..|seen|]
        invariant forall m :: m in matches ==> FromTree(m, tree[..n], o.style)
        invariant DistinctPaths(tree) ==> InOrder(matches)
        invariant ShownOf(parts, matches, tree[..n], o, stopped)
      {
        ghost var before := matches;
        SearchFile(tree[n]);
        ghost var ms: seq<Match>, upto: nat :|
          matches == before + ms && IsMerged(ms, tree[n].path, tree[n].lines, o.style, upto) && LooksAt(tree[n], upto);
        ShownMore(parts, before, tree, n, o, Part(ms, upto), stopped);
        parts := parts + [Part(ms, upto)];
        AppendFile(tree, n, before, ms, o.style, upto);
        if stopped {
          ghost var k :| 0 <= k < |FileItems(tree[n], o)| && seen == TreeItems(tree, o, n) + FileItems(tree[n], o)[..k];
          TreePrefix(tree, o, n + 1, |tree|);
          PrefixOfTree(tree, o, n, k);
        }
        n := n + 1;
      }
      ShownWithin(parts, matches, tree, n, o, stopped);
      assert forall m :: m in matches ==> FromTree(m, tree, o.style) by {
        forall m | m in matches ensures FromTree(m, tree, o.style) {
          var f :| f in tree[..n] && IsNumbered(m, f.path, f.lines, o.style);
          assert f in tree;
        }
      }
    }

    /** What the finished search returns. */
    lemma PageDone(tree: seq<File>)
      requires Valid() && if stopped then |seen| < |AllItems(tree, o)| && seen == AllItems(tree, o)[..|seen|]
                          else seen == AllItems(tree, o)
      ensures IsPage(matches, files, stopped, tree, o) && IsFilled(matches, files, stopped, o)
      ensures stopped ==> o.skip < nextOffset == Min(o.skip, |AllItems(tree, o)|) + |Items()|
    {
      hide AllItems, MatchesLen, HitsLen, MatchItems, HitItems;
      PageOf(AllItems(tree, o), seen, skipped, stopped);
    }
  }

  /** `m` shows lines of a file of the tree as they are. */
  ghost predicate FromTree(m: Match, tree: seq<File>, s: Style) {
    exists f :: f in tree && IsNumbered(m, f.path, f.lines, s)
  }

  /** The matches shown of one file and how many of its lines were looked at. */
  datatype Part = Part(ms: seq<Match>, upto: nat)

  function Joined(parts: seq<Part>, n: nat): seq<Match>
    requires n <= |parts|
  {
    if n == 0 then [] else Joined(parts, n - 1) + parts[n - 1].ms
  }

  /** How far file `i` of the tree was looked at: to its end, except the last one of a full page. */
  predicate LookedAt(parts: seq<Part>, tree: seq<File>, o: Opts, stopped: bool, i: nat)
    requires i < |parts| <= |tree|
  {
    if stopped && i == |parts| - 1 then parts[i].upto < |tree[i].lines| && o.style.re(tree[i].lines[parts[i].upto])
    else parts[i].upto == |tree[i].lines|
  }

  /**
   * `ms` are the matches of the files in walk order, for each file exactly the merged windows of its returned matches
   * up to where it was looked at; a page that is full stops inside a file, at a match it has no room for.
   */
  ghost predicate ShownOf(parts: seq<Part>, ms: seq<Match>, tree: seq<File>, o: Opts, stopped: bool) {
    && |parts| <= |tree| && ms == Joined(parts, |parts|)
    && (forall i :: 0 <= i < |parts| ==> IsMerged(parts[i].ms, tree[i].path, tree[i].lines, o.style, parts[i].upto))
    && (o.mode == ContentMode ==> forall i :: 0 <= i < |parts| ==> LookedAt(parts, tree, o, stopped, i))
    && (if stopped then parts != [] else |parts| == |tree|)
  }

  lemma ShownStart(tree: seq<File>, o: Opts)
    ensures ShownOf([], [], tree[..0], o, false)
  {
  }

  lemma {:induction false} JoinedPrefix(parts: seq<Part>, p: Part, n: nat)
    requires n <= |parts|
    ensures Joined(parts + [p], n) == Joined(parts, n)
  {
    if n > 0 {
      JoinedPrefix(parts, p, n - 1);
    }
  }

  lemma ShownMore(parts: seq<Part>, before: seq<Match>, tree: seq<File>, n: nat, o: Opts, p: Part, stopped: bool)
    requires n < |tree| && ShownOf(parts, before, tree[..n], o, false)
    requires IsMerged(p.ms, tree[n].path, tree[n].lines, o.style, p.upto)
    requires o.mode == ContentMode ==>
               if stopped then p.upto < |tree[n].lines| && o.style.re(tree[n].lines[p.upto])
               else p.upto == |tree[n].lines|
    ensures ShownOf(parts + [p], before + p.ms, tree[..n + 1], o, stopped)
  {
    hide IsMerged;
    JoinedPrefix(parts, p, n);
    var parts', tree' := parts + [p], tree[..n + 1];
    forall i | 0 <= i < |parts'|
      ensures IsMerged(parts'[i].ms, tree'[i].path, tree'[i].lines, o.style, parts'[i].upto)
      ensures o.mode == ContentMode ==> LookedAt(parts', tree', o, stopped, i)
    {
      if i < n {
        assert parts'[i] == parts[i] && tree'[i] == tree[..n][i];
        assert o.mode == ContentMode ==> LookedAt(parts, tree[..n], o, false, i);
      }
    }
  }

  lemma ShownWithin(parts: seq<Part>, ms: seq<Match>, tree: seq<File>, n: nat, o: Opts, stopped: bool)
    requires n <= |tree| && ShownOf(parts, ms, tree[..n], o, stopped) && (!stopped ==> n == |tree|)
    ensures ShownOf(parts, ms, tree, o, stopped)
  {
    hide IsMerged;
    forall i | 0 <= i < |parts|
      ensures IsMerged(parts[i].ms, tree[i].path, tree[i].lines, o.style, parts[i].upto)
      ensures o.mode == ContentMode ==> LookedAt(parts, tree, o, stopped, i)
    {
      assert tree[..n][i] == tree[i];
      assert o.mode == ContentMode ==> LookedAt(parts, tree[..n], o, stopped, i);
    }
  }

  /** Without context asked for, a search shows none. */
  lemma {:induction false} NoContextShown(parts: seq<Part>, ms: seq<Match>, tree: seq<File>, o: Opts, stopped: bool,
                                          n: nat)
    requires ShownOf(parts, ms, tree, o, stopped) && o.style.before == 0 && o.style.after == 0 && n <= |parts|
    ensures forall m :: m in Joined(parts, n) ==> m.before == [] && m.after == []
  {
    if n > 0 {
      NoContextShown(parts, ms, tree, o, stopped, n - 1);
      var p, f := parts[n - 1], tree[n - 1];
      forall m | m in p.ms ensures m.before == [] && m.after == [] {
        NoContext(p.ms, f.path, f.lines, o.style, p.upto, m);
      }
    }
  }

  predicate DistinctPaths(tree: seq<File>) {
    forall i, j :: 0 <= i < j < |tree| ==> tree[i].path != tree[j].path
  }

  /** Neighbouring matches of one file show lines in order, none twice. */
  predicate InOrder(ms: seq<Match>) {
    forall i, j :: 0 <= i < |ms| && j == i + 1 < |ms| && ms[i].file == ms[j].file ==> ms[i].Last() < ms[j].First()
  }

  lemma AppendFile(tree: seq<File>, n: nat, before: seq<Match>, ms: seq<Match>, s: Style, upto: nat)
    requires n < |tree| && IsMerged(ms, tree[n].path, tree[n].lines, s, upto)
    requires forall m :: m in before ==> FromTree(m, tree[..n], s)
    ensures forall m :: m in before + ms ==> FromTree(m, tree[..n + 1], s)
    ensures DistinctPaths(tree) && InOrder(before) ==> InOrder(before + ms)
  {
    hide IsNumbered;
    var f, all := tree[n], before + ms;
    assert tree[..n + 1] == tree[..n] + [f];
    forall m | m in all ensures FromTree(m, tree[..n + 1], s) {
      if m in before {
        var g :| g in tree[..n] && IsNumbered(m, g.path, g.lines, s);
        assert g in tree[..n + 1];
      } else {
        assert f in tree[..n + 1];
      }
    }
    if DistinctPaths(tree) && InOrder(before) {
      forall i, j | 0 <= i < |all| && j == i + 1 < |all| && all[i].file == all[j].file
        ensures all[i].Last() < all[j].First()
      {
        if j < |before| {
          assert all[i] == before[i] && all[j] == before[j];
        } else if i >= |before| {
          assert all[i] == ms[i - |before|] && all[j] == ms[j - |before|];
        } else {
          assert all[i] == before[i] && all[i] in before && all[j] == ms[0] && ms[0] in ms;
          OtherFile(tree, n, all[i], s);
          NumberedFile(ms[0], f.path, f.lines, s);
        }
      }
    }
  }

  lemma OtherFile(tree: seq<File>, n: nat, m: Match, s: Style)
    requires n < |tree| && DistinctPaths(tree) && FromTree(m, tree[..n], s)
    ensures m.file != tree[n].path
  {
    var g :| g in tree[..n] && IsNumbered(m, g.path, g.lines, s);
    var i :| 0 <= i < n && tree[..n][i] == g;
    assert tree[i] == g;
  }

  lemma NumberedFile(m: Match, path: string, lines: seq<string>, s: Style)
    requires IsNumbered(m, path, lines, s)
    ensures m.file == path
  {
  }

  lemma MatchItemsUpdate(ms: seq<Match>, k: nat, m: Match)
    requires k < |ms| && ItemOf(m) == ItemOf(ms[k])
    ensures MatchItems(ms[k := m]) == MatchItems(ms)
  {
  }

  lemma MergedStart(path: string, lines: seq<string>, s: Style)
    ensures IsMerged([], path, lines, s, 0)
  {
  }

  lemma UpdateLast(base: seq<Match>, ms: seq<Match>, m: Match)
    requires ms != []
    ensures (base + ms)[|base| + |ms| - 1 := m] == base + ms[|ms| - 1 := m]
    ensures (base + ms)[|base| + |ms| - 1] == ms[|ms| - 1]
  {
  }

  lemma LineItemsStep(f: File, s: Style, n: nat, old_seen: seq<Item>, item: Item)
    requires n < |f.lines| && s.re(f.lines[n]) && item == LineItem(f.path, n + 1, s.hit(f.lines[n]))
    ensures old_seen + LineItems(f, s, n + 1) == (old_seen + LineItems(f, s, n)) + [item]
  {
    assert LineItems(f, s, n + 1) == LineItems(f, s, n) + [item];
  }

  lemma LineItemsStart(f: File, s: Style, seen: seq<Item>)
    ensures seen == seen + LineItems(f, s, 0)
  {
  }

  lemma LineItemsSame(f: File, s: Style, n: nat)
    requires n < |f.lines|
    ensures !s.re(f.lines[n]) ==> LineItems(f, s, n + 1) == LineItems(f, s, n)
  {
  }

  lemma RingStart(lines: seq<string>, s: Style)
    ensures IsRing([], lines, s, 0)
  {
  }

  lemma {:induction false} LineItemsPrefix(f: File, s: Style, n: nat, m: nat)
    requires n <= m <= |f.lines|
    ensures LineItems(f, s, n) <= LineItems(f, s, m)
    decreases m
  {
    if n < m {
      LineItemsPrefix(f, s, n, m - 1);
    }
  }

  /** A matching line at `n + 1` is one more result. */
  lemma LineItemsMore(f: File, s: Style, n: nat)
    requires n < |f.lines| && s.re(f.lines[n])
    ensures |LineItems(f, s, n)| < |LineItems(f, s, |f.lines|)|
  {
    LineItemsPrefix(f, s, n + 1, |f.lines|);
  }

  lemma NoneMore(ms: seq<Match>, before: seq<Item>, items: seq<Item>)
    ensures ms == ms + []
    ensures before == before + items[..0]
  {
  }

  lemma {:induction false} CountIsLines(f: File, s: Style, n: nat)
    requires n <= |f.lines|
    ensures CountTo(f.lines, s, n) == |LineItems(f, s, n)|
  {
    if n > 0 {
      CountIsLines(f, s, n - 1);
    }
  }

  /** The file modes give the files with results in content mode, in count mode with the number of these. */
  lemma ModesAgree(f: File, o: Opts)
    ensures var lines := FileItems(f, o.(mode := ContentMode));
            && FileItems(f, o.(mode := FilesMode)) == (if lines == [] then [] else [FileItem(FileHit(f.path, 0))])
            && FileItems(f, o.(mode := CountMode)) ==
                 (if lines == [] then [] else [FileItem(FileHit(f.path, |lines|))])
  {
    CountIsLines(f, o.style, |f.lines|);
  }

  lemma {:induction false} TreePrefix(tree: seq<File>, o: Opts, n: nat, m: nat)
    requires n <= m <= |tree|
    ensures TreeItems(tree, o, n) <= TreeItems(tree, o, m)
    decreases m
  {
    hide FileItems;
    if n < m {
      TreePrefix(tree, o, n, m - 1);
    }
  }

  lemma PrefixOfTree(tree: seq<File>, o: Opts, n: nat, k: nat)
    requires n < |tree| && k < |FileItems(tree[n], o)| && TreeItems(tree, o, n + 1) <= AllItems(tree, o)
    ensures var seen := TreeItems(tree, o, n) + FileItems(tree[n], o)[..k];
            |seen| < |AllItems(tree, o)| && seen == AllItems(tree, o)[..|seen|]
  {
    var a, b := TreeItems(tree, o, n), FileItems(tree[n], o);
    assert TreeItems(tree, o, n + 1) == a + b;
    assert a + b[..k] == (a + b)[..|a| + k];
  }

  lemma SnocDrop<T>(s: seq<T>, k: nat, x: T)
    requires k <= |s|
    ensures (s + [x])[k..] == s[k..] + [x]
  {
  }

  lemma HitItemsSnoc(hs: seq<FileHit>, h: FileHit)
    ensures HitItems(hs + [h]) == HitItems(hs) + [FileItem(h)]
  {
  }

  lemma MatchItemsSnoc(ms: seq<Match>, m: Match)
    ensures MatchItems(ms + [m]) == MatchItems(ms) + [ItemOf(m)]
  {
  }

  lemma {:induction false} CountGrows(lines: seq<string>, s: Style, n: nat, m: nat)
    requires n <= m <= |lines|
    ensures CountTo(lines, s, n) <= CountTo(lines, s, m)
    decreases m
  {
    if n < m {
      CountGrows(lines, s, n, m - 1);
    }
  }

  // ----- following next_offset -----

  /** The matches or files returned are the stretch of all results from the offset on. */
  ghost predicate IsPage(ms: seq<Match>, hs: seq<FileHit>, truncated: bool, tree: seq<File>, o: Opts) {
    var items, all, from := PageItems(o.mode, ms, hs), AllItems(tree, o), Min(o.skip, |AllItems(tree, o)|);
    && from + |items| <= |all| && items == all[from..from + |items|] && (truncated <==> from + |items| < |all|)
  }

  /**
   * A page that leaves results out holds as many as asked for, or its text reaches the limit; without its last result
   * no page would do either.
   */
  predicate IsFilled(ms: seq<Match>, hs: seq<FileHit>, truncated: bool, o: Opts) {
    var n := |PageItems(o.mode, ms, hs)|;
    && n <= o.maxResults && (n > 0 ==> PageLen(o.mode, ms, hs, n - 1) < o.cap)
    && (truncated ==> n == o.maxResults || PageLen(o.mode, ms, hs, n) >= o.cap)
  }

  /** One call: the page of results, and the offset of the next page when there is one. */
  method SearchPage(tree: seq<File>, o: Opts)
    returns (ms: seq<Match>, hs: seq<FileHit>, truncated: bool, next: nat)
    requires ValidOpts(o)
    ensures IsPage(ms, hs, truncated, tree, o) && IsFilled(ms, hs, truncated, o)
    ensures truncated ==> o.skip < next == Min(o.skip, |AllItems(tree, o)|) + |PageItems(o.mode, ms, hs)|
  {
    hide FromTree, InOrder, ShownOf;
    var r := new Run(o);
    r.SearchTree(tree);
    r.PageDone(tree);
    ms, hs, truncated, next := r.matches, r.files, r.stopped, r.nextOffset;
  }

  lemma PageOf(all: seq<Item>, seen: seq<Item>, k: nat, truncated: bool)
    requires k <= |seen| <= |all| && seen == all[..|seen|]
    ensures seen[k..] == all[k..|seen|]
  {
  }

  lemma SkipIrrelevant(tree: seq<File>, o: Opts, skip: nat, n: nat)
    requires n <= |tree|
    ensures TreeItems(tree, o.(skip := skip), n) == TreeItems(tree, o, n)
  {
  }

  /** A caller that follows next_offset gets the results of one unbounded scan: no gaps, no duplicates, and an end. */
  method FollowSearch(tree: seq<File>, o: Opts) returns (all: seq<Item>, pages: nat)
    requires ValidOpts(o) && o.skip == 0
    ensures all == AllItems(tree, o)
    ensures pages <= |AllItems(tree, o)| + 1
  {
    ghost var goal := AllItems(tree, o);
    var offset: nat := 0;
    all, pages := [], 0;
    var more := true;
    while more
      invariant offset <= |goal| && pages <= offset + (if more then 0 else 1)
      invariant all == if more then goal[..offset] else goal
      decreases more, |goal| - offset
    {
      SkipIrrelevant(tree, o, offset, |tree|);
      var ms, hs, truncated, next := SearchPage(tree, o.(skip := offset));
      var items := PageItems(o.mode, ms, hs);
      GluePages(goal, offset, items);
      all, pages, more := all + items, pages + 1, truncated;
      if truncated {
        offset := next;
      }
    }
  }

  lemma GluePages(goal: seq<Item>, offset: nat, items: seq<Item>)
    requires offset + |items| <= |goal| && items == goal[offset..offset + |items|]
    ensures goal[..offset] + items == goal[..offset + |items|]
    ensures offset + |items| == |goal| ==> goal[..offset] + items == goal
  {
  }
}
