/** A token bucket per client: exact real arithmetic, times in minutes. */
module RateLimiter {
  import opened Basics

  /** A bucket untouched this long is dropped by the sweep. */
  const BUCKET_IDLE_TTL: real := 2.0

  const NANOS_PER_MINUTE: real := 60_000_000_000.0

  datatype Bucket = Bucket(tokens: real, lastSeen: real)

  datatype Limit = Limit(perMin: int, burst: int)

  type Buckets = map<string, Bucket>

  function MinReal(x: real, y: real): real { if x <= y then x else y }

  /** What flows into a bucket in `d` minutes. */
  function Gain(l: Limit, d: real): real { d * l.perMin as real }

  /** The tokens of `key` once its bucket is brought up to date at `now`; an unknown client has a full bucket. */
  function Level(l: Limit, bs: Buckets, key: string, now: real): real {
    if key !in bs then l.burst as real
    else
      var b := bs[key];
      if now - b.lastSeen > 0.0 then MinReal(b.tokens + Gain(l, now - b.lastSeen), l.burst as real) else b.tokens
  }

  /** The buckets after a request: brought up to date, less a token when it passes. */
  function AfterTake(l: Limit, bs: Buckets, key: string, now: real): Buckets {
    var t := Level(l, bs, key, now);
    bs[key := Bucket(if t < 1.0 then t else t - 1.0, now)]
  }

  function AfterSweep(bs: Buckets, now: real): Buckets {
    map k | k in bs && now - bs[k].lastSeen <= BUCKET_IDLE_TTL :: bs[k]
  }

  /** How long until a bucket at level `t` holds a whole token, in minutes. */
  function ExactWait(l: Limit, t: real): real
    requires l.perMin > 0
  {
    (1.0 - t) / l.perMin as real
  }

  class Limiter {
    const l: Limit
    var buckets: Buckets

    constructor (perMin: int, burst: int)
      ensures l == Limit(perMin, if burst <= 0 then perMin else burst) && buckets == map[]
    {
      l := Limit(perMin, if burst <= 0 then perMin else burst);
      buckets := map[];
    }

    /** Brings the bucket of `key` up to date. */
    method Refill(key: string, now: real)
      modifies this`buckets
      ensures buckets == old(buckets)[key := Bucket(Level(l, old(buckets), key, now), now)]
    {
      if key !in buckets {
        buckets := buckets[key := Bucket(l.burst as real, now)];
        return;
      }
      var b := buckets[key];
      var elapsed := now - b.lastSeen;
      var tokens := b.tokens;
      if elapsed > 0.0 {
        assert Gain(l, elapsed) == elapsed * l.perMin as real;
        tokens := tokens + elapsed * l.perMin as real;
        if tokens > l.burst as real {
          tokens := l.burst as real;
        }
      }
      buckets := buckets[key := Bucket(tokens, now)];
    }

    /** One request: whether it passes, the whole tokens left, and for a refused one the wait in whole nanoseconds. */
    method Take(key: string, now: real) returns (ok: bool, remaining: int, wait: int)
      modifies this`buckets
      ensures buckets == AfterTake(l, old(buckets), key, now)
      ensures ok <==> Level(l, old(buckets), key, now) >= 1.0
      ensures ok ==> remaining == (Level(l, old(buckets), key, now) - 1.0).Floor && wait == 0
      ensures !ok ==> remaining == 0
      ensures !ok && l.perMin > 0 ==> wait == (ExactWait(l, Level(l, old(buckets), key, now)) * NANOS_PER_MINUTE).Floor
      ensures !ok && l.perMin <= 0 ==> wait as real == NANOS_PER_MINUTE
    {
      Refill(key, now);
      var b := buckets[key];
      if b.tokens < 1.0 {
        if l.perMin <= 0 {
          return false, 0, 60_000_000_000;
        }
        wait := ((1.0 - b.tokens) / l.perMin as real * NANOS_PER_MINUTE).Floor;
        return false, 0, wait;
      }
      buckets := buckets[key := Bucket(b.tokens - 1.0, b.lastSeen)];
      return true, (b.tokens - 1.0).Floor, 0;
    }

    /** Drops the buckets idle for longer than `BUCKET_IDLE_TTL`. */
    method Sweep(now: real)
      modifies this`buckets
      ensures buckets == AfterSweep(old(buckets), now)
    {
      var todo := buckets.Keys;
      while todo != {}
        invariant todo <= buckets.Keys <= old(buckets).Keys
        invariant forall k :: k in buckets ==> buckets[k] == old(buckets)[k]
        invariant forall k :: k in old(buckets) && k !in todo ==>
                    (k in buckets <==> now - old(buckets)[k].lastSeen <= BUCKET_IDLE_TTL)
        decreases |todo|
      {
        var k :| k in todo;
        if now - buckets[k].lastSeen > BUCKET_IDLE_TTL {
          buckets := buckets - {k};
        }
        todo := todo - {k};
      }
    }
  }

  // ----- arithmetic -----

  lemma GainAdd(l: Limit, x: real, y: real)
    ensures Gain(l, x + y) == Gain(l, x) + Gain(l, y)
  {
  }

  lemma GainGrows(l: Limit, x: real, y: real)
    requires l.perMin > 0 && x <= y
    ensures Gain(l, x) <= Gain(l, y) && Gain(l, 0.0) == 0.0
    ensures x < y ==> Gain(l, x) < Gain(l, y)
  {
    assert Gain(l, y) - Gain(l, x) == (y - x) * l.perMin as real;
  }

  // ----- runs -----

  datatype Event = Take(key: string, now: real) | Sweep(now: real)

  function After(l: Limit, bs: Buckets, e: Event): Buckets {
    match e
    case Take(key, now) => AfterTake(l, bs, key, now)
    case Sweep(now) => AfterSweep(bs, now)
  }

  /** The clock never goes back. */
  predicate Monotone(es: seq<Event>, t: real) {
    es == [] || (t <= es[0].now && Monotone(es[1..], es[0].now))
  }

  /** The answers to the requests of a run. */
  function Answers(l: Limit, bs: Buckets, es: seq<Event>): seq<bool>
    decreases |es|
  {
    if es == [] then []
    else
      (if es[0].Take? then [Level(l, bs, es[0].key, es[0].now) >= 1.0] else [])
        + Answers(l, After(l, bs, es[0]), es[1..])
  }

  predicate Positive(l: Limit) { l.perMin > 0 && l.burst > 0 }

  /** Every bucket holds between nothing and a full burst, and was last seen in the past. */
  ghost predicate Sane(l: Limit, bs: Buckets, t: real) {
    forall k :: k in bs ==> 0.0 <= bs[k].tokens <= l.burst as real && bs[k].lastSeen <= t
  }

  /** Whatever comes at or after `t`, the two states have the same tokens for everyone. */
  ghost predicate Alike(l: Limit, bs: Buckets, cs: Buckets, t: real) {
    forall k, now :: now >= t ==> Level(l, bs, k, now) == Level(l, cs, k, now)
  }

  lemma LevelBounds(l: Limit, bs: Buckets, key: string, t: real, now: real)
    requires Positive(l) && Sane(l, bs, t) && t <= now
    ensures 0.0 <= Level(l, bs, key, now) <= l.burst as real
  {
    if key in bs {
      GainGrows(l, 0.0, now - bs[key].lastSeen);
    }
  }

  /** The tokens at a later time follow from the tokens now. */
  lemma LevelLater(l: Limit, bs: Buckets, key: string, t: real, now: real, later: real)
    requires Positive(l) && Sane(l, bs, t) && t <= now <= later
    ensures Level(l, bs, key, later) == MinReal(Level(l, bs, key, now) + Gain(l, later - now), l.burst as real)
  {
    GainGrows(l, 0.0, later - now);
    if key in bs {
      hide Gain;
      var b := bs[key];
      GainGrows(l, 0.0, now - b.lastSeen);
      GainAdd(l, now - b.lastSeen, later - now);
      assert (now - b.lastSeen) + (later - now) == later - b.lastSeen;
      GainGrows(l, now - b.lastSeen, later - b.lastSeen);
      assert Gain(l, 0.0) == 0.0;
    }
  }

  lemma SaneAfter(l: Limit, bs: Buckets, t: real, e: Event)
    requires Positive(l) && Sane(l, bs, t) && t <= e.now
    ensures Sane(l, After(l, bs, e), e.now)
  {
    if e.Take? {
      LevelBounds(l, bs, e.key, t, e.now);
    }
  }

  /** A request changes the tokens of its own client only. */
  lemma LevelAfterTake(l: Limit, bs: Buckets, key: string, k: string, t: real, now: real, later: real)
    requires Positive(l) && Sane(l, bs, t) && t <= now <= later
    ensures var before := Level(l, bs, k, now);
            Level(l, AfterTake(l, bs, key, now), k, later) ==
              MinReal((if k == key && before >= 1.0 then before - 1.0 else before) + Gain(l, later - now),
                l.burst as real)
  {
    LevelBounds(l, bs, k, t, now);
    LevelLater(l, bs, k, t, now, later);
    GainGrows(l, 0.0, later - now);
    if k == key {
      hide Gain;
      assert later == now ==> later - now == 0.0;
    }
  }

  /** A sweep changes nobody's tokens when a bucket idle that long is full anyway. */
  lemma SweepAlike(l: Limit, bs: Buckets, t: real, now: real)
    requires Positive(l) && Sane(l, bs, t) && t <= now && l.burst <= 2 * l.perMin
    ensures Alike(l, bs, AfterSweep(bs, now), now)
  {
    forall k, later | later >= now ensures Level(l, bs, k, later) == Level(l, AfterSweep(bs, now), k, later) {
      if k in bs && now - bs[k].lastSeen > BUCKET_IDLE_TTL {
        GainGrows(l, BUCKET_IDLE_TTL, later - bs[k].lastSeen);
      }
    }
  }

  lemma TakeAlike(l: Limit, bs: Buckets, cs: Buckets, t: real, key: string, now: real)
    requires Positive(l) && Sane(l, bs, t) && Sane(l, cs, t) && t <= now && Alike(l, bs, cs, t)
    ensures Level(l, bs, key, now) == Level(l, cs, key, now)
    ensures Alike(l, AfterTake(l, bs, key, now), AfterTake(l, cs, key, now), now)
  {
    hide Level, AfterTake;
    forall k, later | later >= now
      ensures Level(l, AfterTake(l, bs, key, now), k, later) == Level(l, AfterTake(l, cs, key, now), k, later)
    {
      LevelAfterTake(l, bs, key, k, t, now, later);
      LevelAfterTake(l, cs, key, k, t, now, later);
    }
  }

  /** Alike states give the same answers ever after, sweeps in one run or the other notwithstanding. */
  lemma {:induction false} AlikeAnswers(l: Limit, bs: Buckets, cs: Buckets, t: real, es: seq<Event>)
    requires Positive(l) && l.burst <= 2 * l.perMin && Sane(l, bs, t) && Sane(l, cs, t) && Alike(l, bs, cs, t)
    requires Monotone(es, t)
    ensures Answers(l, bs, es) == Answers(l, cs, NoSweeps(es))
    decreases |es|
  {
    if es != [] {
      var e := es[0];
      SaneAfter(l, bs, t, e);
      if e.Take? {
        TakeAlike(l, bs, cs, t, e.key, e.now);
        SaneAfter(l, cs, t, e);
        AlikeAnswers(l, After(l, bs, e), After(l, cs, e), e.now, es[1..]);
        assert NoSweeps(es)[1..] == NoSweeps(es[1..]);
      } else {
        SweepAlike(l, bs, t, e.now);
        AlikeAnswers(l, After(l, bs, e), cs, e.now, es[1..]);
        assert NoSweeps(es) == NoSweeps(es[1..]) && Answers(l, bs, es) == Answers(l, After(l, bs, e), es[1..]);
      }
    }
  }

  /** A run without its sweeps. */
  function NoSweeps(es: seq<Event>): seq<Event> {
    if es == [] then [] else (if es[0].Take? then [es[0]] else []) + NoSweeps(es[1..])
  }

  lemma {:induction false} NoSweepsMonotone(es: seq<Event>, t: real)
    requires Monotone(es, t)
    ensures Monotone(NoSweeps(es), t)
    decreases |es|
  {
    if es != [] {
      NoSweepsMonotone(es[1..], es[0].now);
      MonotoneLater(NoSweeps(es[1..]), t, es[0].now);
      assert es[0].Take? ==> NoSweeps(es)[1..] == NoSweeps(es[1..]);
      assert es[0].Sweep? ==> NoSweeps(es) == NoSweeps(es[1..]);
    }
  }

  lemma MonotoneLater(es: seq<Event>, t: real, u: real)
    requires t <= u && Monotone(es, u)
    ensures Monotone(es, t)
  {
  }

  /** A refused request changes no later answer. */
  lemma RefusalInvisible(l: Limit, bs: Buckets, t: real, key: string, now: real, rest: seq<Event>)
    requires Positive(l) && l.burst <= 2 * l.perMin && Sane(l, bs, t) && t <= now && Monotone(rest, now)
    requires Level(l, bs, key, now) < 1.0
    ensures Answers(l, AfterTake(l, bs, key, now), rest) == Answers(l, bs, rest)
  {
    var cs := AfterTake(l, bs, key, now);
    SaneAfter(l, bs, t, Event.Take(key, now));
    forall k, later | later >= now ensures Level(l, bs, k, later) == Level(l, cs, k, later) {
      LevelAfterTake(l, bs, key, k, t, now, later);
      LevelLater(l, bs, k, t, now, later);
    }
    assert Sane(l, bs, now);
    AlikeAnswers(l, bs, cs, now, rest);
    assert Alike(l, cs, cs, now);
    AlikeAnswers(l, cs, cs, now, rest);
  }

  // ----- when sweeps are invisible -----

  lemma SaneEmpty(l: Limit, t: real)
    ensures Sane(l, map[], t) && Alike(l, map[], map[], t)
  {
  }

  /** `n` requests of one client at one moment. */
  function Salvo(key: string, now: real, n: nat): seq<Event> {
    if n == 0 then [] else [Event.Take(key, now)] + Salvo(key, now, n - 1)
  }

  lemma {:induction false} SalvoMonotone(key: string, now: real, n: nat, rest: seq<Event>)
    requires Monotone(rest, now)
    ensures Monotone(Salvo(key, now, n) + rest, now)
  {
    if n == 0 {
      assert Salvo(key, now, n) + rest == rest;
    } else {
      SalvoMonotone(key, now, n - 1, rest);
      assert (Salvo(key, now, n) + rest)[1..] == Salvo(key, now, n - 1) + rest;
    }
  }

  function Trues(n: nat): seq<bool> { if n == 0 then [] else [true] + Trues(n - 1) }

  /** As long as there are tokens, every request of a salvo passes; `cs` is the state behind it. */
  lemma {:induction false} SalvoPasses(l: Limit, bs: Buckets, key: string, now: real, n: nat, rest: seq<Event>)
    returns (cs: Buckets)
    requires Level(l, bs, key, now) >= n as real
    ensures Answers(l, bs, Salvo(key, now, n) + rest) == Trues(n) + Answers(l, cs, rest)
    ensures Level(l, cs, key, now) == Level(l, bs, key, now) - n as real
    ensures if n == 0 then cs == bs else key in cs && cs[key] == Bucket(Level(l, bs, key, now) - n as real, now)
    decreases n
  {
    var es := Salvo(key, now, n) + rest;
    if n == 0 {
      cs := bs;
      assert es == rest;
    } else {
      hide Answers, Salvo;
      LevelAgain(l, bs, key, now);
      cs := SalvoPasses(l, AfterTake(l, bs, key, now), key, now, n - 1, rest);
      SalvoStep(l, bs, key, now, n, rest);
      Reassoc([true], Trues(n - 1), Answers(l, cs, rest));
    }
  }

  lemma LevelAgain(l: Limit, bs: Buckets, key: string, now: real)
    requires Level(l, bs, key, now) >= 1.0
    ensures Level(l, AfterTake(l, bs, key, now), key, now) == Level(l, bs, key, now) - 1.0
  {
  }

  lemma SalvoStep(l: Limit, bs: Buckets, key: string, now: real, n: nat, rest: seq<Event>)
    requires n > 0 && Level(l, bs, key, now) >= 1.0
    ensures Answers(l, bs, Salvo(key, now, n) + rest) == [true]
              + Answers(l, AfterTake(l, bs, key, now), Salvo(key, now, n - 1) + rest)
  {
    var es := Salvo(key, now, n) + rest;
    assert es[0] == Event.Take(key, now) && es[1..] == Salvo(key, now, n - 1) + rest;
  }

  /** A salvo that empties the bucket, an idle stretch, and another salvo. */
  function Visible(l: Limit, swept: bool): seq<Event>
    requires Positive(l)
  {
    var later := BUCKET_IDLE_TTL + 0.5 / l.perMin as real;
    Salvo("", 0.0, l.burst) + ((if swept then [Event.Sweep(later)] else []) + Salvo("", later, 2 * l.perMin + 1))
  }

  /** Without a sweep the second salvo is cut short; with one it passes. */
  lemma SweepShows(l: Limit)
    requires Positive(l) && l.burst > 2 * l.perMin
    ensures Monotone(Visible(l, true), 0.0) && NoSweeps(Visible(l, true)) == Visible(l, false)
    ensures Answers(l, map[], Visible(l, true)) != Answers(l, map[], Visible(l, false))
  {
    var later := BUCKET_IDLE_TTL + 0.5 / l.perMin as real;
    var n := 2 * l.perMin + 1;
    VisibleRuns(l, later, n);
    ShowsApart(l, later, n);
  }

  lemma {:induction false} NoSweepsSalvo(key: string, now: real, n: nat, rest: seq<Event>)
    ensures NoSweeps(Salvo(key, now, n) + rest) == Salvo(key, now, n) + NoSweeps(rest)
  {
    if n == 0 {
      assert Salvo(key, now, n) + rest == rest;
      assert Salvo(key, now, n) + NoSweeps(rest) == NoSweeps(rest);
    } else {
      var e, s := [Event.Take(key, now)], Salvo(key, now, n - 1);
      NoSweepsSalvo(key, now, n - 1, rest);
      Reassoc(e, s, rest);
      Reassoc(e, s, NoSweeps(rest));
      NoSweepsCons(Event.Take(key, now), s + rest);
    }
  }

  lemma NoSweepsCons(e: Event, rest: seq<Event>)
    requires e.Take?
    ensures NoSweeps([e] + rest) == [e] + NoSweeps(rest)
  {
    assert ([e] + rest)[1..] == rest;
  }

  lemma VisibleRuns(l: Limit, later: real, n: nat)
    requires Positive(l) && later == BUCKET_IDLE_TTL + 0.5 / l.perMin as real && n == 2 * l.perMin + 1
    ensures Monotone(Visible(l, true), 0.0) && NoSweeps(Visible(l, true)) == Visible(l, false)
  {
    var second := Salvo("", later, n);
    assert second + [] == second;
    SalvoMonotone("", later, n, []);
    var tail := [Event.Sweep(later)] + second;
    assert tail[1..] == second;
    assert Monotone(tail, later);
    MonotoneLater(tail, 0.0, later);
    SalvoMonotone("", 0.0, l.burst, tail);
    NoSweepsSalvo("", later, n, []);
    NoSweepsSalvo("", 0.0, l.burst, tail);
    assert [] + second == second;
  }

  lemma ShowsApart(l: Limit, later: real, n: nat)
    requires Positive(l) && l.burst > 2 * l.perMin && later == BUCKET_IDLE_TTL + 0.5 / l.perMin as real
    requires n == 2 * l.perMin + 1
    ensures Answers(l, map[], Visible(l, true)) != Answers(l, map[], Visible(l, false))
  {
    hide Level;
    var first, second := l.burst, Salvo("", later, n);
    var tail := [Event.Sweep(later)] + second;
    EmptyAfterBurst(l);
    var bs := SalvoPasses(l, map[], "", 0.0, first, tail);
    var cs := SalvoPasses(l, map[], "", 0.0, first, second);
    assert [] + second == second;
    SweepFirst(l, bs, later, second);
    SweptPasses(l, bs, later, n);
    UnsweptStops(l, cs, later, n);
    Cancel(Trues(first), Answers(l, bs, tail), Answers(l, cs, second));
  }

  lemma EmptyAfterBurst(l: Limit)
    ensures Level(l, map[], "", 0.0) == l.burst as real
  {
  }

  lemma SweepFirst(l: Limit, bs: Buckets, later: real, es: seq<Event>)
    ensures Answers(l, bs, [Event.Sweep(later)] + es) == Answers(l, AfterSweep(bs, later), es)
  {
    assert ([Event.Sweep(later)] + es)[1..] == es;
  }

  lemma Cancel<T>(x: seq<T>, y: seq<T>, z: seq<T>)
    ensures x + y == x + z ==> y == z
  {
    assert (x + y)[|x|..] == y && (x + z)[|x|..] == z;
  }

  lemma SweptPasses(l: Limit, bs: Buckets, later: real, n: nat)
    requires Positive(l) && l.burst >= n && later > BUCKET_IDLE_TTL && "" in bs && bs[""] == Bucket(0.0, 0.0)
    ensures Answers(l, AfterSweep(bs, later), Salvo("", later, n)) == Trues(n)
  {
    var second := Salvo("", later, n);
    assert second + [] == second;
    var cs := SalvoPasses(l, AfterSweep(bs, later), "", later, n, []);
    assert Trues(n) + [] == Trues(n);
  }

  lemma UnsweptStops(l: Limit, cs: Buckets, later: real, n: nat)
    requires Positive(l) && l.burst >= n == 2 * l.perMin + 1 && later == BUCKET_IDLE_TTL + 0.5 / l.perMin as real
    requires "" in cs && cs[""] == Bucket(0.0, 0.0)
    ensures Answers(l, cs, Salvo("", later, n)) != Trues(n)
  {
    var r := l.perMin as real;
    assert Gain(l, later) == 2.0 * r + 0.5 by {
      assert (0.5 / r) * r == 0.5;
      assert later * r == BUCKET_IDLE_TTL * r + (0.5 / r) * r;
    }
    assert Level(l, cs, "", later) == 2.0 * r + 0.5;
    SalvoStops(l, cs, later, n);
  }

  /** A salvo of one more than the whole tokens there are is cut short. */
  lemma SalvoStops(l: Limit, cs: Buckets, later: real, n: nat)
    requires n > 0 && (n - 1) as real <= Level(l, cs, "", later) < n as real
    ensures Answers(l, cs, Salvo("", later, n)) != Trues(n)
  {
    var k, one := n - 1, Salvo("", later, 1);
    var ds := SalvoPasses(l, cs, "", later, k, one);
    SalvoSplit("", later, k);
    assert Salvo("", later, 0) == [] && one == [Event.Take("", later)];
    assert Answers(l, ds, one) == [false] + Answers(l, After(l, ds, one[0]), one[1..]);
    TruesLen(k);
    TruesLen(n);
    assert (Trues(k) + Answers(l, ds, one))[k] == false;
    TruesAt(n, k);
  }

  lemma {:induction false} SalvoSplit(key: string, now: real, n: nat)
    ensures Salvo(key, now, n) + Salvo(key, now, 1) == Salvo(key, now, n + 1)
  {
    if n > 0 {
      SalvoSplit(key, now, n - 1);
      assert ([Event.Take(key, now)] + Salvo(key, now, n - 1)) + Salvo(key, now, 1)
          == [Event.Take(key, now)] + (Salvo(key, now, n - 1) + Salvo(key, now, 1));
    }
  }

  lemma TruesLen(n: nat)
    ensures |Trues(n)| == n
  {
  }

  lemma {:induction false} TruesAt(n: nat, k: nat)
    requires k < n
    ensures |Trues(n)| == n && Trues(n)[k]
  {
    TruesLen(n);
    if k > 0 {
      TruesAt(n - 1, k - 1);
    }
  }

  /** A salvo of as many requests as there are tokens leaves the rest. */
  lemma {:induction false} SalvoLeaves(l: Limit, bs: Buckets, key: string, now: real, n: nat)
    requires Level(l, bs, key, now) >= n as real
    ensures Final(l, bs, Salvo(key, now, n)) ==
              if n == 0 then bs else bs[key := Bucket(Level(l, bs, key, now) - n as real, now)]
    decreases n
  {
    if n > 0 {
      var cs := AfterTake(l, bs, key, now);
      LevelAgain(l, bs, key, now);
      SalvoLeaves(l, cs, key, now, n - 1);
      assert Salvo(key, now, n)[1..] == Salvo(key, now, n - 1);
      assert cs[key] == Bucket(Level(l, bs, key, now) - 1.0, now);
    }
  }

  /** A full burst at the start empties the bucket. */
  lemma BurstEmpties(l: Limit)
    requires Positive(l)
    ensures var before := Salvo("", 0.0, l.burst);
            && Monotone(before, 0.0) && EndTime(before, 0.0) == 0.0
            && Final(l, map[], before) == map["" := Bucket(0.0, 0.0)]
  {
    var before := Salvo("", 0.0, l.burst);
    assert before + [] == before;
    SalvoMonotone("", 0.0, l.burst, []);
    SalvoEnds("", 0.0, l.burst);
    EmptyAfterBurst(l);
    SalvoLeaves(l, map[], "", 0.0, l.burst);
  }

  /** A refused request keeps an idle bucket from the sweep, and with it a client from a full one. */
  lemma RefusalShows(l: Limit) returns (before: seq<Event>, now: real, rest: seq<Event>)
    requires Positive(l) && l.burst > 2 * l.perMin
    ensures Monotone(before, 0.0) && EndTime(before, 0.0) <= now && Monotone(rest, now)
    ensures var bs := Final(l, map[], before);
            Level(l, bs, "", now) < 1.0 && Answers(l, AfterTake(l, bs, "", now), rest) != Answers(l, bs, rest)
  {
    var r, n := l.perMin as real, 2 * l.perMin + 1;
    var q := 0.125 / r;
    Eighth(r, q);
    BurstEmpties(l);
    var bs := map["" := Bucket(0.0, 0.0)];
    before, now := Salvo("", 0.0, l.burst), 2.0 * q;
    var later := BUCKET_IDLE_TTL + q;
    var second := Salvo("", later, n);
    rest := [Event.Sweep(later)] + second;
    RefusalRun(now, later, n);
    GainParts(l, q);
    hide Gain, Answers, Monotone, Salvo, Final;
    var cs := AfterTake(l, bs, "", now);
    assert cs[""] == Bucket(0.25, now) && AfterSweep(cs, later) == cs;
    SweepFirst(l, bs, later, second);
    SweepFirst(l, cs, later, second);
    SweptPasses(l, bs, later, n);
    SalvoStops(l, cs, later, n);
  }

  lemma Eighth(r: real, q: real)
    requires r >= 1.0 && q == 0.125 / r
    ensures 0.0 < q <= 0.125 && q * r == 0.125
  {
    assert q * r == 0.125 && q > 0.0;
    assert (0.125 - q) * r == 0.125 * (r - 1.0);
  }

  lemma RefusalRun(now: real, later: real, n: nat)
    requires now <= later
    ensures Monotone([Event.Sweep(later)] + Salvo("", later, n), now)
  {
    var second := Salvo("", later, n);
    assert second + [] == second && ([Event.Sweep(later)] + second)[1..] == second;
    SalvoMonotone("", later, n, []);
  }

  lemma GainParts(l: Limit, q: real)
    requires q * l.perMin as real == 0.125
    ensures Gain(l, 2.0 * q) == 0.25 && Gain(l, BUCKET_IDLE_TTL + q - 2.0 * q) == 2.0 * l.perMin as real - 0.125
  {
    assert 2.0 * q * l.perMin as real == 2.0 * (q * l.perMin as real);
  }

  /** If, after the run `before`, the request of `key` at `now` is refused, it changes no answer of `rest`. */
  ghost predicate RefusalUnseen(l: Limit, before: seq<Event>, key: string, now: real, rest: seq<Event>) {
    var bs := Final(l, map[], before);
    Monotone(before, 0.0) && EndTime(before, 0.0) <= now && Monotone(rest, now) && Level(l, bs, key, now) < 1.0 ==>
      Answers(l, AfterTake(l, bs, key, now), rest) == Answers(l, bs, rest)
  }

  lemma {:induction false} SaneFinal(l: Limit, bs: Buckets, t: real, es: seq<Event>)
    requires Positive(l) && Sane(l, bs, t) && Monotone(es, t)
    ensures t <= EndTime(es, t) && Sane(l, Final(l, bs, es), EndTime(es, t))
    decreases |es|
  {
    hide Sane, Level;
    if es != [] {
      SaneAfter(l, bs, t, es[0]);
      SaneFinal(l, After(l, bs, es[0]), es[0].now, es[1..]);
    }
  }

  /** After no run a refused request is ever seen, exactly when a full burst refills within the idle time. */
  lemma RefusalInvisibleIff(l: Limit)
    requires Positive(l)
    ensures l.burst <= 2 * l.perMin <==> forall before, key, now, rest :: RefusalUnseen(l, before, key, now, rest)
  {
    if l.burst <= 2 * l.perMin {
      forall before, key, now, rest ensures RefusalUnseen(l, before, key, now, rest) {
        var bs, t := Final(l, map[], before), EndTime(before, 0.0);
        if Monotone(before, 0.0) && t <= now && Monotone(rest, now) && Level(l, bs, key, now) < 1.0 {
          SaneEmpty(l, 0.0);
          SaneFinal(l, map[], 0.0, before);
          RefusalInvisible(l, bs, t, key, now, rest);
        }
      }
    } else {
      var before, now, rest := RefusalShows(l);
      assert !RefusalUnseen(l, before, "", now, rest);
    }
  }

  /**
   * Sweeps, at whatever moments, change no answer of any run exactly when a full burst refills within the idle time.
   */
  lemma SweepInvisibleIff(l: Limit)
    requires Positive(l)
    ensures l.burst <= 2 * l.perMin <==>
              forall es :: Monotone(es, 0.0) ==> Answers(l, map[], es) == Answers(l, map[], NoSweeps(es))
  {
    if l.burst <= 2 * l.perMin {
      forall es | Monotone(es, 0.0) ensures Answers(l, map[], es) == Answers(l, map[], NoSweeps(es)) {
        SaneEmpty(l, 0.0);
        AlikeAnswers(l, map[], map[], 0.0, es);
      }
    } else {
      SweepShows(l);
      var es := Visible(l, true);
      assert Monotone(es, 0.0) && Answers(l, map[], es) != Answers(l, map[], NoSweeps(es));
    }
  }

  // ----- the rate -----

  /** The requests of `key` that pass in a run. */
  function Passed(l: Limit, bs: Buckets, es: seq<Event>, key: string): nat
    decreases |es|
  {
    if es == [] then 0
    else
      (if es[0].Take? && es[0].key == key && Level(l, bs, key, es[0].now) >= 1.0 then 1 else 0)
      + Passed(l, After(l, bs, es[0]), es[1..], key)
  }

  function EndTime(es: seq<Event>, t: real): real {
    if es == [] then t else es[|es| - 1].now
  }

  function Final(l: Limit, bs: Buckets, es: seq<Event>): Buckets
    decreases |es|
  {
    if es == [] then bs else Final(l, After(l, bs, es[0]), es[1..])
  }

  /** What passes is paid from the tokens at the start and what flowed in since. */
  lemma {:induction false} PassedIsPaid(l: Limit, bs: Buckets, t: real, es: seq<Event>, key: string)
    requires Positive(l) && l.burst <= 2 * l.perMin && Sane(l, bs, t) && Monotone(es, t)
    ensures var end := EndTime(es, t);
            && t <= end && Sane(l, Final(l, bs, es), end)
            && Passed(l, bs, es, key) as real + Level(l, Final(l, bs, es), key, end)
                 <= Level(l, bs, key, t) + Gain(l, end - t)
    decreases |es|
  {
    if es == [] {
      assert Gain(l, 0.0) == 0.0;
    } else {
      hide Gain, Level, Sane, After;
      var e, cs := es[0], After(l, bs, es[0]);
      SaneAfter(l, bs, t, e);
      PassedIsPaid(l, cs, e.now, es[1..], key);
      GainAdd(l, e.now - t, EndTime(es, t) - e.now);
      assert (e.now - t) + (EndTime(es, t) - e.now) == EndTime(es, t) - t;
      StepIsPaid(l, bs, t, e, key);
    }
  }

  /** One event: what passes is taken from the tokens, and those have grown by no more than the inflow. */
  lemma StepIsPaid(l: Limit, bs: Buckets, t: real, e: Event, key: string)
    requires Positive(l) && l.burst <= 2 * l.perMin && Sane(l, bs, t) && t <= e.now
    ensures (if e.Take? && e.key == key && Level(l, bs, key, e.now) >= 1.0 then 1.0 else 0.0)
              + Level(l, After(l, bs, e), key, e.now)
              <= Level(l, bs, key, t) + Gain(l, e.now - t)
  {
    hide Gain, Level, Sane;
    LevelLater(l, bs, key, t, t, e.now);
    GainGrows(l, 0.0, 0.0);
    if e.Take? {
      LevelAfterTake(l, bs, e.key, key, t, e.now, e.now);
    } else {
      SweepAlike(l, bs, t, e.now);
    }
  }

  /** Any stretch of any run from a fresh limiter: at most a burst and the steady rate pass. */
  lemma RateBound(l: Limit, t: real, before: seq<Event>, es: seq<Event>, key: string)
    requires Positive(l) && l.burst <= 2 * l.perMin && Monotone(before, t) && Monotone(es, EndTime(before, t))
    requires es != []
    ensures Passed(l, Final(l, map[], before), es, key) as real
              <= l.burst as real + Gain(l, EndTime(es, t) - es[0].now)
  {
    SaneEmpty(l, t);
    PassedIsPaid(l, map[], t, before, key);
    var bs, u := Final(l, map[], before), EndTime(before, t);
    assert Sane(l, bs, es[0].now);
    MonotoneLater(es, u, u);
    assert Monotone(es, es[0].now);
    PassedIsPaid(l, bs, es[0].now, es, key);
    LevelBounds(l, bs, key, u, es[0].now);
    LevelBounds(l, Final(l, bs, es), key, EndTime(es, t), EndTime(es, t));
  }

  lemma {:induction false} SalvoCounts(l: Limit, bs: Buckets, key: string, now: real, n: nat, rest: seq<Event>)
    returns (cs: Buckets)
    requires Level(l, bs, key, now) >= n as real
    ensures Passed(l, bs, Salvo(key, now, n) + rest, key) == n + Passed(l, cs, rest, key)
    ensures if n == 0 then cs == bs else key in cs && cs[key] == Bucket(Level(l, bs, key, now) - n as real, now)
    decreases n
  {
    var es := Salvo(key, now, n) + rest;
    if n == 0 {
      cs := bs;
      assert es == rest;
    } else {
      LevelAgain(l, bs, key, now);
      cs := SalvoCounts(l, AfterTake(l, bs, key, now), key, now, n - 1, rest);
      assert es[0] == Event.Take(key, now) && es[1..] == Salvo(key, now, n - 1) + rest;
    }
  }

  lemma {:induction false} SalvoEnds(key: string, now: real, n: nat)
    ensures |Salvo(key, now, n)| == n && (n > 0 ==> Salvo(key, now, n)[n - 1].now == now)
  {
    if n > 0 {
      SalvoEnds(key, now, n - 1);
    }
  }

  /** Two full bursts, with a sweep of the idle bucket between them. */
  function TwoBursts(l: Limit, later: real): seq<Event>
    requires Positive(l)
  {
    Salvo("", 0.0, l.burst) + ([Event.Sweep(later)] + Salvo("", later, l.burst))
  }

  lemma TwoBurstsPass(l: Limit, later: real)
    requires Positive(l) && later > BUCKET_IDLE_TTL
    ensures var es := TwoBursts(l, later);
            Monotone(es, 0.0) && EndTime(es, 0.0) == later && es != [] && es[0].now == 0.0
              && Passed(l, map[], es, "") == 2 * l.burst
  {
    var n, second := l.burst, Salvo("", later, l.burst);
    var tail := [Event.Sweep(later)] + second;
    assert second + [] == second && tail[1..] == second;
    SalvoMonotone("", later, n, []);
    MonotoneLater(tail, 0.0, later);
    SalvoMonotone("", 0.0, n, tail);
    SalvoEnds("", 0.0, n);
    SalvoEnds("", later, n);
    var cs := SalvoCounts(l, map[], "", 0.0, n, tail);
    assert Passed(l, cs, tail, "") == Passed(l, AfterSweep(cs, later), second, "");
    var ds := SalvoCounts(l, AfterSweep(cs, later), "", later, n, []);
  }

  /** A moment after the idle time by which less than a burst has flowed in. */
  lemma BetweenTimes(l: Limit) returns (later: real)
    requires Positive(l) && l.burst > 2 * l.perMin
    ensures later > BUCKET_IDLE_TTL && Gain(l, later) < l.burst as real
  {
    var r, b := l.perMin as real, l.burst as real;
    later := BUCKET_IDLE_TTL + 0.5 / r;
    assert (0.5 / r) * r == 0.5;
    assert later * r == BUCKET_IDLE_TTL * r + (0.5 / r) * r;
    assert 0.5 / r > 0.0;
  }

  /** The bound of a stretch of `es` that follows `before`. */
  ghost predicate WithinRate(l: Limit, before: seq<Event>, es: seq<Event>, key: string)
    requires es != []
  {
    Passed(l, Final(l, map[], before), es, key) as real <= l.burst as real + Gain(l, EndTime(es, 0.0) - es[0].now)
  }

  /**
   * Every stretch of every run with sweeps keeps to the rate exactly when a full burst refills within the idle time.
   */
  lemma RateBoundIff(l: Limit)
    requires Positive(l)
    ensures l.burst <= 2 * l.perMin <==>
              forall before, es, key :: Monotone(before, 0.0) && es != [] && Monotone(es, EndTime(before, 0.0)) ==>
                WithinRate(l, before, es, key)
  {
    if l.burst <= 2 * l.perMin {
      forall before, es, key | Monotone(before, 0.0) && es != [] && Monotone(es, EndTime(before, 0.0))
        ensures WithinRate(l, before, es, key)
      {
        RateBound(l, 0.0, before, es, key);
      }
    } else {
      var later := BetweenTimes(l);
      var before, es: seq<Event> := [], TwoBursts(l, later);
      hide Gain, Passed;
      TwoBurstsPass(l, later);
      assert Monotone(before, 0.0) && Monotone(es, EndTime(before, 0.0)) && !WithinRate(l, before, es, "");
    }
  }

  // ----- the wait of a refused client -----

  /** No request of `key` passes in this run. */
  predicate NonePass(l: Limit, bs: Buckets, es: seq<Event>, key: string) { Passed(l, bs, es, key) == 0 }

  /**
   * From `t` on, `key` has a whole token exactly from `due` on; its bucket, if any, was touched no earlier than
   * `since`.
   */
  ghost predicate Due(l: Limit, bs: Buckets, key: string, t: real, since: real, due: real) {
    && (key in bs ==> bs[key].lastSeen >= since)
    && (forall later :: later >= t ==> (Level(l, bs, key, later) >= 1.0 <==> later >= due))
  }

  /** Neither a refused request nor a sweep changes that: a bucket swept has had its token long since. */
  lemma DueAfter(l: Limit, bs: Buckets, t: real, e: Event, key: string, since: real, due: real)
    requires Positive(l) && Sane(l, bs, t) && t <= e.now && Due(l, bs, key, t, since, due)
    requires due <= since + BUCKET_IDLE_TTL
    requires e.Take? && e.key == key ==> Level(l, bs, key, e.now) < 1.0
    ensures Due(l, After(l, bs, e), key, e.now, since, due)
  {
    var cs := After(l, bs, e);
    forall later | later >= e.now ensures Level(l, cs, key, later) >= 1.0 <==> later >= due {
      if e.Take? {
        LevelAfterTake(l, bs, e.key, key, t, e.now, later);
        LevelLater(l, bs, key, t, e.now, later);
      }
    }
    assert key in bs && e.Take? && e.key == key ==> e.now >= bs[key].lastSeen;
    DueTouched(l, bs, t, e, key, since, due);
  }

  lemma DueTouched(l: Limit, bs: Buckets, t: real, e: Event, key: string, since: real, due: real)
    requires Positive(l) && Sane(l, bs, t) && t <= e.now && Due(l, bs, key, t, since, due)
    requires e.Take? && e.key == key ==> Level(l, bs, key, e.now) < 1.0
    ensures key in After(l, bs, e) ==> After(l, bs, e)[key].lastSeen >= since
  {
    hide Gain;
  }

  lemma {:induction false} QuietDue(l: Limit, bs: Buckets, t: real, es: seq<Event>, key: string, since: real, due: real)
    requires Positive(l) && Sane(l, bs, t) && Monotone(es, t) && NonePass(l, bs, es, key)
    requires Due(l, bs, key, t, since, due) && due <= since + BUCKET_IDLE_TTL
    ensures t <= EndTime(es, t) && Due(l, Final(l, bs, es), key, EndTime(es, t), since, due)
    decreases |es|
  {
    if es != [] {
      hide Gain, Level, Due, Sane;
      var e, cs := es[0], After(l, bs, es[0]);
      SaneAfter(l, bs, t, e);
      DueAfter(l, bs, t, e, key, since, due);
      QuietDue(l, cs, e.now, es[1..], key, since, due);
    }
  }

  /**
   * A client refused at `now`, whatever happens meanwhile as long as none of its requests passes: refused again
   * strictly before the wait is over, admitted from then on.
   */
  lemma WaitIsExact(l: Limit, bs: Buckets, t: real, key: string, now: real, es: seq<Event>, later: real)
    requires Positive(l) && Sane(l, bs, t) && t <= now && Level(l, bs, key, now) < 1.0
    requires var cs := AfterTake(l, bs, key, now);
             Monotone(es, now) && NonePass(l, cs, es, key) && EndTime(es, now) <= later
    ensures var cs := AfterTake(l, bs, key, now);
            Level(l, Final(l, cs, es), key, later) >= 1.0 <==> later >= now + ExactWait(l, Level(l, bs, key, now))
  {
    var cs, level := AfterTake(l, bs, key, now), Level(l, bs, key, now);
    var due := now + ExactWait(l, level);
    SaneAfter(l, bs, t, Event.Take(key, now));
    LevelBounds(l, bs, key, t, now);
    WaitShort(l, level);
    assert cs[key].lastSeen == now;
    hide Level, Gain, ExactWait, AfterTake, Sane;
    forall u | u >= now ensures Level(l, cs, key, u) >= 1.0 <==> u >= due {
      LevelAfterTake(l, bs, key, key, t, now, u);
      WaitArithmetic(l, level, u - now);
    }
    QuietDue(l, cs, now, es, key, now, due);
  }

  /** No wait is as long as the idle time of a sweep. */
  lemma WaitShort(l: Limit, level: real)
    requires Positive(l) && 0.0 <= level < 1.0
    ensures ExactWait(l, level) <= 1.0
  {
    var w, r := ExactWait(l, level), l.perMin as real;
    assert w * r == 1.0 - level;
    if w > 1.0 {
      assert false;
    }
  }

  lemma WaitArithmetic(l: Limit, level: real, d: real)
    requires Positive(l) && level < 1.0
    ensures level + Gain(l, d) >= 1.0 <==> d >= ExactWait(l, level)
  {
    var w, r := ExactWait(l, level), l.perMin as real;
    assert Gain(l, w) == 1.0 - level by {
      assert w * r == (1.0 - level) / r * r;
    }
    if d < w {
      GainGrows(l, d, w);
    } else {
      GainGrows(l, w, d);
    }
  }

  /** The milliseconds told to a refused client, and the whole seconds of the Retry-After header. */
  function RetryMs(waitNanos: int): int { waitNanos / 1_000_000 + 1 }

  function RetrySeconds(waitNanos: int): int { (RetryMs(waitNanos) + 999) / 1000 }

  /** Rounded up, never early, and late by at most a millisecond. */
  lemma RetryNeverEarly(l: Limit, level: real)
    requires Positive(l) && 0.0 <= level < 1.0
    ensures var exact := ExactWait(l, level) * NANOS_PER_MINUTE;
            var ms := RetryMs(exact.Floor);
            && exact < ms as real * 1_000_000.0 <= exact + 1_000_000.0
            && RetrySeconds(exact.Floor) >= 1 && RetrySeconds(exact.Floor) as real * 1_000_000_000.0 > exact
            && (RetrySeconds(exact.Floor) - 1) * 1000 < ms <= RetrySeconds(exact.Floor) * 1000
  {
    var exact := ExactWait(l, level) * NANOS_PER_MINUTE;
    assert ExactWait(l, level) > 0.0 by {
      assert (1.0 - level) / l.perMin as real > 0.0;
    }
    assert exact > 0.0;
    RoundUp(exact);
  }

  lemma RoundUp(x: real)
    requires x > 0.0
    ensures var ms := x.Floor / 1_000_000 + 1;
            && x < ms as real * 1_000_000.0 <= x + 1_000_000.0
            && (ms + 999) / 1000 >= 1 && ((ms + 999) / 1000) as real * 1_000_000_000.0 > x
  {
    var n := x.Floor;
    var ms := n / 1_000_000 + 1;
    assert n < ms * 1_000_000 <= n + 1_000_000;
    assert ((ms + 999) / 1000) * 1000 >= ms;
    var sec := (ms + 999) / 1000;
    assert sec * 1_000_000_000 >= ms * 1_000_000;
    assert sec as real * 1_000_000_000.0 >= ms as real * 1_000_000.0;
  }
}
