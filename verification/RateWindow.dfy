/** The token bucket against the rule it stands for: a request passes as long as no stretch of time is overfull. */
module RateWindow {
  import opened RateLimiter

  /** When the requests of each client passed, oldest first. */
  type History = map<string, seq<real>>

  function PassesOf(h: History, key: string): seq<real> { if key in h then h[key] else [] }

  /**
   * The stretch from the `j`-th pass up to `now` has room for `x` more: all of it is no more than a burst and the rate
   * times its length.
   */
  predicate Room(l: Limit, passes: seq<real>, now: real, x: real, j: nat)
    requires j < |passes|
  {
    |passes| as real - j as real + x <= l.burst as real + (now - passes[j]) * l.perMin as real
  }

  /** The rule: one more request at `now` passes if every stretch from an earlier pass up to it has room for it. */
  predicate Allowed(l: Limit, passes: seq<real>, now: real) {
    forall j: nat :: j < |passes| ==> Room(l, passes, now, 1.0, j)
  }

  /** The answers by that rule alone. Sweeps mean nothing to it. */
  function ByRule(l: Limit, h: History, es: seq<Event>): seq<bool>
    decreases |es|
  {
    if es == [] then []
    else if es[0].Sweep? then ByRule(l, h, es[1..])
    else
      var ps, ok := PassesOf(h, es[0].key), Allowed(l, PassesOf(h, es[0].key), es[0].now);
      [ok] + ByRule(l, if ok then h[es[0].key := ps + [es[0].now]] else h, es[1..])
  }

  /** What the passes leave in the bucket at `now`. */
  function Spare(l: Limit, passes: seq<real>, now: real): real
    decreases |passes|
  {
    if passes == [] then l.burst as real
    else
      var n := |passes| - 1;
      MinReal(Spare(l, passes[..n], passes[n]) - 1.0 + Gain(l, now - passes[n]), l.burst as real)
  }

  /** There is room for `x` exactly if there is in every stretch. */
  lemma {:induction false} SpareIff(l: Limit, passes: seq<real>, now: real, x: real)
    requires x <= l.burst as real
    ensures Spare(l, passes, now) >= x <==> forall j: nat :: j < |passes| ==> Room(l, passes, now, x, j)
    decreases |passes|
  {
    if passes != [] {
      var n := |passes| - 1;
      var ps, p := passes[..n], passes[n];
      var y := x + 1.0 - Gain(l, now - p);
      forall j: nat | j < n ensures Room(l, passes, now, x, j) <==> Room(l, ps, p, y, j) {
        GainAdd(l, now - p, p - passes[j]);
        assert (now - p) + (p - passes[j]) == now - passes[j];
      }
      assert Room(l, passes, now, x, n) <==> y <= l.burst as real;
      if y <= l.burst as real {
        SpareIff(l, ps, p, y);
      } else {
        SpareBounded(l, ps, p);
      }
    }
  }

  lemma SpareBounded(l: Limit, passes: seq<real>, now: real)
    ensures Spare(l, passes, now) <= l.burst as real
  {
  }

  lemma AllowedIff(l: Limit, passes: seq<real>, now: real)
    requires Positive(l)
    ensures Allowed(l, passes, now) <==> Spare(l, passes, now) >= 1.0
  {
    SpareIff(l, passes, now, 1.0);
  }

  /** From `t` on the buckets hold what the passes leave. */
  ghost predicate Agrees(l: Limit, bs: Buckets, h: History, t: real) {
    forall key, now :: now >= t ==> Level(l, bs, key, now) == Spare(l, PassesOf(h, key), now)
  }

  lemma SpareSnoc(l: Limit, passes: seq<real>, p: real, now: real)
    ensures Spare(l, passes + [p], now) == MinReal(Spare(l, passes, p) - 1.0 + Gain(l, now - p), l.burst as real)
  {
    assert (passes + [p])[..|passes|] == passes;
  }

  lemma TakeAgrees(l: Limit, bs: Buckets, h: History, t: real, key: string, now: real)
    requires Positive(l) && Sane(l, bs, t) && t <= now && Agrees(l, bs, h, t)
    ensures var ps := PassesOf(h, key);
            && (Allowed(l, ps, now) <==> Level(l, bs, key, now) >= 1.0)
            && Agrees(l, AfterTake(l, bs, key, now), if Allowed(l, ps, now) then h[key := ps + [now]] else h, now)
  {
    var ps := PassesOf(h, key);
    AllowedIff(l, ps, now);
    assert Level(l, bs, key, now) == Spare(l, ps, now);
    hide Level, Allowed, AfterTake, Gain, Spare, Sane;
    var cs, h' := AfterTake(l, bs, key, now), if Allowed(l, ps, now) then h[key := ps + [now]] else h;
    forall k, later | later >= now ensures Level(l, cs, k, later) == Spare(l, PassesOf(h', k), later) {
      LevelAfterTake(l, bs, key, k, t, now, later);
      LevelLater(l, bs, k, t, now, later);
      SpareSnoc(l, ps, now, later);
    }
  }

  lemma {:induction false} RunByRule(l: Limit, bs: Buckets, h: History, t: real, es: seq<Event>)
    requires Positive(l) && Sane(l, bs, t) && Agrees(l, bs, h, t) && Monotone(es, t)
    requires l.burst <= 2 * l.perMin || forall e :: e in es ==> e.Take?
    ensures Answers(l, bs, es) == ByRule(l, h, es)
    decreases |es|
  {
    hide Agrees, Level, Allowed, Sane, AfterTake, AfterSweep;
    if es != [] {
      var e := es[0];
      assert e in es && forall x :: x in es[1..] ==> x in es;
      SaneAfter(l, bs, t, e);
      if e.Take? {
        TakeAgrees(l, bs, h, t, e.key, e.now);
        var ps := PassesOf(h, e.key);
        RunByRule(l, After(l, bs, e), if Allowed(l, ps, e.now) then h[e.key := ps + [e.now]] else h, e.now, es[1..]);
      } else {
        SweepAgrees(l, bs, h, t, e.now);
        RunByRule(l, After(l, bs, e), h, e.now, es[1..]);
      }
    }
  }

  lemma SweepAgrees(l: Limit, bs: Buckets, h: History, t: real, now: real)
    requires Positive(l) && Sane(l, bs, t) && t <= now && l.burst <= 2 * l.perMin && Agrees(l, bs, h, t)
    ensures Agrees(l, AfterSweep(bs, now), h, now)
  {
    SweepAlike(l, bs, t, now);
    hide Level, AfterSweep, Spare;
  }

  lemma NoneYet(l: Limit)
    ensures Agrees(l, map[], map[], 0.0)
  {
  }

  /** A run without sweeps is answered by the rule, whatever burst and rate are. */
  lemma BucketIsRule(l: Limit, es: seq<Event>)
    requires Positive(l) && Monotone(es, 0.0) && forall e :: e in es ==> e.Take?
    ensures Answers(l, map[], es) == ByRule(l, map[], es)
  {
    SaneEmpty(l, 0.0);
    NoneYet(l);
    RunByRule(l, map[], map[], 0.0, es);
  }

  lemma {:induction false} SweepsIgnored(l: Limit, h: History, es: seq<Event>)
    ensures ByRule(l, h, NoSweeps(es)) == ByRule(l, h, es)
    ensures forall e :: e in NoSweeps(es) ==> e.Take?
    decreases |es|
  {
    if es != [] {
      var e := es[0];
      if e.Sweep? {
        SweepsIgnored(l, h, es[1..]);
        assert NoSweeps(es) == NoSweeps(es[1..]);
      } else {
        var ps := PassesOf(h, e.key);
        SweepsIgnored(l, if Allowed(l, ps, e.now) then h[e.key := ps + [e.now]] else h, es[1..]);
        assert NoSweeps(es) == [e] + NoSweeps(es[1..]) && NoSweeps(es)[1..] == NoSweeps(es[1..]);
      }
    }
  }

  /**
   * Every run, sweeps included, is answered by the rule exactly when a full burst refills within the idle time of a
   * sweep.
   */
  lemma BucketIsRuleIff(l: Limit)
    requires Positive(l)
    ensures l.burst <= 2 * l.perMin <==>
              forall es :: Monotone(es, 0.0) ==> Answers(l, map[], es) == ByRule(l, map[], es)
  {
    if l.burst <= 2 * l.perMin {
      forall es | Monotone(es, 0.0) ensures Answers(l, map[], es) == ByRule(l, map[], es) {
        SaneEmpty(l, 0.0);
        NoneYet(l);
        RunByRule(l, map[], map[], 0.0, es);
      }
    } else {
      var es := Visible(l, true);
      SweepShows(l);
      SweepsIgnored(l, map[], es);
      NoSweepsMonotone(es, 0.0);
      BucketIsRule(l, NoSweeps(es));
      assert Monotone(es, 0.0) && Answers(l, map[], es) != ByRule(l, map[], es);
    }
  }
}
