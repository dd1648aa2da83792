/**
 A reference limiter that stores nothing but a client's grants, and facts about it:
 how much may be granted in an interval, and when a hinted retry succeeds.
 */
module RateLimiterHistory {
  import opened Common
  import opened RateLimiterSpec

  // ---------------------------------------------------------------- counting and trimming

  function Times(h: seq<Grant>): seq<real> {
    seq(|h|, i requires 0 <= i < |h| => h[i].time)
  }

  ghost predicate Ordered(times: seq<real>, now: real) {
    (forall i :: 0 <= i < |times| ==> times[i] <= now) &&
    (forall i, j :: 0 <= i < j < |times| ==> times[i] <= times[j])
  }

  lemma DropTwice(w: seq<real>, t: real, u: real)
    ensures t <= u ==> DropBefore(DropBefore(w, t), u) == DropBefore(w, u)
  {
  }

  lemma {:induction false} DropAppend(w: seq<real>, x: real, t: real)
    requires t <= x
    ensures DropBefore(w + [x], t) == DropBefore(w, t) + [x]
  {
    if w != [] && w[0] < t {
      assert (w + [x])[1..] == w[1..] + [x];
      DropAppend(w[1..], x, t);
    }
  }

  lemma {:induction false} DropAll(w: seq<real>, t: real)
    requires forall i :: 0 <= i < |w| ==> w[i] < t
    ensures DropBefore(w, t) == []
  {
    if w != [] {
      DropAll(w[1..], t);
    }
  }

  // What is dropped is a prefix of stale entries.
  lemma {:induction false} DropSplit(w: seq<real>, t: real) returns (k: nat)
    ensures k <= |w| && DropBefore(w, t) == w[k..]
    ensures forall i :: 0 <= i < k ==> w[i] < t
    ensures k < |w| ==> w[k] >= t
  {
    if w != [] && w[0] < t {
      var j := DropSplit(w[1..], t);
      k := j + 1;
      assert w[1..][j..] == w[k..];
      forall i | 0 <= i < k ensures w[i] < t {
        if i > 0 { assert w[i] == w[1..][i - 1]; }
      }
    } else {
      k := 0;
    }
  }

  lemma {:induction false} CountConcat(a: seq<real>, b: seq<real>, t: real)
    ensures CountSince(a + b, t) == CountSince(a, t) + CountSince(b, t)
  {
    if b == [] {
      assert a + b == a;
    } else {
      CountConcat(a, b[..|b| - 1], t);
      assert (a + b)[..|a + b| - 1] == a + b[..|b| - 1];
    }
  }

  lemma {:induction false} CountStale(w: seq<real>, t: real)
    requires forall i :: 0 <= i < |w| ==> w[i] < t
    ensures CountSince(w, t) == 0
  {
    if w != [] {
      CountStale(w[..|w| - 1], t);
    }
  }

  lemma {:induction false} CountFresh(w: seq<real>, t: real)
    requires forall i :: 0 <= i < |w| ==> w[i] >= t
    ensures CountSince(w, t) == |w|
  {
    if w != [] {
      CountFresh(w[..|w| - 1], t);
    }
  }

  // The trimmed deque counts the same entries as the whole history.
  lemma TrimmedCounts(w: seq<real>, t: real, u: real, now: real)
    requires t <= u && Ordered(w, now)
    ensures CountSince(DropBefore(w, t), u) == CountSince(w, u)
    ensures |DropBefore(w, t)| == CountSince(w, t)
  {
    var k := DropSplit(w, t);
    assert w == w[..k] + w[k..];
    CountConcat(w[..k], w[k..], u);
    CountConcat(w[..k], w[k..], t);
    CountStale(w[..k], u);
    CountStale(w[..k], t);
    CountFresh(w[k..], t);
  }

  // ---------------------------------------------------------------- token level as a function of the grants

  function Level(h: seq<Grant>, rule: Rule, t: real): real {
    if h == [] then rule.burstSize as real
    else
      var last := h[|h| - 1];
      RealMin(rule.burstSize as real,
              Level(h[..|h| - 1], rule, last.time) - last.cost as real + Accrual(t - last.time, rule.requestsPerSecond))
  }

  // The decision of a limiter that forgets nothing and stores only the grants.
  function HistoryVerdict(h: seq<Grant>, rule: Rule, cost: int, now: real): Verdict {
    Judge(Level(h, rule, now), DropBefore(Times(h), now - HOUR), rule, cost, now)
  }

  function HistoryOutcome(h: seq<Grant>, rule: Rule, cost: int, now: real): Outcome {
    Report(HistoryVerdict(h, rule, cost, now), Level(h, rule, now), rule, cost, now)
  }

  // Every grant was paid for by the level it found.
  predicate Affordable(h: seq<Grant>, rule: Rule) {
    h == [] ||
    (var f, last := h[..|h| - 1], h[|h| - 1];
     Affordable(f, rule) && 0 <= last.cost && last.cost as real <= Level(f, rule, last.time))
  }

  // Every grant found fewer than `limit` grants in the closed window that ends with it.
  predicate Paced(times: seq<real>, limit: real, width: real) {
    times == [] ||
    (var f, last := times[..|times| - 1], times[|times| - 1];
     Paced(f, limit, width) && CountSince(f, last - width) as real < limit)
  }

  lemma LevelAtMostBurst(h: seq<Grant>, rule: Rule, t: real)
    ensures Level(h, rule, t) <= rule.burstSize as real
  {
  }

  lemma Distribute(a: real, b: real, r: real)
    ensures Accrual(a + b, r) == Accrual(a, r) + Accrual(b, r)
  {
  }

  lemma Grows(a: real, r: real)
    ensures a >= 0.0 && r >= 0.0 ==> Accrual(a, r) >= 0.0
  {
  }

  lemma {:induction false} LevelAdvances(h: seq<Grant>, rule: Rule, t: real, u: real)
    ensures t <= u && rule.requestsPerSecond >= 0.0 ==>
      Level(h, rule, u) ==
        RealMin(rule.burstSize as real, Level(h, rule, t) + Accrual(u - t, rule.requestsPerSecond))
  {
    Grows(u - t, rule.requestsPerSecond);
    if h != [] {
      var last := h[|h| - 1];
      Distribute(t - last.time, u - t, rule.requestsPerSecond);
      assert (t - last.time) + (u - t) == u - last.time;
    }
  }

  function CostSince(h: seq<Grant>, s: real): int {
    if h == [] then 0
    else CostSince(h[..|h| - 1], s) + (if h[|h| - 1].time >= s then h[|h| - 1].cost else 0)
  }

  function CostWithin(h: seq<Grant>, s: real, t: real): int {
    if h == [] then 0
    else CostWithin(h[..|h| - 1], s, t) + (if s <= h[|h| - 1].time <= t then h[|h| - 1].cost else 0)
  }

  lemma {:induction false} CostBefore(h: seq<Grant>, s: real)
    requires forall i :: 0 <= i < |h| ==> h[i].time < s
    ensures CostSince(h, s) == 0
  {
    if h != [] { CostBefore(h[..|h| - 1], s); }
  }

  lemma {:induction false} CostUntil(h: seq<Grant>, s: real, t: real)
    requires forall i :: 0 <= i < |h| ==> h[i].time <= t
    ensures CostWithin(h, s, t) == CostSince(h, s)
  {
    if h != [] { CostUntil(h[..|h| - 1], s, t); }
  }

  lemma OrderedFront(h: seq<Grant>, now: real)
    requires h != [] && Ordered(Times(h), now)
    ensures Times(h[..|h| - 1]) == Times(h)[..|h| - 1] && h[|h| - 1].time <= now
    ensures Ordered(Times(h[..|h| - 1]), h[|h| - 1].time)
    ensures forall i :: 0 <= i < |h| ==> h[i].time <= h[|h| - 1].time
  {
    var f, times, last := h[..|h| - 1], Times(h), |h| - 1;
    assert Times(f) == times[..last];
    assert times[last] == h[last].time;
    forall i | 0 <= i < |h| ensures h[i].time <= h[last].time {
      assert times[i] == h[i].time;
    }
  }

  // The arithmetic of the budget below, without a grant and with one.
  lemma {:induction false} BudgetIdle(level: real, burst: real, r: real, s: real, t: real)
    requires level <= burst && s <= t && r >= 0.0
    ensures level <= burst + Accrual(t - s, r)
  {
    Grows(t - s, r);
  }

  lemma {:induction false} BudgetGrant(spent: real, before: real, after: real, burst: real, cost: real, r: real,
      s: real, m: real, t: real)
    requires spent + before <= burst + Accrual(m - s, r)
    requires after <= before - cost + Accrual(t - m, r)
    ensures spent + cost + after <= burst + Accrual(t - s, r)
  {
    Distribute(m - s, t - m, r);
    assert (m - s) + (t - m) == t - s;
  }

  lemma LevelAfterGrant(h: seq<Grant>, rule: Rule, t: real)
    ensures h != [] ==>
      var f, last := h[..|h| - 1], h[|h| - 1];
        Level(h, rule, t) <=
            Level(f, rule, last.time) - last.cost as real + Accrual(t - last.time, rule.requestsPerSecond)
  {
  }

  // Cost granted since s plus tokens left never exceeds the burst plus the refill since s.
  lemma {:induction false} TokenBudget(h: seq<Grant>, rule: Rule, s: real, t: real)
    requires rule.requestsPerSecond >= 0.0
    requires Ordered(Times(h), t) && Affordable(h, rule) && s <= t
    ensures CostSince(h, s) as real + Level(h, rule, t) <=
        rule.burstSize as real + Accrual(t - s, rule.requestsPerSecond)
  {
    var burst, rate := rule.burstSize as real, rule.requestsPerSecond;
    var level := Level(h, rule, t);
    if h == [] || h[|h| - 1].time < s {
      if h != [] { OrderedFront(h, t); }
      CostBefore(h, s);
      LevelAtMostBurst(h, rule, t);
      BudgetIdle(level, burst, rate, s, t);
    } else {
      var f, last := h[..|h| - 1], h[|h| - 1];
      OrderedFront(h, t);
      TokenBudget(f, rule, s, last.time);
      LevelAfterGrant(h, rule, t);
      var spent, before := CostSince(f, s) as real, Level(f, rule, last.time);
      BudgetGrant(spent, before, level, burst, last.cost as real, rate, s, last.time, t);
    }
  }

  // The budget of every closed interval, wherever it ends.
  lemma {:induction false} IntervalBudget(h: seq<Grant>, rule: Rule, s: real, t: real, now: real)
    requires rule.requestsPerSecond >= 0.0 && rule.burstSize >= 0
    requires Ordered(Times(h), now) && Affordable(h, rule) && s <= t
    ensures CostWithin(h, s, t) as real <= rule.burstSize as real + Accrual(t - s, rule.requestsPerSecond)
  {
    if h == [] {
      BudgetIdle(0.0, rule.burstSize as real, rule.requestsPerSecond, s, t);
    } else {
      OrderedFront(h, now);
      var last := h[|h| - 1].time;
      if last > t {
        IntervalBudget(h[..|h| - 1], rule, s, t, last);
      } else {
        CostUntil(h, s, t);
        assert Ordered(Times(h), t);
        TokenBudget(h, rule, s, t);
        LevelNotNegative(h, rule, t);
      }
    }
  }

  lemma {:induction false} LevelNotNegative(h: seq<Grant>, rule: Rule, t: real)
    requires rule.requestsPerSecond >= 0.0 && rule.burstSize >= 0
    requires Affordable(h, rule)
    requires h != [] ==> h[|h| - 1].time <= t
    ensures Level(h, rule, t) >= 0.0
  {
    if h != [] {
      var f, last := h[..|h| - 1], h[|h| - 1];
      var refill := Accrual(t - last.time, rule.requestsPerSecond);
      Grows(t - last.time, rule.requestsPerSecond);
      assert Level(h, rule, t) ==
          RealMin(rule.burstSize as real, Level(f, rule, last.time) - last.cost as real + refill);
    }
  }

  // ---------------------------------------------------------------- window counts

  function CountWithin(times: seq<real>, s: real, t: real): nat {
    if times == [] then 0
    else CountWithin(times[..|times| - 1], s, t) + (if s <= times[|times| - 1] <= t then 1 else 0)
  }

  lemma {:induction false} WithinAtMostSince(times: seq<real>, s: real, t: real, u: real)
    requires u <= s
    ensures CountWithin(times, s, t) <= CountSince(times, u)
  {
    if times != [] { WithinAtMostSince(times[..|times| - 1], s, t, u); }
  }

  // A paced history holds fewer than limit + 1 grants in every closed window, none if the limit is not positive.
  lemma {:induction false} PacedWindow(times: seq<real>, limit: real, width: real, s: real)
    requires Paced(times, limit, width) && width >= 0.0
    ensures CountWithin(times, s, s + width) > 0 ==> (CountWithin(times, s, s + width) - 1) as real < limit
  {
    if times != [] {
      var f, x := times[..|times| - 1], times[|times| - 1];
      PacedWindow(f, limit, width, s);
      if s <= x <= s + width {
        WithinAtMostSince(f, s, s + width, x - width);
      }
    }
  }

  // ---------------------------------------------------------------- hints

  // The time a burst denial hints at is enough to earn what is missing.
  lemma {:induction false} WaitRefills(need: real, r: real, elapsed: real)
    requires need > 0.0 && r > 0.0 && elapsed >= need / r
    ensures elapsed > 0.0 && Accrual(elapsed, r) >= need
  {
    assert Accrual(need / r, r) == need;
    Distribute(need / r, elapsed - need / r, r);
    Grows(elapsed - need / r, r);
    if elapsed <= 0.0 {
      Grows(-elapsed, r);
      assert false;
    }
  }

  // After an hour-window denial the hour count is below the limit at every time strictly after the hint.
  lemma HourHintSuffices(times: seq<real>, rule: Rule, now: real, later: real)
    requires Ordered(times, now) && Paced(times, rule.requestsPerHour, HOUR)
    requires rule.requestsPerHour > 0.0
    requires DropBefore(times, now - HOUR) != [] && later > DropBefore(times, now - HOUR)[0] + HOUR && now <= later
    ensures |DropBefore(times, later - HOUR)| as real < rule.requestsPerHour
  {
    var k := DropSplit(times, now - HOUR);
    var j := DropSplit(times, later - HOUR);
    if j < |times| {
      assert j > k;
      var last := |times| - 1;
      // What is still counted, the newest grant apart, was counted with the oldest entry
      // of the denial when the newest was granted.
      SuffixCounts(times[..last], k, times[last] - HOUR);
    }
  }

  lemma {:induction false} SuffixCounts(w: seq<real>, k: nat, t: real)
    requires k <= |w|
    requires forall i :: k <= i < |w| ==> w[i] >= t
    ensures CountSince(w, t) >= |w| - k
  {
    assert w == w[..k] + w[k..];
    CountConcat(w[..k], w[k..], t);
    CountFresh(w[k..], t);
  }
}
