/** Per-target sliding-window limiter (collector/src/alert_manager.py, RateLimiter).

    The limiter keeps a deque of recent timestamps; the specification keeps the whole
    history of allowed alerts and counts the last minute of it. */
module RateLimiter {
  import opened Common

  const MINUTE: nat := 60_000_000   // microseconds, the resolution of the clock

  datatype Call = Call(target: int, now: int)

  // ---- The limiter ----

  function Window(windows: map<int, seq<int>>, t: int): seq<int> {
    if t in windows then windows[t] else []
  }

  // The popleft loop.
  function PopOld(w: seq<int>, cutoff: int): seq<int> {
    if w != [] && w[0] < cutoff then PopOld(w[1..], cutoff) else w
  }

  // The deque of the call's target without what is more than a minute old.
  function Popped(windows: map<int, seq<int>>, c: Call): seq<int> {
    PopOld(Window(windows, c.target), c.now - MINUTE)
  }

  function Step(windows: map<int, seq<int>>, max: int, c: Call): map<int, seq<int>> {
    var w := Popped(windows, c);
    windows[c.target := if |w| < max then w + [c.now] else w]
  }

  predicate Decision(windows: map<int, seq<int>>, max: int, c: Call) {
    |Popped(windows, c)| < max
  }

  function After(max: int, calls: seq<Call>): map<int, seq<int>> {
    if calls == [] then map[]
    else Step(After(max, calls[..|calls| - 1]), max, calls[|calls| - 1])
  }

  // ---- The history ----

  function Recent(h: seq<int>, cutoff: int): seq<int> {
    if h == [] then []
    else (if h[0] >= cutoff then [h[0]] else []) + Recent(h[1..], cutoff)
  }

  function CountIn(h: seq<int>, a: int, b: int): nat {
    if h == [] then 0 else (if a <= h[0] <= b then 1 else 0) + CountIn(h[1..], a, b)
  }

  // Times at which target t was allowed, by the rule "fewer than max in the last minute".
  function History(max: int, calls: seq<Call>, t: int): seq<int> {
    if calls == [] then []
    else
      var last := calls[|calls| - 1];
      var h := History(max, calls[..|calls| - 1], t);
      if last.target == t && |Recent(h, last.now - MINUTE)| < max then h + [last.now] else h
  }

  ghost predicate ClockOrdered(calls: seq<Call>) {
    forall i, j | 0 <= i < j < |calls| :: calls[i].now <= calls[j].now
  }

  ghost predicate Sorted(h: seq<int>) {
    forall i, j | 0 <= i < j < |h| :: h[i] <= h[j]
  }

  ghost predicate AtMost(h: seq<int>, now: int) {
    forall i | 0 <= i < |h| :: h[i] <= now
  }

  ghost predicate AtLeast(h: seq<int>, cutoff: int) {
    forall i | 0 <= i < |h| :: h[i] >= cutoff
  }

  // ---- Lists ----

  lemma {:induction false} RecentAppend(h: seq<int>, x: int, cutoff: int)
    ensures Recent(h + [x], cutoff) == Recent(h, cutoff) + if x >= cutoff then [x] else []
  {
    if h == [] {
      assert h + [x] == [x];
    } else {
      assert (h + [x])[1..] == h[1..] + [x];
      RecentAppend(h[1..], x, cutoff);
      var first, last := if h[0] >= cutoff then [h[0]] else [], if x >= cutoff then [x] else [];
      assert first + (Recent(h[1..], cutoff) + last) == (first + Recent(h[1..], cutoff)) + last;
    }
  }

  lemma {:induction false} CountAppend(h: seq<int>, x: int, a: int, b: int)
    ensures CountIn(h + [x], a, b) == CountIn(h, a, b) + if a <= x <= b then 1 else 0
  {
    if h == [] {
      assert h + [x] == [x];
    } else {
      assert (h + [x])[1..] == h[1..] + [x];
      CountAppend(h[1..], x, a, b);
    }
  }

  lemma {:induction false} RecentIsCount(h: seq<int>, cutoff: int, now: int)
    requires AtMost(h, now)
    ensures |Recent(h, cutoff)| == CountIn(h, cutoff, now)
  {
    if h != [] { RecentIsCount(h[1..], cutoff, now); }
  }

  // On a sorted list, filtering twice and popping the front are both filtering once.
  lemma {:induction false} RecentTwice(h: seq<int>, c: int, cutoff: int)
    requires c <= cutoff
    ensures Recent(Recent(h, c), cutoff) == Recent(h, cutoff)
  {
    if h != [] {
      RecentTwice(h[1..], c, cutoff);
      if h[0] >= c {
        assert ([h[0]] + Recent(h[1..], c))[1..] == Recent(h[1..], c);
      } else {
        assert Recent(h, c) == Recent(h[1..], c);
        assert Recent(h, cutoff) == Recent(h[1..], cutoff);
      }
    }
  }

  lemma {:induction false} RecentSorted(h: seq<int>, cutoff: int)
    requires Sorted(h)
    ensures Sorted(Recent(h, cutoff))
    ensures h != [] ==> AtLeast(Recent(h, cutoff), h[0])
  {
    if h != [] {
      RecentSorted(h[1..], cutoff);
    }
  }

  lemma {:induction false} PopIsRecent(w: seq<int>, cutoff: int)
    requires Sorted(w)
    ensures PopOld(w, cutoff) == Recent(w, cutoff)
  {
    if w != [] {
      if w[0] < cutoff {
        PopIsRecent(w[1..], cutoff);
      } else {
        RecentAll(w, cutoff);
      }
    }
  }

  lemma {:induction false} RecentAll(w: seq<int>, cutoff: int)
    requires AtLeast(w, cutoff)
    ensures Recent(w, cutoff) == w
  {
    if w != [] {
      RecentAll(w[1..], cutoff);
      assert w == [w[0]] + w[1..];
    }
  }

  // ---- Refinement ----

  lemma {:induction false} HistorySorted(max: int, calls: seq<Call>, t: int, now: int)
    requires ClockOrdered(calls) && forall i | 0 <= i < |calls| :: calls[i].now <= now
    ensures Sorted(History(max, calls, t)) && AtMost(History(max, calls, t), now)
    decreases |calls|
  {
    if calls != [] {
      var n := |calls| - 1;
      assert forall i | 0 <= i < n :: calls[..n][i] == calls[i];
      HistorySorted(max, calls[..n], t, calls[n].now);
    }
  }

  // The cutoff of the last call for t.
  function LastCutoff(calls: seq<Call>, t: int): int {
    if calls == [] then 0
    else
      var last := calls[|calls| - 1];
      if last.target == t then last.now - MINUTE else LastCutoff(calls[..|calls| - 1], t)
  }

  // After any run with a clock that does not go back, the deque of each target is its full
  // history filtered to the minute before the target's last call; hence the limiter decides
  // every next call as the history does.
  lemma {:induction false} WindowIsRecentHistory(max: int, calls: seq<Call>, t: int)
    requires ClockOrdered(calls)
    ensures Window(After(max, calls), t) == Recent(History(max, calls, t), LastCutoff(calls, t))
    decreases |calls|
  {
    if calls != [] {
      var n := |calls| - 1;
      var init, last := calls[..n], calls[n];
      assert ClockOrdered(init) by { assert forall i | 0 <= i < n :: init[i] == calls[i]; }
      WindowIsRecentHistory(max, init, t);
      if last.target == t {
        DecisionMatches(max, init, last);
        RecentAppend(History(max, init, t), last.now, last.now - MINUTE);
      }
    }
  }

  lemma {:induction false} DecisionMatches(max: int, calls: seq<Call>, c: Call)
    requires ClockOrdered(calls) && forall i | 0 <= i < |calls| :: calls[i].now <= c.now
    requires Window(After(max, calls), c.target)
             == Recent(History(max, calls, c.target), LastCutoff(calls, c.target))
    ensures PopOld(Window(After(max, calls), c.target), c.now - MINUTE)
            == Recent(History(max, calls, c.target), c.now - MINUTE)
  {
    var h, cut := History(max, calls, c.target), LastCutoff(calls, c.target);
    HistorySorted(max, calls, c.target, c.now);
    RecentSorted(h, cut);
    PopIsRecent(Recent(h, cut), c.now - MINUTE);
    if h == [] {
    } else {
      LastCutoffOrdered(max, calls, c.target, c.now);
      RecentTwice(h, cut, c.now - MINUTE);
    }
  }

  lemma {:induction false} LastCutoffOrdered(max: int, calls: seq<Call>, t: int, now: int)
    requires forall i | 0 <= i < |calls| :: calls[i].now <= now
    requires History(max, calls, t) != []
    ensures LastCutoff(calls, t) <= now - MINUTE
    decreases |calls|
  {
    var n := |calls| - 1;
    if calls[n].target != t {
      LastCutoffOrdered(max, calls[..n], t, now);
    }
  }

  // ---- What the limiter lets through ----

  // Times at which target t was allowed, by the limiter's own decisions.
  function Allowed(max: int, calls: seq<Call>, t: int): seq<int> {
    if calls == [] then []
    else
      var init, last := calls[..|calls| - 1], calls[|calls| - 1];
      if last.target == t && Decision(After(max, init), max, last) then Allowed(max, init, t) + [last.now]
      else Allowed(max, init, t)
  }

  ghost predicate NoLaterThan(calls: seq<Call>, now: int) {
    forall i | 0 <= i < |calls| :: calls[i].now <= now
  }

  lemma InitOrdered(calls: seq<Call>)
    requires ClockOrdered(calls) && calls != []
    ensures ClockOrdered(calls[..|calls| - 1])
    ensures NoLaterThan(calls[..|calls| - 1], calls[|calls| - 1].now)
  {
  }

  // With a clock that does not go back, what the limiter lets through is the history.
  lemma {:induction false} AllowedIsHistory(max: int, calls: seq<Call>, t: int)
    requires ClockOrdered(calls)
    ensures Allowed(max, calls, t) == History(max, calls, t)
    decreases |calls|
  {
    if calls != [] {
      var init, last := calls[..|calls| - 1], calls[|calls| - 1];
      InitOrdered(calls);
      AllowedIsHistory(max, init, t);
      if last.target == t {
        WindowIsRecentHistory(max, init, t);
        DecisionMatches(max, init, last);
      }
    }
  }

  // An alert is refused exactly when max alerts of its target were allowed in the closed
  // minute before it.
  lemma RefusedIffMinuteFull(max: int, calls: seq<Call>, c: Call)
    requires ClockOrdered(calls + [c])
    ensures !Decision(After(max, calls), max, c)
            <==> CountIn(Allowed(max, calls, c.target), c.now - MINUTE, c.now) >= max
  {
    var all := calls + [c];
    InitOrdered(all);
    assert all[..|all| - 1] == calls && all[|all| - 1] == c;
    AllowedIsHistory(max, calls, c.target);
    WindowIsRecentHistory(max, calls, c.target);
    DecisionMatches(max, calls, c);
    HistorySorted(max, calls, c.target, c.now);
    RecentIsCount(History(max, calls, c.target), c.now - MINUTE, c.now);
  }

  // In seconds: an alert is refused exactly when the maximum of its target was let through in
  // the sixty seconds up to it, both ends included.
  lemma RefusedIffSixtySecondsFull(max: int, calls: seq<Call>, c: Call)
    requires ClockOrdered(calls + [c])
    ensures !Decision(After(max, calls), max, c)
            <==> CountIn(Allowed(max, calls, c.target), c.now - 60 * 1_000_000, c.now) >= max
  {
    RefusedIffMinuteFull(max, calls, c);
  }

  class Limiter {
    const maxAlerts: int
    var windows: map<int, seq<int>>

    constructor (max: int)
      ensures maxAlerts == max && windows == map[]
    {
      maxAlerts, windows := max, map[];
    }

    method Allow(target: int, now: int) returns (ok: bool)
      modifies this
      ensures windows == Step(old(windows), maxAlerts, Call(target, now))
      ensures ok == Decision(old(windows), maxAlerts, Call(target, now))
    {
      var window := Window(windows, target);
      var cutoff := now - MINUTE;
      while window != [] && window[0] < cutoff
        invariant PopOld(window, cutoff) == PopOld(Window(old(windows), target), cutoff)
        decreases |window|
      {
        window := window[1..];
      }
      ok := |window| < maxAlerts;
      if ok { window := window + [now]; }
      windows := windows[target := window];
    }
  }
}
