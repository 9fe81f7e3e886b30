/** The limiter's bound and the clock (collector/src/alert_manager.py, RateLimiter): no minute
    holds more alerts than the maximum exactly as long as the clock never returns to within a
    minute of a reading that it had left more than a minute behind. */
module RateClock {
  import opened Common
  import opened RateLimiter

  // ---- One more call ----

  lemma OneMoreCall(max: int, calls: seq<Call>, c: Call, t: int)
    ensures After(max, calls + [c]) == Step(After(max, calls), max, c)
    ensures Window(After(max, calls + [c]), t)
            == if c.target != t then Window(After(max, calls), t)
               else if Decision(After(max, calls), max, c) then Popped(After(max, calls), c) + [c.now]
               else Popped(After(max, calls), c)
    ensures Allowed(max, calls + [c], t)
            == if c.target == t && Decision(After(max, calls), max, c) then Allowed(max, calls, t) + [c.now]
               else Allowed(max, calls, t)
  {
    assert (calls + [c])[..|calls|] == calls;
  }

  // ---- What the deque has dropped ----

  predicate ReadAt(calls: seq<Call>, t: int, i: int, x: int) {
    0 <= i < |calls| && calls[i].target == t && calls[i].now == x
  }

  // Call i for t reads x, and the later call k for t reads more than a minute past x.
  predicate Passed(calls: seq<Call>, t: int, x: int, i: int, k: int) {
    i < k < |calls| && ReadAt(calls, t, i, x) && calls[k].target == t && x < calls[k].now - MINUTE
  }

  ghost predicate LeftBehind(calls: seq<Call>, t: int, x: int) {
    exists i, k :: Passed(calls, t, x, i, k)
  }

  lemma LeftBehindStays(calls: seq<Call>, c: Call, t: int, x: int)
    requires LeftBehind(calls, t, x)
    ensures LeftBehind(calls + [c], t, x)
  {
    var i, k :| Passed(calls, t, x, i, k);
    assert Passed(calls + [c], t, x, i, k);
  }

  lemma {:induction false} AllowedWasRead(max: int, calls: seq<Call>, t: int, m: nat) returns (i: int)
    requires m < |Allowed(max, calls, t)|
    ensures ReadAt(calls, t, i, Allowed(max, calls, t)[m])
    decreases |calls|
  {
    var init, last := calls[..|calls| - 1], calls[|calls| - 1];
    assert calls == init + [last];
    OneMoreCall(max, init, last, t);
    if m < |Allowed(max, init, t)| {
      i := AllowedWasRead(max, init, t, m);
      assert calls[i] == init[i];
    } else {
      i := |calls| - 1;
    }
  }

  // Popping removes a front of readings older than the cutoff.
  lemma {:induction false} PopIsSuffix(w: seq<int>, cutoff: int) returns (p: nat)
    ensures p <= |w| && PopOld(w, cutoff) == w[p..]
    ensures forall i | 0 <= i < p :: w[i] < cutoff
  {
    if w != [] && w[0] < cutoff {
      var q := PopIsSuffix(w[1..], cutoff);
      p := q + 1;
      assert w[1..][q..] == w[p..];
      assert forall i | 1 <= i < p :: w[i] == w[1..][i - 1];
    } else {
      p := 0;
    }
  }

  // w is the end of the allowed readings, and those before it were left behind.
  ghost predicate KeptFrom(calls: seq<Call>, t: int, allowed: seq<int>, w: seq<int>, n: nat) {
    && n <= |allowed| && w == allowed[n..]
    && (forall m | 0 <= m < n :: LeftBehind(calls, t, allowed[m]))
  }

  lemma KeptAfterPop(max: int, calls: seq<Call>, c: Call, n: nat) returns (n': nat)
    requires KeptFrom(calls, c.target, Allowed(max, calls, c.target), Window(After(max, calls), c.target), n)
    ensures KeptFrom(calls + [c], c.target, Allowed(max, calls, c.target), Popped(After(max, calls), c), n')
  {
    var t, allowed, w := c.target, Allowed(max, calls, c.target), Window(After(max, calls), c.target);
    var p := PopIsSuffix(w, c.now - MINUTE);
    n' := n + p;
    assert w[p..] == allowed[n'..];
    forall m | 0 <= m < n'
      ensures LeftBehind(calls + [c], t, allowed[m])
    {
      if m < n {
        LeftBehindStays(calls, c, t, allowed[m]);
      } else {
        var i := AllowedWasRead(max, calls, t, m);
        assert allowed[m] == w[m - n];
        assert Passed(calls + [c], t, allowed[m], i, |calls|);
      }
    }
  }

  // The deque after any run, whatever its clock does.
  lemma {:induction false} WindowIsSuffix(max: int, calls: seq<Call>, t: int) returns (n: nat)
    ensures KeptFrom(calls, t, Allowed(max, calls, t), Window(After(max, calls), t), n)
    decreases |calls|
  {
    if calls == [] {
      n := 0;
    } else {
      var init, c := calls[..|calls| - 1], calls[|calls| - 1];
      assert calls == init + [c];
      var m := WindowIsSuffix(max, init, t);
      OneMoreCall(max, init, c, t);
      n := KeptAfterCall(max, init, c, t, m);
    }
  }

  lemma KeptWithOne(calls: seq<Call>, t: int, allowed: seq<int>, w: seq<int>, n: nat, x: int)
    requires KeptFrom(calls, t, allowed, w, n)
    ensures KeptFrom(calls, t, allowed + [x], w + [x], n)
  {
    assert allowed[n..] + [x] == (allowed + [x])[n..];
    assert forall m | 0 <= m < n :: (allowed + [x])[m] == allowed[m];
  }

  lemma KeptStays(calls: seq<Call>, c: Call, t: int, allowed: seq<int>, w: seq<int>, n: nat)
    requires KeptFrom(calls, t, allowed, w, n)
    ensures KeptFrom(calls + [c], t, allowed, w, n)
  {
    forall m | 0 <= m < n
      ensures LeftBehind(calls + [c], t, allowed[m])
    {
      LeftBehindStays(calls, c, t, allowed[m]);
    }
  }

  lemma KeptAfterCall(max: int, calls: seq<Call>, c: Call, t: int, m: nat) returns (n: nat)
    requires KeptFrom(calls, t, Allowed(max, calls, t), Window(After(max, calls), t), m)
    ensures KeptFrom(calls + [c], t, Allowed(max, calls + [c], t), Window(After(max, calls + [c]), t), n)
  {
    OneMoreCall(max, calls, c, t);
    if c.target == t {
      n := KeptAfterPop(max, calls, c, m);
      KeptWithOne(calls + [c], t, Allowed(max, calls, t), Popped(After(max, calls), c), n, c.now);
    } else {
      n := m;
      KeptStays(calls, c, t, Allowed(max, calls, t), Window(After(max, calls), t), m);
    }
  }

  // ---- The bound ----

  predicate Within(x: int, z: int) {
    x - MINUTE <= z <= x + MINUTE
  }

  // At calls i < k < j for t the clock leaves a reading more than a minute behind and is then
  // again within a minute of it.
  predicate BackAt(calls: seq<Call>, t: int, i: int, k: int, j: int) {
    && 0 <= i < k < j < |calls| && calls[i].target == t && calls[k].target == t && calls[j].target == t
    && calls[i].now < calls[k].now - MINUTE && Within(calls[i].now, calls[j].now)
  }

  ghost predicate ComesBack(calls: seq<Call>, t: int) {
    exists i, k, j :: BackAt(calls, t, i, k, j)
  }

  lemma {:induction false} CountConcat(g: seq<int>, h: seq<int>, a: int, b: int)
    ensures CountIn(g + h, a, b) == CountIn(g, a, b) + CountIn(h, a, b)
  {
    if g == [] {
      assert g + h == h;
    } else {
      assert (g + h)[1..] == g[1..] + h && (g + h)[0] == g[0];
      CountConcat(g[1..], h, a, b);
    }
  }

  lemma {:induction false} CountBounds(h: seq<int>, a: int, b: int)
    ensures CountIn(h, a, b) <= |h|
    ensures (forall i | 0 <= i < |h| :: !(a <= h[i] <= b)) ==> CountIn(h, a, b) == 0
  {
    if h != [] { CountBounds(h[1..], a, b); }
  }

  // At an allowed call in [a, a + MINUTE] fewer than max allowed readings lie there already.
  lemma RoomInMinute(max: nat, calls: seq<Call>, c: Call, a: int)
    requires !ComesBack(calls + [c], c.target) && Decision(After(max, calls), max, c) && a <= c.now <= a + MINUTE
    ensures CountIn(Allowed(max, calls, c.target), a, a + MINUTE) < max
  {
    var t, allowed := c.target, Allowed(max, calls, c.target);
    var m := WindowIsSuffix(max, calls, t);
    var n := KeptAfterPop(max, calls, c, m);
    var front, w := allowed[..n], allowed[n..];
    forall i | 0 <= i < |front|
      ensures !(a <= front[i] <= a + MINUTE)
    {
      assert front[i] == allowed[i] && LeftBehind(calls + [c], t, allowed[i]);
      NotInMinute(calls, c, allowed[i], a);
    }
    assert allowed == front + w;
    CountConcat(front, w, a, a + MINUTE);
    CountBounds(front, a, a + MINUTE);
    CountBounds(w, a, a + MINUTE);
  }

  lemma NotInMinute(calls: seq<Call>, c: Call, x: int, a: int)
    requires !ComesBack(calls + [c], c.target) && LeftBehind(calls + [c], c.target, x) && a <= c.now <= a + MINUTE
    ensures !(a <= x <= a + MINUTE)
  {
    var i, k :| Passed(calls + [c], c.target, x, i, k);
    assert !BackAt(calls + [c], c.target, i, k, |calls|);
  }

  lemma ComesBackStays(calls: seq<Call>, c: Call, t: int)
    requires ComesBack(calls, t)
    ensures ComesBack(calls + [c], t)
  {
    var i, k, j :| BackAt(calls, t, i, k, j);
    assert BackAt(calls + [c], t, i, k, j);
  }

  // In a run whose clock does not come back, no closed minute holds more than max alerts of
  // one target that the limiter let through.
  lemma {:induction false} NoMinuteExceedsMax(max: nat, calls: seq<Call>, t: int, a: int)
    requires !ComesBack(calls, t)
    ensures CountIn(Allowed(max, calls, t), a, a + MINUTE) <= max
    decreases |calls|
  {
    if calls != [] {
      var init, c := calls[..|calls| - 1], calls[|calls| - 1];
      assert calls == init + [c];
      if ComesBack(init, t) { ComesBackStays(init, c, t); }
      NoMinuteExceedsMax(max, init, t, a);
      OneMoreCall(max, init, c, t);
      CountAppend(Allowed(max, init, t), c.now, a, a + MINUTE);
      if c.target == t && Decision(After(max, init), max, c) && a <= c.now <= a + MINUTE {
        RoomInMinute(max, init, c, a);
      }
    }
  }

  // A clock that does not go back does not come back.
  lemma OrderedNeverComesBack(calls: seq<Call>, t: int)
    requires ClockOrdered(calls)
    ensures !ComesBack(calls, t)
  {
  }

  // ---- Clocks that do ----

  // Two calls at x, one more than a minute later, one back within a minute of x.
  function ReturnRun(t: int, x: int, y: int, z: int): seq<Call> {
    [Call(t, x)] + [Call(t, x)] + [Call(t, y)] + [Call(t, z)]
  }

  lemma AllowedNext(calls: seq<Call>, c: Call, kept: seq<int>)
    requires Popped(After(2, calls), c) == kept && |kept| < 2
    ensures Window(After(2, calls + [c]), c.target) == kept + [c.now]
    ensures Allowed(2, calls + [c], c.target) == Allowed(2, calls, c.target) + [c.now]
  {
    OneMoreCall(2, calls, c, c.target);
  }

  lemma PopBoth(x: int, cutoff: int)
    requires x < cutoff
    ensures PopOld([] + [x] + [x], cutoff) == []
  {
    var w := [] + [x] + [x];
    assert w[1..] == [x] && w[1..][1..] == [];
    assert PopOld(w[1..], cutoff) == PopOld([], cutoff);
  }

  lemma TwoAllowed(t: int, x: int)
    ensures var two := [Call(t, x)] + [Call(t, x)];
            Window(After(2, two), t) == [] + [x] + [x] && Allowed(2, two, t) == [] + [x] + [x]
  {
    AllowedNext([], Call(t, x), []);
    assert [] + [Call(t, x)] == [Call(t, x)];
    AllowedNext([Call(t, x)], Call(t, x), [] + [x]);
  }

  // All four are allowed, where two may be in a minute.
  lemma ReturnRunAllowed(t: int, x: int, y: int, z: int)
    requires x < y - MINUTE && Within(x, z)
    ensures Allowed(2, ReturnRun(t, x, y, z), t) == [x, x, y, z]
  {
    TwoAllowed(t, x);
    PopBoth(x, y - MINUTE);
    AllowedNext([Call(t, x)] + [Call(t, x)], Call(t, y), []);
    AllowedNext([Call(t, x)] + [Call(t, x)] + [Call(t, y)], Call(t, z), [] + [y]);
    assert [] + [x] + [x] + [y] + [z] == [x, x, y, z];
  }

  lemma ReturnRunExceedsMax(t: int, x: int, y: int, z: int) returns (a: int)
    requires x < y - MINUTE && Within(x, z)
    ensures CountIn(Allowed(2, ReturnRun(t, x, y, z), t), a, a + MINUTE) == 3
  {
    a := if x <= z then x else z;
    ReturnRunAllowed(t, x, y, z);
    CountAppend([x, x, y], z, a, a + MINUTE);
    CountAppend([x, x], y, a, a + MINUTE);
    CountAppend([x], x, a, a + MINUTE);
    CountAppend([], x, a, a + MINUTE);
    assert [x, x, y] + [z] == [x, x, y, z] && [x, x] + [y] == [x, x, y] && [x] + [x] == [x, x] && [] + [x] == [x];
  }

  // ---- Exactly which clocks keep the bound ----

  // Each call reads the clock at or after the reading of the call before it.
  ghost predicate DrawnFrom(calls: seq<Call>, clock: seq<int>, pos: seq<int>) {
    && |pos| == |calls|
    && (forall i | 0 <= i < |pos| :: 0 <= pos[i] < |clock| && calls[i].now == clock[pos[i]])
    && (forall i, j | 0 <= i < j < |pos| :: pos[i] <= pos[j])
  }

  predicate ReturnsAt(clock: seq<int>, i: int, k: int, j: int) {
    0 <= i < k < j < |clock| && clock[i] < clock[k] - MINUTE && Within(clock[i], clock[j])
  }

  ghost predicate ClockReturns(clock: seq<int>) {
    exists i, k, j :: ReturnsAt(clock, i, k, j)
  }

  // At most max alerts of t pass in the closed minute from a.
  ghost predicate MinuteWithinMax(max: nat, calls: seq<Call>, t: int, a: int) {
    CountIn(Allowed(max, calls, t), a, a + MINUTE) <= max
  }

  ghost predicate KeepsBound(calls: seq<Call>) {
    forall max: nat, t: int, a: int :: MinuteWithinMax(max, calls, t, a)
  }

  lemma DrawnComesBack(calls: seq<Call>, clock: seq<int>, pos: seq<int>, t: int)
    requires DrawnFrom(calls, clock, pos) && ComesBack(calls, t)
    ensures ClockReturns(clock)
  {
    var i, k, j :| BackAt(calls, t, i, k, j);
    assert pos[i] <= pos[k] && pos[k] <= pos[j];
    assert ReturnsAt(clock, pos[i], pos[k], pos[j]);
  }

  lemma SteadyClockKeepsBound(calls: seq<Call>, clock: seq<int>, pos: seq<int>)
    requires DrawnFrom(calls, clock, pos) && !ClockReturns(clock)
    ensures KeepsBound(calls)
  {
    forall max: nat, t: int, a: int
      ensures MinuteWithinMax(max, calls, t, a)
    {
      if ComesBack(calls, t) { DrawnComesBack(calls, clock, pos, t); }
      NoMinuteExceedsMax(max, calls, t, a);
    }
  }

  lemma ReturnRunDrawn(clock: seq<int>, i: int, k: int, j: int)
    requires ReturnsAt(clock, i, k, j)
    ensures DrawnFrom(ReturnRun(0, clock[i], clock[k], clock[j]), clock, [i, i, k, j])
  {
  }

  lemma ReturningClockBreaksBound(clock: seq<int>) returns (calls: seq<Call>, pos: seq<int>)
    requires ClockReturns(clock)
    ensures DrawnFrom(calls, clock, pos) && !KeepsBound(calls)
  {
    var i, k, j :| ReturnsAt(clock, i, k, j);
    calls, pos := ReturnRun(0, clock[i], clock[k], clock[j]), [i, i, k, j];
    ReturnRunDrawn(clock, i, k, j);
    var a := ReturnRunExceedsMax(0, clock[i], clock[k], clock[j]);
    assert !MinuteWithinMax(2, calls, 0, a);
  }

  // Given the readings of a clock, every run of calls that read it keeps the bound, for every
  // maximum, target and minute, if and only if the clock never returns to within a minute of
  // a reading that it had left more than a minute behind.
  lemma BoundIffClockNeverReturns(clock: seq<int>)
    ensures (forall calls, pos | DrawnFrom(calls, clock, pos) :: KeepsBound(calls)) <==> !ClockReturns(clock)
  {
    if ClockReturns(clock) {
      var calls, pos := ReturningClockBreaksBound(clock);
    } else {
      forall calls, pos | DrawnFrom(calls, clock, pos)
        ensures KeepsBound(calls)
      {
        SteadyClockKeepsBound(calls, clock, pos);
      }
    }
  }
}
