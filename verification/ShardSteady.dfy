/** Dynamic sharding with an agreed view: every collector computes the same allocation
    and passes its own slice of it (collector/src/shard_manager.py, _reconcile_dynamic). */
module ShardSteady {
  import opened Common
  import opened ShardAlloc
  import opened ShardLeases
  import opened ShardFleet

  // The fresh leases are exactly the allocation.
  ghost predicate Converged(l: Table, a: Slices, cut: int) {
    && (forall c | c in a :: OwnedFresh(l, c, cut) == a[c])
    && (forall t | t in l && l[t].renewed >= cut :: l[t].owner in a)
  }

  // Every slice was renewed no earlier than `last` says.
  ghost predicate RenewedSince(l: Table, a: Slices, last: map<CollectorId, int>) {
    && last.Keys == a.Keys
    && (forall c, t | c in a && t in a[c] :: t in l && l[t].owner == c && l[t].renewed >= last[c])
  }

  // Each step is a pass by a live collector with its own slice; clocks do not go back;
  // at every pass each collector's last pass is at most one TTL old.
  ghost predicate SteadyRun(steps: seq<Step>, a: Slices, cap: int, last: map<CollectorId, int>, clock: int, ttl: nat)
    requires last.Keys == a.Keys
    decreases |steps|
  {
    steps != [] ==>
    && steps[0].Dynamic? && steps[0].c in a && steps[0].limit == cap
    && steps[0].mine == a[steps[0].c]
    && clock <= steps[0].now
    && (forall d | d in last :: steps[0].now - last[d] <= ttl)
    && SteadyRun(steps[1..], a, cap, last[steps[0].c := steps[0].now], steps[0].now, ttl)
  }

  // Under a converged table the caller's pass finds no orphan it has room for.
  lemma NoRoomForOrphans(score: Score, l: Table, a: Slices, enabled: set<int>, live: set<CollectorId>, cap: int,
                         cut: int, c: CollectorId)
    requires Stable(score, a, enabled, live, cap) && Converged(l, a, cut) && c in a
    ensures Capacity(cap, |OwnedFresh(l, c, cut)|) == 0 || Orphans(l, enabled, cut) == {}
  {
    if Orphans(l, enabled, cut) != {} {
      var t := Pick(Orphans(l, enabled, cut));
      assert forall d | d in a && t in a[d] :: t in OwnedFresh(l, d, cut);
      assert t in enabled - Assigned(a, enabled);
      UnassignedMeansFull(score, a, enabled, live, cap, t);
    }
  }

  lemma NothingToAdopt(l: Table, enabled: set<int>, c: CollectorId, k: nat, now: int, cut: int)
    requires k == 0 || Orphans(l, enabled, cut) == {}
    ensures Adopted(l, enabled, c, k, now, cut, true) == l
  {
    assert FirstIds(Orphans(l, enabled, cut), k) == {};
    assert Claimed(l, c, {}, now, cut, true) == l;
  }

  // The rows of enabled targets, with those of the slice renewed by c.
  ghost function SliceRenewed(l: Table, enabled: set<int>, c: CollectorId, slice: set<int>, now: int): Table {
    map t | t in l && t in enabled :: if t in slice then Lease(c, now) else l[t]
  }

  lemma RenewalConverges(l: Table, a: Slices, enabled: set<int>, now: int, cut: int, c: CollectorId)
    requires Converged(l, a, cut) && c in a && cut <= now && forall d | d in a :: a[d] <= enabled
    ensures Converged(SliceRenewed(l, enabled, c, a[c], now), a, cut)
  {
    var r := SliceRenewed(l, enabled, c, a[c], now);
    assert forall t | t in a[c] :: t in OwnedFresh(l, c, cut);
    forall d | d in a
      ensures OwnedFresh(r, d, cut) == a[d]
    {
      assert forall t | t in a[d] :: t in OwnedFresh(l, d, cut);
      assert forall t | t in OwnedFresh(r, d, cut) :: t in OwnedFresh(l, d, cut);
    }
  }

  // The pass of c in a converged table renews c's slice and does nothing else to the
  // rows of enabled targets.
  lemma SteadyPass(score: Score, l: Table, a: Slices, enabled: set<int>, live: set<CollectorId>, cap: int,
                   now: int, cut: int, c: CollectorId)
    requires Stable(score, a, enabled, live, cap) && Converged(l, a, cut) && c in a && cut <= now
    ensures DynamicPass(l, enabled, c, a[c], cap, now, cut) == SliceRenewed(l, enabled, c, a[c], now)
    ensures Converged(DynamicPass(l, enabled, c, a[c], cap, now, cut), a, cut)
  {
    var s := SliceClaimed(l, enabled, c, a[c], now, cut);
    assert forall t | t in a[c] :: t in OwnedFresh(l, c, cut);
    assert s == SliceRenewed(l, enabled, c, a[c], now);
    RenewalConverges(l, a, enabled, now, cut, c);
    NoRoomForOrphans(score, s, a, enabled, live, cap, cut, c);
    NothingToAdopt(s, enabled, c, Capacity(cap, |OwnedFresh(s, c, cut)|), now, cut);
  }

  // Time passing changes nothing while every collector is within one TTL of its last pass.
  lemma StillConverged(l: Table, a: Slices, last: map<CollectorId, int>, cut: int, later: int)
    requires Converged(l, a, cut) && RenewedSince(l, a, last) && cut <= later
    requires forall d | d in last :: last[d] >= later
    ensures Converged(l, a, later)
  {
    forall c | c in a
      ensures OwnedFresh(l, c, later) == a[c]
    {
      assert forall t | t in OwnedFresh(l, c, later) :: t in OwnedFresh(l, c, cut);
      assert forall t | t in a[c] :: t in OwnedFresh(l, c, later);
    }
  }

  lemma RenewedAfterPass(l: Table, a: Slices, last: map<CollectorId, int>, enabled: set<int>, c: CollectorId, now: int)
    requires RenewedSince(l, a, last) && Disjoint(a) && c in a && forall d | d in a :: a[d] <= enabled
    ensures RenewedSince(SliceRenewed(l, enabled, c, a[c], now), a, last[c := now])
  {
  }

  lemma SteadyStep(score: Score, s: Fleet, a: Slices, live: set<CollectorId>, cap: int, ttl: nat,
                   last: map<CollectorId, int>, clock: int, e: Step)
    requires Stable(score, a, s.enabled, live, cap)
    requires Converged(s.leases, a, Cutoff(clock, ttl)) && RenewedSince(s.leases, a, last)
    requires SteadyRun([e], a, cap, last, clock, ttl)
    ensures var r := Apply(s, e, ttl);
            && r.enabled == s.enabled
            && Converged(r.leases, a, Cutoff(e.now, ttl))
            && RenewedSince(r.leases, a, last[e.c := e.now])
  {
    var cut := Cutoff(e.now, ttl);
    StillConverged(s.leases, a, last, Cutoff(clock, ttl), cut);
    SteadyPass(score, s.leases, a, s.enabled, live, cap, e.now, cut, e.c);
    RenewedAfterPass(s.leases, a, last, s.enabled, e.c, e.now);
  }

  // The allocation is a fixed point: from a converged table, every run in which each
  // collector keeps passing within the TTL leaves the fresh leases equal to the
  // allocation, also when the fleet is under-provisioned.
  lemma {:induction false} SteadyState(score: Score, s: Fleet, steps: seq<Step>, a: Slices, live: set<CollectorId>,
                                       cap: int, ttl: nat, last: map<CollectorId, int>, clock: int)
    requires Stable(score, a, s.enabled, live, cap)
    requires Converged(s.leases, a, Cutoff(clock, ttl)) && RenewedSince(s.leases, a, last)
    requires SteadyRun(steps, a, cap, last, clock, ttl)
    ensures Converged(Run(s, steps, ttl).leases, a, Cutoff(LastClock(steps, clock), ttl))
    ensures Run(s, steps, ttl).enabled == s.enabled
    decreases |steps|
  {
    if steps != [] {
      var e := steps[0];
      SteadyStep(score, s, a, live, cap, ttl, last, clock, e);
      SteadyState(score, Apply(s, e, ttl), steps[1..], a, live, cap, ttl, last[e.c := e.now], e.now);
    }
  }

  // So each collector goes on polling exactly its slice.
  lemma SteadyPolling(score: Score, s: Fleet, steps: seq<Step>, a: Slices, live: set<CollectorId>, cap: int, ttl: nat,
                      last: map<CollectorId, int>, clock: int, c: CollectorId)
    requires Stable(score, a, s.enabled, live, cap)
    requires Converged(s.leases, a, Cutoff(clock, ttl)) && RenewedSince(s.leases, a, last)
    requires SteadyRun(steps, a, cap, last, clock, ttl) && c in a
    ensures Polled(Run(s, steps, ttl).leases, s.enabled, c, Cutoff(LastClock(steps, clock), ttl)) == a[c]
  {
    SteadyState(score, s, steps, a, live, cap, ttl, last, clock);
  }

  // Until the fleet has settled: at the moment of any pass of c, every enabled target of
  // the slice c passes is covered afterwards, so a target allocated to c goes without a
  // fresh lease only strictly between two passes of c.
  lemma {:induction false} UncoveredOnlyBetweenPasses(s: Fleet, steps: seq<Step>, ttl: nat, c: CollectorId, t: int,
                                                      i: nat)
    requires t in s.enabled && i < |steps| && steps[i].Dynamic?
    requires forall k | 0 <= k < |steps| :: !steps[k].SetEnabled?
    requires forall k | 0 <= k < |steps| && steps[k].Dynamic? && steps[k].c == c :: t in steps[k].mine
    requires !Fresh(Run(s, steps[..i + 1], ttl).leases, t, Cutoff(steps[i].now, ttl))
    ensures steps[i].c != c
    decreases |steps|
  {
    var next := Apply(s, steps[0], ttl);
    assert steps[..i + 1][0] == steps[0] && steps[..i + 1][1..] == steps[1..][..i];
    if i == 0 {
      assert Run(s, steps[..1], ttl) == next;
      if steps[0].c == c {
        SliceCovered(s.leases, s.enabled, c, steps[0].mine, steps[0].limit, steps[0].now,
                     Cutoff(steps[0].now, ttl), t);
      }
    } else {
      UncoveredOnlyBetweenPasses(next, steps[1..], ttl, c, t, i - 1);
    }
  }

  predicate DynamicPassOf(e: Step, c: CollectorId) {
    e.Dynamic? && e.c == c
  }

  ghost predicate ClocksInOrder(steps: seq<Step>) {
    forall i, j | 0 <= i <= j < |steps| && steps[i].IsPass() && steps[j].IsPass() :: steps[i].now <= steps[j].now
  }

  ghost predicate NoPassBetween(steps: seq<Step>, c: CollectorId, p: nat, q: nat) {
    forall k | p < k < q && k < |steps| :: !DynamicPassOf(steps[k], c)
  }

  // Two passes of c with none between them are at most gap apart.
  ghost predicate PassesWithin(steps: seq<Step>, c: CollectorId, gap: int) {
    forall p, q | 0 <= p < q < |steps| && DynamicPassOf(steps[p], c) && DynamicPassOf(steps[q], c)
                  && NoPassBetween(steps, c, p, q) ::
      steps[q].now - steps[p].now <= gap
  }

  // The enabled set does not change, and every slice c passes contains t.
  ghost predicate AllocatedTo(steps: seq<Step>, c: CollectorId, t: int) {
    && (forall k | 0 <= k < |steps| :: !steps[k].SetEnabled?)
    && (forall k | 0 <= k < |steps| && steps[k].Dynamic? && steps[k].c == c :: t in steps[k].mine)
  }

  // An instant at which exactly the first n steps have been taken.
  ghost predicate Moment(steps: seq<Step>, n: nat, at: int) {
    && n <= |steps|
    && (forall k | 0 <= k < n && steps[k].IsPass() :: steps[k].now <= at)
    && (forall k | n <= k < |steps| && steps[k].IsPass() :: at <= steps[k].now)
  }

  // At such an instant t has no fresh lease.
  ghost predicate Bare(s: Fleet, steps: seq<Step>, ttl: nat, t: int, n: nat, at: int) {
    n <= |steps| && !Fresh(Run(s, steps[..n], ttl).leases, t, Cutoff(at, ttl))
  }

  // t is bare at every instant from x, after m steps, to y, after n steps.
  ghost predicate BareThroughout(s: Fleet, steps: seq<Step>, ttl: nat, t: int, m: nat, x: int, n: nat, y: int) {
    && m <= n && x <= y && Moment(steps, m, x) && Moment(steps, n, y)
    && (forall k, at | m <= k <= n && x <= at <= y && Moment(steps, k, at) :: Bare(s, steps, ttl, t, k, at))
  }

  // The collector t is allocated to does not pass during such a stretch.
  lemma NoPassWhileBare(s: Fleet, steps: seq<Step>, ttl: nat, c: CollectorId, t: int,
                        m: nat, x: int, n: nat, y: int, k: nat)
    requires t in s.enabled && AllocatedTo(steps, c, t) && ClocksInOrder(steps)
    requires BareThroughout(s, steps, ttl, t, m, x, n, y) && m <= k < n
    ensures !DynamicPassOf(steps[k], c)
  {
    if DynamicPassOf(steps[k], c) {
      assert steps[k].IsPass();
      var at, next := steps[k].now, k + 1;
      assert Moment(steps, next, at);
      assert Bare(s, steps, ttl, t, next, at);
      UncoveredOnlyBetweenPasses(s, steps, ttl, c, t, k);
    }
  }

  // Whatever the peers do, a target allocated to c is without a fresh lease for at most the
  // gap between two passes of c at a stretch.
  lemma {:induction false} BareStretchBounded(s: Fleet, steps: seq<Step>, ttl: nat, c: CollectorId, t: int, gap: int,
                                              p: nat, m: nat, x: int, n: nat, y: int, q: nat)
    requires t in s.enabled && AllocatedTo(steps, c, t) && ClocksInOrder(steps) && PassesWithin(steps, c, gap)
    requires BareThroughout(s, steps, ttl, t, m, x, n, y)
    requires p < m && n <= q < |steps| && DynamicPassOf(steps[p], c) && DynamicPassOf(steps[q], c)
    ensures y - x <= gap
    decreases q - p
  {
    if NoPassBetween(steps, c, p, q) {
      assert steps[p].IsPass() && steps[q].IsPass();
    } else {
      var k :| p < k < q && DynamicPassOf(steps[k], c);
      if k < m {
        BareStretchBounded(s, steps, ttl, c, t, gap, k, m, x, n, y, q);
      } else if k >= n {
        BareStretchBounded(s, steps, ttl, c, t, gap, p, m, x, n, y, k);
      } else {
        NoPassWhileBare(s, steps, ttl, c, t, m, x, n, y, k);
      }
    }
  }

  // ---- Cold start ----
  //
  // Does one round of passes over an empty table reach the allocation? Not always: the
  // orphan sweep of a collector with room to spare can take a target that a peer is
  // about to claim. The theorem says exactly when every order of passes gets there.

  ghost predicate IsOrder(order: seq<CollectorId>, live: set<CollectorId>) {
    Elements(order) == live && forall i, j | 0 <= i < j < |order| :: order[i] != order[j]
  }

  ghost function Round(order: seq<CollectorId>, a: Slices, cap: int, now: int): seq<Step>
    requires Elements(order) <= a.Keys
  {
    if order == [] then []
    else
      assert order[0] in Elements(order) && Elements(order[1..]) <= Elements(order);
      [Dynamic(order[0], a[order[0]], cap, now)] + Round(order[1..], a, cap, now)
  }

  // A collector below the cap has no peer with a nonempty slice.
  ghost predicate NoSpareRoom(a: Slices, cap: int) {
    forall c, d | c in a && d in a && c != d :: |a[c]| < cap ==> a[d] == {}
  }

  // The leases are the slices of the collectors that have passed.
  ghost predicate Placed(l: Table, a: Slices, done: set<CollectorId>, now: int) {
    && (forall c, t | c in done && c in a && t in a[c] :: t in l && l[t] == Lease(c, now))
    && (forall t | t in l :: l[t].owner in done && l[t].owner in a && t in a[l[t].owner] && l[t].renewed == now)
  }

  lemma PlacedOwned(l: Table, a: Slices, done: set<CollectorId>, now: int, cut: int, c: CollectorId)
    requires Placed(l, a, done, now) && cut <= now && c in a && c in done
    ensures OwnedFresh(l, c, cut) == a[c]
  {
    assert forall t | t in a[c] :: t in OwnedFresh(l, c, cut);
    assert forall t | t in OwnedFresh(l, c, cut) :: t in a[l[t].owner];
  }

  lemma FirstClaim(score: Score, l: Table, a: Slices, enabled: set<int>, live: set<CollectorId>, cap: int,
                   now: int, cut: int, done: set<CollectorId>, c: CollectorId)
    requires Stable(score, a, enabled, live, cap) && Placed(l, a, done, now) && cut <= now
    requires c in a && c !in done
    ensures Placed(SliceClaimed(l, enabled, c, a[c], now, cut), a, done + {c}, now)
    ensures OwnedFresh(SliceClaimed(l, enabled, c, a[c], now, cut), c, cut) == a[c]
  {
    var s := SliceClaimed(l, enabled, c, a[c], now, cut);
    forall t | t in a[c]
      ensures t in s && s[t] == Lease(c, now)
    {
      assert t !in l;
    }
    PlacedOwned(s, a, done + {c}, now, cut, c);
  }

  lemma PlacedPass(score: Score, l: Table, a: Slices, enabled: set<int>, live: set<CollectorId>, cap: int,
                   now: int, cut: int, done: set<CollectorId>, c: CollectorId)
    requires Stable(score, a, enabled, live, cap) && NoSpareRoom(a, cap)
    requires Placed(l, a, done, now) && cut <= now && c in a && c !in done
    ensures Placed(DynamicPass(l, enabled, c, a[c], cap, now, cut), a, done + {c}, now)
  {
    FirstClaim(score, l, a, enabled, live, cap, now, cut, done, c);
    var s := SliceClaimed(l, enabled, c, a[c], now, cut);
    if |a[c]| < cap {
      forall t | t in enabled
        ensures Fresh(s, t, cut)
      {
        if t in enabled - Assigned(a, enabled) { UnassignedMeansFull(score, a, enabled, live, cap, t); }
        var d :| d in a && t in a[d];
        assert d == c;
      }
      assert Orphans(s, enabled, cut) == {};
    }
    NothingToAdopt(s, enabled, c, Capacity(cap, |OwnedFresh(s, c, cut)|), now, cut);
  }

  lemma OrderTail(order: seq<CollectorId>, done: set<CollectorId>)
    requires order != [] && IsOrder(order, Elements(order)) && Elements(order) !! done
    ensures var c, rest := order[0], order[1..];
            && IsOrder(rest, Elements(rest)) && Elements(order) == Elements(rest) + {c}
            && Elements(rest) !! done + {c}
            && done + {c} + Elements(rest) == done + Elements(order)
  {
    var c, rest := order[0], order[1..];
    assert order == [c] + rest;
    ElementsConcat([c], rest);
    assert c !in rest;
  }

  lemma {:induction false} RoundPlaces(score: Score, s: Fleet, order: seq<CollectorId>, a: Slices,
                                       live: set<CollectorId>, cap: int, now: int, ttl: nat, done: set<CollectorId>)
    requires Stable(score, a, s.enabled, live, cap) && NoSpareRoom(a, cap) && Placed(s.leases, a, done, now)
    requires IsOrder(order, Elements(order)) && Elements(order) <= live && Elements(order) !! done
    ensures Placed(Run(s, Round(order, a, cap, now), ttl).leases, a, done + Elements(order), now)
    decreases |order|
  {
    if order == [] {
      assert done + Elements(order) == done;
    } else {
      var c, rest := order[0], order[1..];
      OrderTail(order, done);
      PlacedPass(score, s.leases, a, s.enabled, live, cap, now, Cutoff(now, ttl), done, c);
      var next := Apply(s, Dynamic(c, a[c], cap, now), ttl);
      RoundPlaces(score, next, rest, a, live, cap, now, ttl, done + {c});
      assert Round(order, a, cap, now)[1..] == Round(rest, a, cap, now);
    }
  }

  lemma {:induction false} RoundNoLapse(s: Fleet, order: seq<CollectorId>, a: Slices, cap: int, now: int, ttl: nat)
    requires Elements(order) <= a.Keys
    ensures NoLapse(s, Round(order, a, cap, now), now, ttl)
    ensures LastClock(Round(order, a, cap, now), now) == now
    decreases |order|
  {
    if order != [] {
      assert order[0] in Elements(order) && Elements(order[1..]) <= Elements(order);
      var steps := Round(order, a, cap, now);
      assert steps[1..] == Round(order[1..], a, cap, now);
      RoundNoLapse(Apply(s, steps[0], ttl), order[1..], a, cap, now, ttl);
    }
  }

  // With spare room and a nonempty peer slice, the caller's first pass adopts a target
  // outside its slice.
  lemma SpareRoomAdopts(score: Score, a: Slices, enabled: set<int>, live: set<CollectorId>, cap: int,
                        now: int, cut: int, c: CollectorId, d: CollectorId) returns (t: int)
    requires Stable(score, a, enabled, live, cap) && cut <= now
    requires c in a && d in a && c != d && |a[c]| < cap && a[d] != {}
    ensures t in enabled && t !in a[c]
    ensures t in DynamicPass(map[], enabled, c, a[c], cap, now, cut)
    ensures DynamicPass(map[], enabled, c, a[c], cap, now, cut)[t] == Lease(c, now)
  {
    FirstClaim(score, map[], a, enabled, live, cap, now, cut, {}, c);
    var s := SliceClaimed(map[], enabled, c, a[c], now, cut);
    var orphans := Orphans(s, enabled, cut);
    var x := Pick(a[d]);
    assert x in orphans;
    t := Least(orphans);
    assert Below(orphans, t) == {};
    assert t in FirstIds(orphans, Capacity(cap, |OwnedFresh(s, c, cut)|));
  }

  ghost function ToOrder(s: set<CollectorId>): (r: seq<CollectorId>)
    ensures IsOrder(r, s)
  {
    if s == {} then []
    else
      var c := Pick(s);
      var rest := ToOrder(s - {c});
      assert forall i | 0 <= i < |rest| :: rest[i] in Elements(rest);
      ElementsConcat([c], rest);
      [c] + rest
  }

  lemma OrderFrom(live: set<CollectorId>, c: CollectorId) returns (order: seq<CollectorId>)
    requires c in live
    ensures IsOrder(order, live) && order != [] && order[0] == c
  {
    var rest := ToOrder(live - {c});
    order := [c] + rest;
    ElementsConcat([c], rest);
    assert forall i | 0 <= i < |rest| :: rest[i] in Elements(rest);
  }

  ghost predicate RoundConverges(a: Slices, enabled: set<int>, cap: int, now: int, ttl: nat, order: seq<CollectorId>)
    requires Elements(order) <= a.Keys
  {
    Converged(Run(Fleet(map[], enabled), Round(order, a, cap, now), ttl).leases, a, Cutoff(now, ttl))
  }

  lemma SpareRoomDiverges(score: Score, a: Slices, enabled: set<int>, live: set<CollectorId>, cap: int,
                          now: int, ttl: nat, c: CollectorId, d: CollectorId) returns (order: seq<CollectorId>)
    requires Stable(score, a, enabled, live, cap)
    requires c in a && d in a && c != d && |a[c]| < cap && a[d] != {}
    ensures IsOrder(order, live) && !RoundConverges(a, enabled, cap, now, ttl, order)
  {
    order := OrderFrom(live, c);
    var rest := order[1..];
    OrderTail(order, {});
    var start := Fleet(map[], enabled);
    var t := SpareRoomAdopts(score, a, enabled, live, cap, now, Cutoff(now, ttl), c, d);
    var next := Apply(start, Dynamic(c, a[c], cap, now), ttl);
    assert Round(order, a, cap, now)[1..] == Round(rest, a, cap, now);
    RoundNoLapse(next, rest, a, cap, now, ttl);
    CoveragePersists(next, Round(rest, a, cap, now), now, ttl, t);
    assert t in OwnedFresh(Run(start, Round(order, a, cap, now), ttl).leases, c, Cutoff(now, ttl));
  }

  // From an empty table, every order of one pass per collector ends in the allocation
  // if and only if no collector has spare room beside a peer's nonempty slice.
  lemma ColdStartConverges(score: Score, a: Slices, enabled: set<int>, live: set<CollectorId>, cap: int,
                           now: int, ttl: nat)
    requires Stable(score, a, enabled, live, cap)
    ensures (forall order | IsOrder(order, live) :: RoundConverges(a, enabled, cap, now, ttl, order))
            <==> NoSpareRoom(a, cap)
  {
    if NoSpareRoom(a, cap) {
      forall order | IsOrder(order, live)
        ensures RoundConverges(a, enabled, cap, now, ttl, order)
      {
        RoundPlaces(score, Fleet(map[], enabled), order, a, live, cap, now, ttl, {});
        var l := Run(Fleet(map[], enabled), Round(order, a, cap, now), ttl).leases;
        assert {} + Elements(order) == live;
        forall c | c in a
          ensures OwnedFresh(l, c, Cutoff(now, ttl)) == a[c]
        {
          PlacedOwned(l, a, live, now, Cutoff(now, ttl), c);
        }
      }
    } else {
      var c, d :| c in a && d in a && c != d && |a[c]| < cap && a[d] != {};
      var order := SpareRoomDiverges(score, a, enabled, live, cap, now, ttl, c, d);
    }
  }

  // ---- The same in counts ----

  // A collector below the cap leaves the group below its capacity.
  lemma BelowCapacity(a: Slices, group: set<CollectorId>, targets: set<int>, cap: nat, c: CollectorId)
    requires Capped(a, targets, cap) && group <= a.Keys && c in group && |a[c]| < cap
    ensures |HeldBy(a, group, targets)| < cap * |group|
  {
    var rest := group - {c};
    HeldByCard(a, rest, targets, cap);
    HeldByOneMore(a, rest, targets, c);
    assert rest + {c} == group;
    MulSucc(cap, |rest|, |group|);
  }

  lemma HeldIsAssigned(score: Score, a: Slices, targets: set<int>, live: set<CollectorId>, cap: int)
    requires Stable(score, a, targets, live, cap)
    ensures Capped(a, targets, Room(cap)) && live == a.Keys
    ensures HeldBy(a, live, targets) == Assigned(a, targets) && |Assigned(a, targets)| <= |targets|
  {
    SubsetCard(Assigned(a, targets), targets);
  }

  // If the caps add up to no more than the targets, every collector is at the cap.
  lemma AllFullIfScarce(score: Score, a: Slices, targets: set<int>, live: set<CollectorId>, cap: nat, c: CollectorId)
    requires Stable(score, a, targets, live, cap) && cap * |live| <= |targets| && c in live
    ensures |a[c]| == cap
  {
    HeldIsAssigned(score, a, targets, live, cap);
    AssignedCount(score, a, targets, live, cap);
    if |a[c]| < cap { BelowCapacity(a, live, targets, cap, c); }
  }

  // If they add up to more, and no one collector could hold all, somebody has spare room
  // beside a peer that has targets.
  lemma SpareRoomIfAmple(score: Score, a: Slices, targets: set<int>, live: set<CollectorId>, cap: nat)
    requires Stable(score, a, targets, live, cap) && cap * |live| > |targets| && cap <= |targets|
    ensures !NoSpareRoom(a, cap)
  {
    HeldIsAssigned(score, a, targets, live, cap);
    HeldByCard(a, live, targets, cap);
    assert !AllFull(a, live, cap);
    var c :| c in live && |a[c]| != cap;
    if NoSpareRoom(a, cap) {
      forall t | t in targets
        ensures t in a[c]
      {
        if t in targets - Assigned(a, targets) { UnassignedMeansFull(score, a, targets, live, cap, t); }
        var d :| d in a && t in a[d];
        assert d == c;
      }
      SubsetCard(targets, a[c]);
    }
  }

  // For a cap up to the number of targets, there is no spare room exactly when the caps add
  // up to no more than the targets.
  lemma NoSpareRoomIff(score: Score, a: Slices, targets: set<int>, live: set<CollectorId>, cap: nat)
    requires Stable(score, a, targets, live, cap) && cap <= |targets|
    ensures NoSpareRoom(a, cap) <==> cap * |live| <= |targets|
  {
    if cap * |live| <= |targets| {
      forall c | c in live
        ensures |a[c]| == cap
      {
        AllFullIfScarce(score, a, targets, live, cap, c);
      }
    } else {
      SpareRoomIfAmple(score, a, targets, live, cap);
    }
  }

  function Times(k: nat, m: nat): nat {
    k * m
  }

  ghost predicate Divides(k: nat, n: nat) {
    exists m: nat :: Times(k, m) == n
  }

  lemma TimesMono(k: nat, m: nat, n: nat)
    requires m <= n
    ensures Times(k, m) <= Times(k, n)
  {
  }

  // The ceiling leaves nothing over exactly when the division does.
  lemma CeilingExact(n: nat, k: nat)
    requires k > 0
    ensures n <= Times(k, CeilDiv(n, k))
    ensures Times(k, CeilDiv(n, k)) <= n <==> Divides(k, n)
  {
    CeilDivIsLeast(n, k, CeilDiv(n, k));
    if m: nat :| Times(k, m) == n {
      CeilDivIsLeast(n, k, m);
      TimesMono(k, CeilDiv(n, k), m);
    }
  }

  lemma EffectiveCapFits(n: nat, k: nat, max: nat)
    requires k > 0
    ensures 0 <= EffectiveCap(n, k, max) <= n
    ensures Times(k, EffectiveCap(n, k, max)) <= n <==> Divides(k, n) || CeilDiv(n, k) > max
  {
    CeilingExact(n, k);
    TimesMono(n, 1, k);
    CeilDivIsLeast(n, k, n);
    CeilDivIsLeast(n, k, max);
  }

  // At the cap the manager computes, a cold start reaches the allocation in every order of
  // first passes if and only if the collectors divide the targets evenly or the fair share
  // exceeds the maximum.
  lemma ColdStartAtEffectiveCap(score: Score, a: Slices, enabled: set<int>, live: set<CollectorId>, max: nat,
                                now: int, ttl: nat)
    requires live != {} && Stable(score, a, enabled, live, EffectiveCap(|enabled|, |live|, max))
    ensures (forall order | IsOrder(order, live) ::
               RoundConverges(a, enabled, EffectiveCap(|enabled|, |live|, max), now, ttl, order))
            <==> Divides(|live|, |enabled|) || CeilDiv(|enabled|, |live|) > max
  {
    var cap := EffectiveCap(|enabled|, |live|, max);
    EffectiveCapFits(|enabled|, |live|, max);
    ColdStartConverges(score, a, enabled, live, cap, now, ttl);
    NoSpareRoomIff(score, a, enabled, live, cap);
    assert cap * |live| == Times(|live|, cap);
  }
}
