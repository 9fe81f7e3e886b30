/** Runs of the lease table: arbitrary interleavings of static passes, dynamic passes,
    releases and changes of the enabled set, by any number of collectors.

    Passes commit one at a time, so a run is a sequence of steps. A dynamic pass carries
    whatever slice its collector computed; unless a theorem says so, slices of different
    collectors may disagree. */
module ShardFleet {
  import opened Common
  import opened ShardAlloc
  import opened ShardLeases

  datatype Fleet = Fleet(leases: Table, enabled: set<int>)

  datatype Step =
    | Static(c: CollectorId, limit: int, now: int)
    | Dynamic(c: CollectorId, mine: set<int>, limit: int, now: int)
    | Release(c: CollectorId)
    | SetEnabled(ids: set<int>)
  {
    predicate IsPass() { Static? || Dynamic? }
  }

  function Apply(s: Fleet, e: Step, ttl: nat): Fleet {
    match e
    case Static(c, limit, now) =>
      s.(leases := StaticPass(s.leases, s.enabled, c, limit, now, Cutoff(now, ttl)))
    case Dynamic(c, mine, limit, now) =>
      s.(leases := DynamicPass(s.leases, s.enabled, c, mine, limit, now, Cutoff(now, ttl)))
    case Release(c) => s.(leases := Released(s.leases, c))
    case SetEnabled(ids) => s.(enabled := ids)
  }

  function Run(s: Fleet, steps: seq<Step>, ttl: nat): Fleet
    decreases |steps|
  {
    if steps == [] then s else Run(Apply(s, steps[0], ttl), steps[1..], ttl)
  }

  lemma PassRowEffect(s: Fleet, e: Step, ttl: nat, t: int)
    requires e.IsPass()
    ensures RowEffect(s.leases, Apply(s, e, ttl).leases, s.enabled, e.c, e.now, Cutoff(e.now, ttl), t)
    ensures Apply(s, e, ttl).enabled == s.enabled
  {
    if e.Static? {
      StaticRowEffect(s.leases, s.enabled, e.c, e.limit, e.now, Cutoff(e.now, ttl), t);
    } else {
      DynamicRowEffect(s.leases, s.enabled, e.c, e.mine, e.limit, e.now, Cutoff(e.now, ttl), t);
    }
  }

  // ---- Lease safety ----

  ghost predicate Owns(s: Fleet, c: CollectorId, t: int) {
    t in s.leases && s.leases[t].owner == c
  }

  // The only ways collector c can lose t in step e: a peer's pass after the last renewal
  // is more than a TTL old, c's own release, or a sweep because t is disabled.
  ghost predicate Loss(s: Fleet, e: Step, ttl: nat, c: CollectorId, t: int) {
    && Owns(s, c, t)
    && (|| (e.IsPass() && e.c != c && t in s.enabled && s.leases[t].renewed < e.now - ttl
            && Owns(Apply(s, e, ttl), e.c, t))
        || e == Release(c)
        || (e.IsPass() && t !in s.enabled && t !in Apply(s, e, ttl).leases))
  }

  lemma StepSafety(s: Fleet, e: Step, ttl: nat, c: CollectorId, t: int)
    requires Owns(s, c, t)
    ensures Owns(Apply(s, e, ttl), c, t) || Loss(s, e, ttl, c, t)
  {
    if e.IsPass() { PassRowEffect(s, e, ttl, t); }
  }

  // A release frees everything the collector had, so that any peer's pass may take it at once,
  // and nothing else.
  lemma ReleaseFrees(s: Fleet, ttl: nat, c: CollectorId, d: CollectorId, t: int)
    ensures var r := Apply(s, Release(c), ttl);
            && !Owns(r, c, t) && r.enabled == s.enabled
            && (Owns(s, c, t) ==> t !in r.leases)
            && (d != c && Owns(s, d, t) ==> Owns(r, d, t) && r.leases[t] == s.leases[t])
  {
  }

  // Over any run: if c no longer owns t at the end, some step of the run took it in one
  // of those three ways while c still owned it.
  lemma {:induction false} LeaseSafety(s: Fleet, steps: seq<Step>, ttl: nat, c: CollectorId, t: int) returns (i: nat)
    requires Owns(s, c, t) && !Owns(Run(s, steps, ttl), c, t)
    ensures i < |steps| && Loss(Run(s, steps[..i], ttl), steps[i], ttl, c, t)
    decreases |steps|
  {
    var next := Apply(s, steps[0], ttl);
    if Owns(next, c, t) {
      var j := LeaseSafety(next, steps[1..], ttl, c, t);
      i := j + 1;
      assert steps[..i][0] == steps[0] && steps[..i][1..] == steps[1..][..j];
    } else {
      StepSafety(s, steps[0], ttl, c, t);
      i := 0;
      assert Run(s, steps[..0], ttl) == s;
    }
  }

  // c renews t: its static pass renews everything it owns, its dynamic pass its slice.
  predicate Renews(e: Step, c: CollectorId, t: int) {
    e.IsPass() && e.c == c && (e.Dynamic? ==> t in e.mine)
  }

  // Clocks do not go back, t stays enabled, c does not release, and whenever a peer
  // passes, c's last renewal of t is at most one TTL old.
  ghost predicate KeptAlive(steps: seq<Step>, c: CollectorId, t: int, last: int, ttl: nat)
    decreases |steps|
  {
    steps == [] ||
    match steps[0]
    case Release(d) => d != c && KeptAlive(steps[1..], c, t, last, ttl)
    case SetEnabled(ids) => t in ids && KeptAlive(steps[1..], c, t, last, ttl)
    case _ =>
      var e := steps[0];
      && last <= e.now
      && (e.c != c ==> e.now - last <= ttl)
      && KeptAlive(steps[1..], c, t, if Renews(e, c, t) then e.now else last, ttl)
  }

  lemma RenewedByPass(s: Fleet, e: Step, ttl: nat, c: CollectorId, t: int)
    requires Owns(s, c, t) && t in s.enabled && Renews(e, c, t)
    ensures Owns(Apply(s, e, ttl), c, t) && Apply(s, e, ttl).leases[t].renewed == e.now
  {
    if e.Dynamic? {
      var mid := SliceClaimed(s.leases, s.enabled, c, e.mine, e.now, Cutoff(e.now, ttl));
      assert mid[t] == Lease(c, e.now);
      AdoptedRow(mid, s.enabled, c, Capacity(e.limit, |OwnedFresh(mid, c, Cutoff(e.now, ttl))|), e.now,
                 Cutoff(e.now, ttl), true, t);
    } else {
      var h := Heartbeat(Swept(s.leases, s.enabled), c, e.now);
      assert h[t] == Lease(c, e.now);
      AdoptedRow(h, s.enabled, c, Capacity(e.limit, |Owned(h, c)|), e.now, Cutoff(e.now, ttl), false, t);
    }
  }

  // A collector that keeps renewing a target within the TTL never loses it, whatever
  // the other collectors do.
  lemma {:induction false} NeverLost(s: Fleet, steps: seq<Step>, ttl: nat, c: CollectorId, t: int, last: int)
    requires Owns(s, c, t) && s.leases[t].renewed >= last && t in s.enabled
    requires KeptAlive(steps, c, t, last, ttl)
    ensures Owns(Run(s, steps, ttl), c, t)
    decreases |steps|
  {
    if steps != [] {
      var e := steps[0];
      var next := Apply(s, e, ttl);
      if Renews(e, c, t) {
        RenewedByPass(s, e, ttl, c, t);
        NeverLost(next, steps[1..], ttl, c, t, e.now);
      } else {
        if e.IsPass() { PassRowEffect(s, e, ttl, t); }
        NeverLost(next, steps[1..], ttl, c, t, last);
      }
    }
  }

  // ---- Orphan coverage by a whole fleet ----

  // Only passes, clocks do not go back, and no lease that was fresh after one pass has
  // gone stale by the time of the next.
  ghost predicate NoLapse(s: Fleet, steps: seq<Step>, clock: int, ttl: nat)
    decreases |steps|
  {
    steps != [] ==>
    && steps[0].IsPass()
    && clock <= steps[0].now
    && StaysFresh(s, Cutoff(clock, ttl), Cutoff(steps[0].now, ttl))
    && NoLapse(Apply(s, steps[0], ttl), steps[1..], steps[0].now, ttl)
  }

  ghost predicate StaysFresh(s: Fleet, cut: int, later: int) {
    forall t | t in s.enabled && Fresh(s.leases, t, cut) :: Fresh(s.leases, t, later)
  }

  // The time of the last step of a run of passes.
  function LastClock(steps: seq<Step>, clock: int): int {
    if steps == [] then clock
    else LastClock(steps[1..], if steps[0].IsPass() then steps[0].now else clock)
  }

  lemma {:induction false} CoveragePersists(s: Fleet, steps: seq<Step>, clock: int, ttl: nat, t: int)
    requires NoLapse(s, steps, clock, ttl)
    requires t in s.enabled && Fresh(s.leases, t, Cutoff(clock, ttl))
    ensures Fresh(Run(s, steps, ttl).leases, t, Cutoff(LastClock(steps, clock), ttl))
    ensures Run(s, steps, ttl).leases[t].owner == s.leases[t].owner
    ensures Run(s, steps, ttl).enabled == s.enabled
    decreases |steps|
  {
    if steps != [] {
      PassRowEffect(s, steps[0], ttl, t);
      CoveragePersists(Apply(s, steps[0], ttl), steps[1..], steps[0].now, ttl, t);
    }
  }

  // A collector that passed with limit n holds n fresh leases at the end, unless every
  // enabled target is covered.
  ghost predicate HoldsLimit(s: Fleet, c: CollectorId, n: int, cut: int) {
    AllCovered(s.leases, s.enabled, cut) || |OwnedFresh(s.leases, c, cut) * s.enabled| >= n
  }

  lemma HoldsAfterPass(s: Fleet, e: Step, ttl: nat)
    requires e.IsPass()
    ensures HoldsLimit(Apply(s, e, ttl), e.c, e.limit, Cutoff(e.now, ttl))
  {
    var cut := Cutoff(e.now, ttl);
    var next := Apply(s, e, ttl);
    if e.Static? {
      StaticPassCovers(s.leases, s.enabled, e.c, e.limit, e.now, cut);
    } else {
      DynamicPassCovers(s.leases, s.enabled, e.c, e.mine, e.limit, e.now, cut);
    }
    forall t | t in OwnedFresh(next.leases, e.c, cut)
      ensures t in next.enabled
    {
      PassRowEffect(s, e, ttl, t);
    }
    assert OwnedFresh(next.leases, e.c, cut) * next.enabled == OwnedFresh(next.leases, e.c, cut);
  }

  lemma HoldsPersists(s: Fleet, steps: seq<Step>, clock: int, ttl: nat, c: CollectorId, n: int)
    requires NoLapse(s, steps, clock, ttl) && HoldsLimit(s, c, n, Cutoff(clock, ttl))
    ensures HoldsLimit(Run(s, steps, ttl), c, n, Cutoff(LastClock(steps, clock), ttl))
  {
    var end := Run(s, steps, ttl);
    var cut, cut' := Cutoff(clock, ttl), Cutoff(LastClock(steps, clock), ttl);
    EnabledUnchanged(s, steps, clock, ttl);
    forall t | t in s.enabled && Fresh(s.leases, t, cut)
      ensures Fresh(end.leases, t, cut') && end.leases[t].owner == s.leases[t].owner
    {
      CoveragePersists(s, steps, clock, ttl, t);
    }
    var before, after := OwnedFresh(s.leases, c, cut) * s.enabled, OwnedFresh(end.leases, c, cut') * end.enabled;
    forall t | t in before
      ensures t in after
    {
      assert Fresh(s.leases, t, cut);
    }
    SubsetCard(before, after);
  }

  lemma {:induction false} EnabledUnchanged(s: Fleet, steps: seq<Step>, clock: int, ttl: nat)
    requires NoLapse(s, steps, clock, ttl)
    ensures Run(s, steps, ttl).enabled == s.enabled
    decreases |steps|
  {
    if steps != [] {
      EnabledUnchanged(Apply(s, steps[0], ttl), steps[1..], steps[0].now, ttl);
    }
  }

  lemma {:induction false} HoldsAtEnd(s: Fleet, steps: seq<Step>, clock: int, ttl: nat, i: nat)
    requires NoLapse(s, steps, clock, ttl) && i < |steps|
    ensures steps[i].IsPass()
    ensures HoldsLimit(Run(s, steps, ttl), steps[i].c, steps[i].limit, Cutoff(LastClock(steps, clock), ttl))
    decreases |steps|
  {
    var next := Apply(s, steps[0], ttl);
    if i == 0 {
      HoldsAfterPass(s, steps[0], ttl);
      HoldsPersists(next, steps[1..], steps[0].now, ttl, steps[0].c, steps[0].limit);
    } else {
      HoldsAtEnd(next, steps[1..], steps[0].now, ttl, i - 1);
    }
  }

  ghost function Total(caps: map<CollectorId, nat>): nat
    decreases |caps|
  {
    if caps.Keys == {} then 0
    else
      var c := Pick(caps.Keys);
      assert |(caps - {c}).Keys| < |caps.Keys|;
      caps[c] + Total(caps - {c})
  }

  // Pigeonhole: disjoint holdings of at least caps[c] each need Total(caps) targets.
  lemma {:induction false} HoldingsAddUp(s: Fleet, caps: map<CollectorId, nat>, cut: int, pool: set<int>)
    requires forall c | c in caps :: OwnedFresh(s.leases, c, cut) * s.enabled <= pool
    requires forall c | c in caps :: |OwnedFresh(s.leases, c, cut) * s.enabled| >= caps[c]
    ensures Total(caps) <= |pool|
    decreases |caps|
  {
    if caps.Keys != {} {
      var c := Pick(caps.Keys);
      var held := OwnedFresh(s.leases, c, cut) * s.enabled;
      assert |(caps - {c}).Keys| < |caps.Keys|;
      HoldingsAddUp(s, caps - {c}, cut, pool - held);
      assert |pool - held| == |pool| - |held|;
    }
  }

  // Each collector in caps passes at least once with at least that limit.
  ghost predicate AllPass(steps: seq<Step>, caps: map<CollectorId, nat>) {
    forall c | c in caps :: exists i :: 0 <= i < |steps| && PassOf(steps[i], c, caps[c])
  }

  predicate PassOf(e: Step, c: CollectorId, n: nat) {
    e.IsPass() && e.c == c && e.limit >= n
  }

  // If the collectors' limits add up to the enabled targets, then once each has passed
  // without a lease lapsing in between, every enabled target has a fresh lease. The
  // slices are arbitrary: this is the orphan safety net alone.
  lemma FleetCoverage(s: Fleet, steps: seq<Step>, clock: int, ttl: nat, caps: map<CollectorId, nat>)
    requires NoLapse(s, steps, clock, ttl) && AllPass(steps, caps)
    requires Total(caps) >= |s.enabled|
    ensures AllCovered(Run(s, steps, ttl).leases, s.enabled, Cutoff(LastClock(steps, clock), ttl))
  {
    var end := Run(s, steps, ttl);
    var cut := Cutoff(LastClock(steps, clock), ttl);
    EnabledUnchanged(s, steps, clock, ttl);
    if !AllCovered(end.leases, s.enabled, cut) {
      var t :| t in s.enabled && !Fresh(end.leases, t, cut);
      var pool := s.enabled - {t};
      forall c | c in caps
        ensures OwnedFresh(end.leases, c, cut) * end.enabled <= pool
        ensures |OwnedFresh(end.leases, c, cut) * end.enabled| >= caps[c]
      {
        var i :| 0 <= i < |steps| && PassOf(steps[i], c, caps[c]);
        HoldsAtEnd(s, steps, clock, ttl, i);
      }
      assert |pool| == |s.enabled| - 1;
      HoldingsAddUp(end, caps, cut, pool);
      assert false;
    }
  }

  ghost predicate PolledByOne(l: Table, enabled: set<int>, cut: int, t: int) {
    exists c :: t in Polled(l, enabled, c, cut) && forall d | t in Polled(l, enabled, d, cut) :: d == c
  }

  // Then every enabled target is polled, by exactly one collector.
  lemma FleetPolls(s: Fleet, steps: seq<Step>, clock: int, ttl: nat, caps: map<CollectorId, nat>)
    requires NoLapse(s, steps, clock, ttl) && AllPass(steps, caps)
    requires Total(caps) >= |s.enabled|
    ensures forall t | t in s.enabled ::
              PolledByOne(Run(s, steps, ttl).leases, s.enabled, Cutoff(LastClock(steps, clock), ttl), t)
  {
    var l, cut := Run(s, steps, ttl).leases, Cutoff(LastClock(steps, clock), ttl);
    FleetCoverage(s, steps, clock, ttl, caps);
    PolledOnce(l, s.enabled, cut);
    forall t | t in s.enabled
      ensures PolledByOne(l, s.enabled, cut, t)
    {
      var c :| t in Polled(l, s.enabled, c, cut);
    }
  }
}
