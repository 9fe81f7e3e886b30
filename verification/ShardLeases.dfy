/** The shared lease table and the passes collectors run over it
    (collector/src/database/repository.py, shard-lease section).

    A pass is one serialized write transaction, so each is a function from table to
    table; `LeaseStore` carries out the same pass statement by statement. Times are
    integers. A pass reads the clock once, as `now`, and treats a lease renewed before
    `cut`, which is `now` minus the lease TTL, as stale. */
module ShardLeases {
  import opened Common
  import opened ShardAlloc

  datatype Lease = Lease(owner: CollectorId, renewed: int)
  type Table = map<int, Lease>

  predicate Fresh(l: Table, t: int, cut: int) {
    t in l && l[t].renewed >= cut
  }

  // Leases renewed before this are stale.
  function Cutoff(now: int, ttl: nat): int {
    now - ttl
  }

  function Owned(l: Table, c: CollectorId): set<int> {
    set t | t in l && l[t].owner == c
  }

  function OwnedFresh(l: Table, c: CollectorId, cut: int): set<int> {
    set t | t in l && l[t].owner == c && l[t].renewed >= cut
  }

  // DELETE ... WHERE target_id NOT IN (enabled targets)
  function Swept(l: Table, enabled: set<int>): Table {
    map t | t in l && t in enabled :: l[t]
  }

  // UPDATE ... SET updated_at = now WHERE collector_id = c
  function Heartbeat(l: Table, c: CollectorId, now: int): Table {
    map t | t in l :: if l[t].owner == c then Lease(c, now) else l[t]
  }

  // The WHERE guard of the claim upsert; only the dynamic statement renews own rows.
  predicate Claimable(l: Table, c: CollectorId, t: int, cut: int, renewOwn: bool) {
    t !in l || (renewOwn && l[t].owner == c) || l[t].renewed < cut
  }

  // The claim upsert applied to every id of ts.
  function Claimed(l: Table, c: CollectorId, ts: set<int>, now: int, cut: int, renewOwn: bool): Table {
    map t | t in l.Keys + ts ::
      if t in ts && Claimable(l, c, t, cut, renewOwn) then Lease(c, now) else l[t]
  }

  // Enabled targets with no fresh lease.
  function Orphans(l: Table, enabled: set<int>, cut: int): set<int> {
    set t | t in enabled && !Fresh(l, t, cut)
  }

  // ORDER BY id LIMIT k: the ids with fewer than k smaller ones.
  function FirstIds(s: set<int>, k: nat): set<int> {
    set x | x in s && |Below(s, x)| < k
  }

  lemma {:induction false} FirstIdsCount(s: set<int>, k: nat)
    ensures |FirstIds(s, k)| == Min(k, |s|)
  {
    if s == {} {
      assert FirstIds(s, k) == {};
    } else {
      var g := Greatest(s);
      var rest := s - {g};
      FirstIdsCount(rest, k);
      assert Below(s, g) == rest;
      assert forall x | x in rest :: Below(s, x) == Below(rest, x);
      assert FirstIds(s, k) == if |rest| < k then FirstIds(rest, k) + {g} else FirstIds(rest, k);
    }
  }

  function Capacity(limit: int, held: nat): nat {
    if limit > held then limit - held else 0
  }

  // The bounded sweep: claim the first k orphans.
  function Adopted(l: Table, enabled: set<int>, c: CollectorId, k: nat, now: int, cut: int, renewOwn: bool): Table {
    Claimed(l, c, FirstIds(Orphans(l, enabled, cut), k), now, cut, renewOwn)
  }

  // claim_shard_targets
  function StaticPass(l: Table, enabled: set<int>, c: CollectorId, maxTargets: int, now: int, cut: int): Table {
    var h := Heartbeat(Swept(l, enabled), c, now);
    var k := Capacity(maxTargets, |Owned(h, c)|);
    Adopted(h, enabled, c, k, now, cut, false)
  }

  // Steps 1-3 of reconcile_shard_leases: sweep, then claim or renew the slice.
  function SliceClaimed(l: Table, enabled: set<int>, c: CollectorId, mine: set<int>, now: int, cut: int): Table {
    Claimed(Swept(l, enabled), c, mine * enabled, now, cut, true)
  }

  // reconcile_shard_leases: the slice, then the bounded orphan sweep.
  function DynamicPass(l: Table, enabled: set<int>, c: CollectorId, mine: set<int>, cap: int, now: int, cut: int)
    : Table
  {
    var s := SliceClaimed(l, enabled, c, mine, now, cut);
    var k := Capacity(cap, |OwnedFresh(s, c, cut)|);
    Adopted(s, enabled, c, k, now, cut, true)
  }

  function Released(l: Table, c: CollectorId): Table {
    map t | t in l && l[t].owner != c :: l[t]
  }

  // ---- What any pass does to one row ----

  // A row of a disabled target is gone; a fresh row keeps its owner, and only the
  // caller can have renewed it; a stale or missing row is untouched or now the caller's.
  ghost predicate RowEffect(l: Table, r: Table, enabled: set<int>, c: CollectorId, now: int, cut: int, t: int) {
    && (t !in enabled ==> t !in r)
    && (t in enabled && Fresh(l, t, cut) ==>
          t in r && (r[t] == l[t] || (l[t].owner == c && r[t] == Lease(c, now))))
    && (t in enabled && !Fresh(l, t, cut) && t in r ==>
          r[t] == Lease(c, now) || (t in l && r[t] == l[t]))
    && (t in enabled && t in l ==> t in r)
  }

  // The sweep touches only rows without a fresh lease.
  lemma AdoptedRow(s: Table, enabled: set<int>, c: CollectorId, k: nat, now: int, cut: int, renewOwn: bool, t: int)
    ensures var r := Adopted(s, enabled, c, k, now, cut, renewOwn);
            if t in r && !(t in s && r[t] == s[t]) then
              t in enabled && !Fresh(s, t, cut) && r[t] == Lease(c, now)
            else
              t in r <==> t in s
  {
    var o := FirstIds(Orphans(s, enabled, cut), k);
    assert t in o ==> t in Orphans(s, enabled, cut);
  }

  lemma DynamicRowEffect(l: Table, enabled: set<int>, c: CollectorId, mine: set<int>, cap: int, now: int,
                         cut: int, t: int)
    ensures RowEffect(l, DynamicPass(l, enabled, c, mine, cap, now, cut), enabled, c, now, cut, t)
  {
    var s := SliceClaimed(l, enabled, c, mine, now, cut);
    AdoptedRow(s, enabled, c, Capacity(cap, |OwnedFresh(s, c, cut)|), now, cut, true, t);
  }

  lemma StaticRowEffect(l: Table, enabled: set<int>, c: CollectorId, maxTargets: int, now: int, cut: int, t: int)
    ensures RowEffect(l, StaticPass(l, enabled, c, maxTargets, now, cut), enabled, c, now, cut, t)
  {
    var h := Heartbeat(Swept(l, enabled), c, now);
    AdoptedRow(h, enabled, c, Capacity(maxTargets, |Owned(h, c)|), now, cut, false, t);
  }

  // ---- Coverage by one pass ----

  ghost predicate AllCovered(l: Table, enabled: set<int>, cut: int) {
    forall t | t in enabled :: Fresh(l, t, cut)
  }

  lemma OrphansClaimed(s: Table, enabled: set<int>, c: CollectorId, o: set<int>, now: int, cut: int, renewOwn: bool)
    requires cut <= now && o <= Orphans(s, enabled, cut)
    ensures OwnedFresh(Claimed(s, c, o, now, cut, renewOwn), c, cut) == OwnedFresh(s, c, cut) + o
    ensures OwnedFresh(s, c, cut) !! o
  {
  }

  lemma AdoptedCount(s: Table, enabled: set<int>, c: CollectorId, k: nat, now: int, cut: int, renewOwn: bool)
    requires cut <= now
    ensures |OwnedFresh(Adopted(s, enabled, c, k, now, cut, renewOwn), c, cut)|
            == |OwnedFresh(s, c, cut)| + Min(k, |Orphans(s, enabled, cut)|)
  {
    FirstIdsCount(Orphans(s, enabled, cut), k);
    OrphansClaimed(s, enabled, c, FirstIds(Orphans(s, enabled, cut), k), now, cut, renewOwn);
  }

  // A sweep with room for every orphan leaves none.
  lemma AdoptedCovers(s: Table, enabled: set<int>, c: CollectorId, k: nat, now: int, cut: int, renewOwn: bool)
    requires cut <= now && |Orphans(s, enabled, cut)| <= k
    ensures AllCovered(Adopted(s, enabled, c, k, now, cut, renewOwn), enabled, cut)
  {
    var orphans := Orphans(s, enabled, cut);
    FirstIdsCount(orphans, k);
    SubsetCard(FirstIds(orphans, k), orphans);
    var r := Claimed(s, c, orphans, now, cut, renewOwn);
    forall t | t in enabled
      ensures Fresh(r, t, cut)
    {
      assert t in orphans || Fresh(s, t, cut);
    }
  }

  // The sweep's promise: from s, the caller c with this limit reaches r. Either every
  // enabled target now has a fresh lease or the caller holds at least its limit; and
  // it ends above the limit only by what it already held in s.
  ghost predicate SweepPromise(s: Table, r: Table, enabled: set<int>, c: CollectorId, limit: int, cut: int) {
    var held, now := |OwnedFresh(s, c, cut)|, |OwnedFresh(r, c, cut)|;
    && (AllCovered(r, enabled, cut) || now >= limit)
    && (now <= limit || now == held)
    && held <= now
  }

  lemma SweepKeepsPromise(s: Table, r: Table, enabled: set<int>, c: CollectorId, limit: int, now: int, cut: int,
                          renewOwn: bool)
    requires cut <= now
    requires r == Adopted(s, enabled, c, Capacity(limit, |OwnedFresh(s, c, cut)|), now, cut, renewOwn)
    ensures SweepPromise(s, r, enabled, c, limit, cut)
  {
    var k := Capacity(limit, |OwnedFresh(s, c, cut)|);
    AdoptedCount(s, enabled, c, k, now, cut, renewOwn);
    if |Orphans(s, enabled, cut)| <= k { AdoptedCovers(s, enabled, c, k, now, cut, renewOwn); }
  }

  lemma DynamicPassCovers(l: Table, enabled: set<int>, c: CollectorId, mine: set<int>, cap: int, now: int, cut: int)
    requires cut <= now
    ensures SweepPromise(SliceClaimed(l, enabled, c, mine, now, cut),
                         DynamicPass(l, enabled, c, mine, cap, now, cut), enabled, c, cap, cut)
  {
    SweepKeepsPromise(SliceClaimed(l, enabled, c, mine, now, cut),
                      DynamicPass(l, enabled, c, mine, cap, now, cut), enabled, c, cap, now, cut, true);
  }

  lemma HeartbeatMakesFresh(l: Table, c: CollectorId, now: int, cut: int)
    requires cut <= now
    ensures Owned(Heartbeat(l, c, now), c) == OwnedFresh(Heartbeat(l, c, now), c, cut) == Owned(l, c)
  {
  }

  lemma StaticPassCovers(l: Table, enabled: set<int>, c: CollectorId, maxTargets: int, now: int, cut: int)
    requires cut <= now
    ensures SweepPromise(Heartbeat(Swept(l, enabled), c, now),
                         StaticPass(l, enabled, c, maxTargets, now, cut), enabled, c, maxTargets, cut)
  {
    var h := Heartbeat(Swept(l, enabled), c, now);
    HeartbeatMakesFresh(Swept(l, enabled), c, now, cut);
    SweepKeepsPromise(h, StaticPass(l, enabled, c, maxTargets, now, cut), enabled, c, maxTargets, now, cut, false);
  }

  // Whatever the peers hold, a pass leaves every enabled target of the slice covered.
  lemma SliceCovered(l: Table, enabled: set<int>, c: CollectorId, mine: set<int>, cap: int, now: int, cut: int, t: int)
    requires cut <= now && t in mine && t in enabled
    ensures Fresh(DynamicPass(l, enabled, c, mine, cap, now, cut), t, cut)
  {
    assert Fresh(SliceClaimed(l, enabled, c, mine, now, cut), t, cut);
  }

  // ---- The TTL, written out ----

  // A row of the slice goes to the caller unless a peer renewed it at most a TTL ago.
  lemma SliceRow(l: Table, enabled: set<int>, c: CollectorId, mine: set<int>, cap: int, now: int, ttl: nat, t: int)
    requires t in mine && t in enabled
    ensures t in DynamicPass(l, enabled, c, mine, cap, now, Cutoff(now, ttl))
    ensures DynamicPass(l, enabled, c, mine, cap, now, Cutoff(now, ttl))[t]
            == if t in l && l[t].owner != c && l[t].renewed >= now - ttl then l[t] else Lease(c, now)
  {
    var s := SliceClaimed(l, enabled, c, mine, now, Cutoff(now, ttl));
    AdoptedRow(s, enabled, c, Capacity(cap, |OwnedFresh(s, c, Cutoff(now, ttl))|), now, Cutoff(now, ttl), true, t);
  }

  // A static pass renews every row the caller has, and leaves a peer's row that was renewed at
  // most a TTL ago alone.
  lemma StaticRow(l: Table, enabled: set<int>, c: CollectorId, maxTargets: int, now: int, ttl: nat, t: int)
    requires t in l && t in enabled && (l[t].owner == c || l[t].renewed >= now - ttl)
    ensures t in StaticPass(l, enabled, c, maxTargets, now, Cutoff(now, ttl))
    ensures StaticPass(l, enabled, c, maxTargets, now, Cutoff(now, ttl))[t]
            == if l[t].owner == c then Lease(c, now) else l[t]
  {
    var h := Heartbeat(Swept(l, enabled), c, now);
    AdoptedRow(h, enabled, c, Capacity(maxTargets, |Owned(h, c)|), now, Cutoff(now, ttl), false, t);
  }

  // Enabled targets that nobody has, or whose owner has been silent for more than a TTL.
  function Abandoned(l: Table, enabled: set<int>, now: int, ttl: nat): set<int> {
    set t | t in enabled && (t !in l || l[t].renewed < now - ttl)
  }

  // What a collector has and renewed at most a TTL ago, and what it has of enabled targets.
  function RenewedWithin(l: Table, c: CollectorId, now: int, ttl: nat): set<int> {
    set t | t in l && l[t].owner == c && l[t].renewed >= now - ttl
  }

  function HasEnabled(l: Table, c: CollectorId, enabled: set<int>): set<int> {
    set t | t in l && t in enabled && l[t].owner == c
  }

  // With room for all of them, the sweep takes every one.
  lemma AbandonedAdopted(s: Table, enabled: set<int>, c: CollectorId, k: nat, now: int, ttl: nat, renewOwn: bool,
                         t: int)
    requires t in Abandoned(s, enabled, now, ttl) && |Abandoned(s, enabled, now, ttl)| <= k
    ensures t in Adopted(s, enabled, c, k, now, Cutoff(now, ttl), renewOwn)
    ensures Adopted(s, enabled, c, k, now, Cutoff(now, ttl), renewOwn)[t] == Lease(c, now)
  {
    var orphans := Orphans(s, enabled, Cutoff(now, ttl));
    assert orphans == Abandoned(s, enabled, now, ttl);
    assert Below(orphans, t) <= orphans - {t};
    SubsetCard(Below(orphans, t), orphans - {t});
  }

  // A dynamic pass whose cap leaves room for every target abandoned after its slice was claimed
  // takes each of them.
  lemma DynamicAdopts(l: Table, enabled: set<int>, c: CollectorId, mine: set<int>, cap: int, now: int, ttl: nat, t: int)
    requires t in Abandoned(SliceClaimed(l, enabled, c, mine, now, Cutoff(now, ttl)), enabled, now, ttl)
    requires |Abandoned(SliceClaimed(l, enabled, c, mine, now, Cutoff(now, ttl)), enabled, now, ttl)|
             + |RenewedWithin(SliceClaimed(l, enabled, c, mine, now, Cutoff(now, ttl)), c, now, ttl)| <= cap
    ensures t in DynamicPass(l, enabled, c, mine, cap, now, Cutoff(now, ttl))
    ensures DynamicPass(l, enabled, c, mine, cap, now, Cutoff(now, ttl))[t] == Lease(c, now)
  {
    var s := SliceClaimed(l, enabled, c, mine, now, Cutoff(now, ttl));
    assert OwnedFresh(s, c, Cutoff(now, ttl)) == RenewedWithin(s, c, now, ttl);
    AbandonedAdopted(s, enabled, c, Capacity(cap, |OwnedFresh(s, c, Cutoff(now, ttl))|), now, ttl, true, t);
  }

  // The same of a static pass, after its sweep and heartbeat.
  lemma StaticAdopts(l: Table, enabled: set<int>, c: CollectorId, maxTargets: int, now: int, ttl: nat, t: int)
    requires t in Abandoned(l, enabled, now, ttl)
    requires |Abandoned(l, enabled, now, ttl)| + |HasEnabled(l, c, enabled)| <= maxTargets
    ensures t in StaticPass(l, enabled, c, maxTargets, now, Cutoff(now, ttl))
    ensures StaticPass(l, enabled, c, maxTargets, now, Cutoff(now, ttl))[t] == Lease(c, now)
  {
    var h := Heartbeat(Swept(l, enabled), c, now);
    assert Owned(h, c) == HasEnabled(l, c, enabled);
    assert Abandoned(h, enabled, now, ttl) <= Abandoned(l, enabled, now, ttl);
    SubsetCard(Abandoned(h, enabled, now, ttl), Abandoned(l, enabled, now, ttl));
    if t in Abandoned(h, enabled, now, ttl) {
      AbandonedAdopted(h, enabled, c, Capacity(maxTargets, |Owned(h, c)|), now, ttl, false, t);
    } else {
      AdoptedRow(h, enabled, c, Capacity(maxTargets, |Owned(h, c)|), now, Cutoff(now, ttl), false, t);
    }
  }

  // Of the targets a bounded sweep finds it takes those with the smallest ids.
  lemma FirstIdsLowest(s: set<int>, k: nat, x: int, y: int)
    requires x in FirstIds(s, k) && y in s && y < x
    ensures y in FirstIds(s, k)
  {
    SubsetCard(Below(s, y), Below(s, x));
  }

  // ---- What the collectors poll ----

  // The enabled targets a collector holds a fresh lease on.
  function Polled(l: Table, enabled: set<int>, c: CollectorId, cut: int): set<int> {
    OwnedFresh(l, c, cut) * enabled
  }

  // A collector polls a target exactly when it is enabled and the collector's own lease on it
  // was renewed at most a TTL ago.
  lemma PolledIff(l: Table, enabled: set<int>, c: CollectorId, now: int, ttl: nat, t: int)
    ensures t in Polled(l, enabled, c, Cutoff(now, ttl))
            <==> t in enabled && t in l && l[t].owner == c && l[t].renewed >= now - ttl
  {
  }

  // At any one instant no target is polled by two collectors, and all enabled targets are
  // polled exactly when each has a fresh lease.
  lemma PolledOnce(l: Table, enabled: set<int>, cut: int)
    ensures forall c, d | c != d :: Polled(l, enabled, c, cut) !! Polled(l, enabled, d, cut)
    ensures AllCovered(l, enabled, cut) <==> forall t | t in enabled :: exists c :: t in Polled(l, enabled, c, cut)
  {
    if AllCovered(l, enabled, cut) {
      forall t | t in enabled
        ensures exists c :: t in Polled(l, enabled, c, cut)
      {
        assert Fresh(l, t, cut);
        assert t in Polled(l, enabled, l[t].owner, cut);
      }
    }
  }

  // ---- The repository's table, statement by statement ----

  lemma ClaimedOneMore(l: Table, c: CollectorId, ts: set<int>, t: int, now: int, cut: int, renewOwn: bool)
    requires cut <= now
    ensures var done := Claimed(l, c, ts, now, cut, renewOwn);
            Claimed(l, c, ts + {t}, now, cut, renewOwn)
            == if Claimable(done, c, t, cut, renewOwn) then done[t := Lease(c, now)] else done
  {
  }

  class LeaseStore {
    var leases: Table
    var enabled: set<int>
    var stats: map<CollectorId, int>   // membership rows: when each collector last reported

    constructor (enabledIds: set<int>)
      ensures leases == map[] && enabled == enabledIds && stats == map[]
    {
      leases, enabled, stats := map[], enabledIds, map[];
    }

    // One execution of the claim upsert per id, in the order given.
    method ClaimEach(c: CollectorId, ids: seq<int>, now: int, cut: int, renewOwn: bool)
      requires cut <= now
      modifies this`leases
      ensures leases == Claimed(old(leases), c, Elements(ids), now, cut, renewOwn)
    {
      var i := 0;
      WholeElements(ids);
      assert leases == Claimed(leases, c, {}, now, cut, renewOwn);
      while i < |ids|
        invariant 0 <= i <= |ids|
        invariant leases == Claimed(old(leases), c, Elements(ids[..i]), now, cut, renewOwn)
      {
        ClaimedOneMore(old(leases), c, Elements(ids[..i]), ids[i], now, cut, renewOwn);
        if Claimable(leases, c, ids[i], cut, renewOwn) {
          leases := leases[ids[i] := Lease(c, now)];
        }
        i := i + 1;
        PrefixElements(ids, i - 1, i);
      }
    }

    // SELECT id ... ORDER BY id LIMIT k
    method SelectOrphans(cut: int, k: nat) returns (ids: seq<int>)
      ensures Elements(ids) == FirstIds(Orphans(leases, enabled, cut), k)
      ensures Ascending(Lt, ids)
    {
      ids := SortedList(FirstIds(Orphans(leases, enabled, cut), k));
    }

    // The slice, deduplicated and restricted to enabled targets 500 ids at a time.
    method EnabledAmong(mineIds: seq<int>) returns (ids: seq<int>)
      ensures Elements(ids) == Elements(mineIds) * enabled
    {
      var unique := SortedSet(Lt, mineIds);
      ids := [];
      var i := 0;
      while i < |unique|
        invariant 0 <= i <= |unique|
        invariant Elements(ids) == Elements(unique[..i]) * enabled
      {
        var end := Min(i + 500, |unique|);
        var chunk := unique[i..end];
        var rows := EnabledIn(chunk);
        assert unique[..end] == unique[..i] + chunk;
        ElementsConcat(unique[..i], chunk);
        ElementsConcat(ids, rows);
        ids := ids + rows;
        i := end;
      }
      assert unique[..i] == unique;
    }

    function EnabledIn(chunk: seq<int>): (rows: seq<int>)
      reads this
      ensures Elements(rows) == Elements(chunk) * enabled
    {
      if chunk == [] then []
      else
        var rest := EnabledIn(chunk[1..]);
        assert chunk == [chunk[0]] + chunk[1..];
        ElementsConcat([chunk[0]], chunk[1..]);
        ElementsConcat([chunk[0]], rest);
        if chunk[0] in enabled then [chunk[0]] + rest else rest
    }

    // Claim the first orphans, as many as the remaining capacity allows.
    method AdoptOrphans(c: CollectorId, limit: int, held: nat, now: int, cut: int, renewOwn: bool)
      requires cut <= now
      modifies this`leases
      ensures leases == Adopted(old(leases), enabled, c, Capacity(limit, held), now, cut, renewOwn)
    {
      var capacity := limit - held;
      if capacity > 0 {
        var orphans := SelectOrphans(cut, capacity);
        ClaimEach(c, orphans, now, cut, renewOwn);
      } else {
        assert leases == Claimed(leases, c, {}, now, cut, renewOwn);
      }
    }

    method ClaimShardTargets(c: CollectorId, maxTargets: int, now: int, ttl: nat) returns (owned: nat)
      modifies this`leases
      ensures leases == StaticPass(old(leases), enabled, c, maxTargets, now, Cutoff(now, ttl))
      ensures owned == |Owned(leases, c)|
    {
      var stale := Cutoff(now, ttl);
      leases := Swept(leases, enabled);
      leases := Heartbeat(leases, c, now);
      var held := |Owned(leases, c)|;
      AdoptOrphans(c, maxTargets, held, now, stale, false);
      owned := |Owned(leases, c)|;
    }

    // Sweep, then claim or renew the enabled part of the slice.
    method ClaimSlice(c: CollectorId, mineIds: seq<int>, now: int, cut: int)
      requires cut <= now
      modifies this`leases
      ensures leases == SliceClaimed(old(leases), enabled, c, Elements(mineIds), now, cut)
    {
      leases := Swept(leases, enabled);
      var enabledMine := EnabledAmong(mineIds);
      ClaimEach(c, enabledMine, now, cut, true);
    }

    method ReconcileShardLeases(c: CollectorId, mineIds: seq<int>, cap: int, now: int, ttl: nat)
      returns (owned: nat)
      modifies this`leases
      ensures leases == DynamicPass(old(leases), enabled, c, Elements(mineIds), cap, now, Cutoff(now, ttl))
      ensures owned == |OwnedFresh(leases, c, Cutoff(now, ttl))|
    {
      var stale := Cutoff(now, ttl);
      ClaimSlice(c, mineIds, now, stale);
      var ownedNow := |OwnedFresh(leases, c, stale)|;
      AdoptOrphans(c, cap, ownedNow, now, stale, true);
      owned := |OwnedFresh(leases, c, stale)|;
    }

    // The leases go, and with the membership row the collector leaves its peers' live set.
    method ReleaseShardLeases(c: CollectorId)
      modifies this`leases, this`stats
      ensures leases == Released(old(leases), c)
      ensures Owned(leases, c) == {} && forall d | d != c :: Owned(leases, d) == Owned(old(leases), d)
      ensures stats == old(stats) - {c}
    {
      leases := Released(leases, c);
      stats := stats - {c};
    }

    // Enabled targets this collector holds a fresh lease on: what it polls.
    method GetOwnedTargets(c: CollectorId, now: int, ttl: nat) returns (ids: set<int>)
      ensures ids == Polled(leases, enabled, c, Cutoff(now, ttl))
    {
      ids := set t | t in enabled && t in leases && leases[t].owner == c && leases[t].renewed >= Cutoff(now, ttl);
    }
  }
}
