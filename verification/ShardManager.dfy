/** One collector's claim pass (collector/src/shard_manager.py).

    What the pass reads from elsewhere is a parameter: the ids with a fresh stats row, the
    enabled ids as listed before the write transaction, the clock readings, and whether the
    slot renewal or a release raised a database error. */
module ShardManager {
  import opened Common
  import opened ShardAlloc
  import opened ShardLeases
  import CollectorSlots
  import Fleets = ShardFleet

  datatype Config = Config(balanced: bool, maxTargets: nat, ttl: nat)

  datatype Claim = Claim(token: CollectorSlots.Token, ordinal: nat)

  // What a pass logs about provisioning.
  datatype Notice = Quiet | Warned(unpolled: int) | Recovered

  // The fair share exceeds the per-collector maximum.
  predicate Short(nTargets: nat, nLive: nat, maxTargets: int) {
    CeilDiv(nTargets, if nLive == 0 then 1 else nLive) > maxTargets
  }

  function NoticeFor(was: bool, short: bool, unpolled: int): Notice {
    if short && !was then Warned(unpolled) else if !short && was then Recovered else Quiet
  }

  // The flag tells the truth about the allocation the pass computes, and the warning's
  // figure is the number of targets that allocation leaves out.
  lemma ShortIffLeftOut(score: Score, a: Slices, targetIds: seq<int>, live: set<CollectorId>, maxTargets: nat)
    requires live != {} && Distinct(targetIds)
    requires Stable(score, a, Elements(targetIds), live, EffectiveCap(|targetIds|, |live|, maxTargets))
    ensures var targets := Elements(targetIds);
            && (Short(|targetIds|, |live|, maxTargets) <==> Assigned(a, targets) != targets)
            && (Short(|targetIds|, |live|, maxTargets) ==>
                  |targets - Assigned(a, targets)| == |targetIds| - |live| * maxTargets)
  {
    DistinctLength(targetIds);
    EffectiveCoverage(score, a, Elements(targetIds), live, maxTargets);
  }

  // Collectors that list the same targets, in whatever order, and see the same live set and
  // maximum compute the same allocation under the same cap, each from its own reading. Their
  // passes are then those of one steady fleet (module ShardSteady).
  lemma SameViewSameAllocation(score: Score, a: Slices, ids: seq<int>, b: Slices, jds: seq<int>,
                               live: set<CollectorId>, maxTargets: nat)
    requires Distinct(ids) && Distinct(jds) && Elements(ids) == Elements(jds)
    requires Stable(score, a, Elements(ids), live, EffectiveCap(|ids|, |live|, maxTargets))
    requires Stable(score, b, Elements(jds), live, EffectiveCap(|jds|, |live|, maxTargets))
    ensures a == b && EffectiveCap(|ids|, |live|, maxTargets) == EffectiveCap(|jds|, |live|, maxTargets)
  {
    DistinctLength(ids);
    DistinctLength(jds);
    StableIsUnique(score, a, b, Elements(ids), live, EffectiveCap(|ids|, |live|, maxTargets));
  }

  lemma SliceListed(score: Score, m: map<CollectorId, seq<int>>, targets: set<int>, live: set<CollectorId>, cap: int,
                    c: CollectorId)
    requires Stable(score, AsSlices(m), targets, live, cap) && c in live
    ensures c in m && c in AsSlices(m) && AsSlices(m)[c] == Elements(m[c])
  {
    assert c in AsSlices(m).Keys;
  }

  // ---- The notices of a whole run ----

  function Notices(was: bool, shorts: seq<bool>): seq<Notice>
    decreases |shorts|
  {
    if shorts == [] then [] else [NoticeFor(was, shorts[0], 0)] + Notices(shorts[0], shorts[1..])
  }

  // The notices of a run are the changes of the flag.
  lemma {:induction false} NoticesAre(was: bool, shorts: seq<bool>, i: nat)
    requires i < |shorts|
    ensures |Notices(was, shorts)| == |shorts|
    ensures var before := if i == 0 then was else shorts[i - 1];
            && (Notices(was, shorts)[i].Warned? <==> shorts[i] && !before)
            && (Notices(was, shorts)[i].Recovered? <==> !shorts[i] && before)
    decreases |shorts|
  {
    if i > 0 {
      NoticesAre(shorts[0], shorts[1..], i - 1);
    } else if |shorts| > 1 {
      NoticesAre(shorts[0], shorts[1..], 0);
    } else {
      assert shorts[1..] == [];
    }
  }

  // Between two warnings there is a recovery: a condition that persists is reported once.
  lemma {:induction false} WarnedOncePerShortage(was: bool, shorts: seq<bool>, i: nat, j: nat)
    requires i < j < |Notices(was, shorts)|
    requires Notices(was, shorts)[i].Warned? && Notices(was, shorts)[j].Warned?
    ensures exists k | i < k < j :: Notices(was, shorts)[k].Recovered?
    decreases |shorts|
  {
    var rest := Notices(shorts[0], shorts[1..]);
    assert forall k | 0 < k < |Notices(was, shorts)| :: Notices(was, shorts)[k] == rest[k - 1];
    if i > 0 {
      WarnedOncePerShortage(shorts[0], shorts[1..], i - 1, j - 1);
      var k :| i - 1 < k < j - 1 && rest[k].Recovered?;
      assert Notices(was, shorts)[k + 1].Recovered?;
    } else {
      var k := RecoveredBefore(shorts[1..], j - 1);
      assert Notices(was, shorts)[k + 1].Recovered?;
    }
  }

  lemma {:induction false} RecoveredBefore(shorts: seq<bool>, j: nat) returns (k: nat)
    requires j < |Notices(true, shorts)| && Notices(true, shorts)[j].Warned?
    ensures k < j && Notices(true, shorts)[k].Recovered?
    decreases |shorts|
  {
    if shorts[0] {
      var i := RecoveredBefore(shorts[1..], j - 1);
      k := i + 1;
    } else {
      k := 0;
    }
  }

  // ---- The manager ----

  datatype View = View(statsIds: seq<CollectorId>, targetIds: seq<int>, slotNow: int, slotError: bool, now: int)

  class Manager {
    const id: CollectorId
    const config: Config
    const slot: Option<Claim>
    const store: LeaseStore
    const slots: CollectorSlots.SlotTable
    var owned: nat
    var underProvisioned: bool
    var exited: bool

    constructor (id: CollectorId, config: Config, slot: Option<Claim>, store: LeaseStore,
                 slots: CollectorSlots.SlotTable)
      ensures this.id == id && this.config == config && this.slot == slot && this.store == store
      ensures this.slots == slots && owned == 0 && !underProvisioned && !exited
    {
      this.id, this.config, this.slot, this.store, this.slots := id, config, slot, store, slots;
      owned, underProvisioned, exited := 0, false, false;
    }

    ghost function Fleet(): Fleets.Fleet
      reads store
    {
      Fleets.Fleet(store.leases, store.enabled)
    }

    function Live(v: View): set<CollectorId> {
      Elements(v.statsIds) + {id}
    }

    function Cap(v: View): int {
      EffectiveCap(|v.targetIds|, |Live(v)|, config.maxTargets)
    }

    function SlotCut(v: View): int {
      CollectorSlots.StaleBefore(v.slotNow, config.ttl)
    }

    // A peer holds this process's ordinal with a row that is still fresh.
    ghost predicate IdentityLost(v: View)
      reads slots
    {
      && slot.Some? && !v.slotError && slot.value.ordinal in slots.slots
      && slots.slots[slot.value.ordinal].token != slot.value.token
      && slots.slots[slot.value.ordinal].renewed >= CollectorSlots.StaleBefore(v.slotNow, config.ttl)
    }

    // The slot table after the renewal of this pass.
    ghost function RenewedSlots(v: View): CollectorSlots.Slots
      reads slots
    {
      if slot.None? || v.slotError then slots.slots
      else
        CollectorSlots.AfterRenew(slots.slots, slot.value.token, slot.value.ordinal, v.slotNow, SlotCut(v))
    }

    method WarnIfUnderProvisioned(nTargets: nat, nLive: nat) returns (notice: Notice)
      modifies this`underProvisioned
      ensures underProvisioned <==> nTargets > (if nLive == 0 then 1 else nLive) * config.maxTargets
      ensures notice.Warned? <==> underProvisioned && !old(underProvisioned)
      ensures notice.Recovered? <==> !underProvisioned && old(underProvisioned)
      ensures notice.Warned? ==> notice.unpolled == nTargets - nLive * config.maxTargets
    {
      CeilDivIsLeast(nTargets, if nLive == 0 then 1 else nLive, config.maxTargets);
      var fair := CeilDiv(nTargets, if nLive == 0 then 1 else nLive);
      var under := fair > config.maxTargets;
      notice := Quiet;
      if under && !underProvisioned {
        notice := Warned(nTargets - nLive * config.maxTargets);
      } else if !under && underProvisioned {
        notice := Recovered;
      }
      underProvisioned := under;
    }

    // Re-asserts the ordinal; a database error is not identity loss.
    method RenewSlot(v: View) returns (held: bool)
      requires CollectorSlots.UniqueTokens(slots.slots)
      modifies slots
      ensures CollectorSlots.UniqueTokens(slots.slots)
      ensures held == !old(IdentityLost(v))
      ensures slots.slots == old(RenewedSlots(v))
    {
      held := true;
      if slot.Some? && !v.slotError {
        IdentityLostIff(v);
        var r := slots.RenewCollectorSlot(slot.value.token, slot.value.ordinal, v.slotNow, config.ttl);
        held := r != Some(false);
      }
    }

    lemma IdentityLostIff(v: View)
      requires slot.Some? && !v.slotError
      ensures IdentityLost(v)
              <==> CollectorSlots.RenewOutcome(slots.slots, slot.value.token, slot.value.ordinal, SlotCut(v))
                   == CollectorSlots.Lost
    {
      CollectorSlots.LostIffPeerFresh(slots.slots, slot.value.token, slot.value.ordinal, SlotCut(v));
    }

    function LiveList(v: View): (r: seq<CollectorId>)
      ensures Elements(r) == Live(v)
    {
      ElementsConcat(v.statsIds, [id]);
      SortedIds(v.statsIds + [id])
    }

    // This collector's slice of the one stable allocation of what it saw.
    method MySlice(score: Score, v: View) returns (mine: seq<int>, ghost a: Slices)
      ensures Stable(score, a, Elements(v.targetIds), Live(v), Cap(v))
      ensures id in a && Elements(mine) == a[id]
      ensures forall b | Stable(score, b, Elements(v.targetIds), Live(v), Cap(v)) :: id in b && Elements(mine) == b[id]
    {
      var live := LiveList(v);
      var slices := Allocate(score, v.targetIds, live, Cap(v));
      a := AsSlices(slices);
      SliceListed(score, slices, Elements(v.targetIds), Live(v), Cap(v), id);
      mine := slices[id];
      forall b | Stable(score, b, Elements(v.targetIds), Live(v), Cap(v))
        ensures b == a
      {
        StableIsUnique(score, a, b, Elements(v.targetIds), Live(v), Cap(v));
      }
    }

    // The cap holds a slice to the maximum and to the fair share: one target fewer, on every
    // live collector, would not hold all targets.
    lemma SliceWithinShare(score: Score, v: View, a: Slices)
      requires Stable(score, a, Elements(v.targetIds), Live(v), Cap(v)) && id in a
      ensures |a[id]| <= config.maxTargets
      ensures |a[id]| > 0 ==> |Live(v)| * (|a[id]| - 1) < |v.targetIds|
    {
      assert id in Live(v);
      if |a[id]| > 0 {
        CeilDivIsLeast(|v.targetIds|, |Live(v)|, |a[id]| - 1);
      }
    }

    // A pass either ends the process, leaving the leases alone, because its identity is
    // lost; or takes one step of the fleet with this collector's slice of the one stable
    // allocation of what it saw. The under-provisioned flag says whether that allocation
    // leaves a target out, and a warning says how many.
    method ReconcileDynamic(score: Score, v: View) returns (count: nat, notice: Notice, ghost a: Slices)
      requires CollectorSlots.UniqueTokens(slots.slots)
      modifies this`underProvisioned, this`exited, store`leases, slots
      ensures CollectorSlots.UniqueTokens(slots.slots)
      ensures slots.slots == old(RenewedSlots(v))
      ensures exited == (old(exited) || old(IdentityLost(v)))
      ensures old(IdentityLost(v)) ==> Fleet() == old(Fleet()) && underProvisioned == old(underProvisioned)
      ensures !old(IdentityLost(v)) ==>
                && Stable(score, a, Elements(v.targetIds), Live(v), Cap(v)) && id in a
                && Fleet() == Fleets.Apply(old(Fleet()), Fleets.Dynamic(id, a[id], Cap(v), v.now), config.ttl)
                && count == |OwnedFresh(store.leases, id, Cutoff(v.now, config.ttl))|
                && Truthful(v, a, old(underProvisioned), underProvisioned, notice)
    {
      count, notice, a := owned, Quiet, map[];
      var held := RenewSlot(v);
      if !held {
        exited := true;
        return;
      }
      notice := WarnIfUnderProvisioned(|v.targetIds|, |Live(v)|);
      var mine;
      mine, a := MySlice(score, v);
      NoticeIsTruthful(score, v, a, old(underProvisioned), underProvisioned, notice);
      count := store.ReconcileShardLeases(id, mine, Cap(v), v.now, config.ttl);
    }

    // The notice reports the change of the flag; and if the listing has no repeats, the flag
    // says whether the allocation leaves a target out, and a warning how many.
    ghost predicate Truthful(v: View, a: Slices, was: bool, short: bool, notice: Notice) {
      var targets := Elements(v.targetIds);
      && (notice.Warned? <==> short && !was) && (notice.Recovered? <==> was && !short)
      && (Distinct(v.targetIds) ==>
            && (short <==> Assigned(a, targets) != targets)
            && (notice.Warned? ==> notice.unpolled == |targets - Assigned(a, targets)|))
    }

    lemma NoticeIsTruthful(score: Score, v: View, a: Slices, was: bool, short: bool, notice: Notice)
      requires Stable(score, a, Elements(v.targetIds), Live(v), Cap(v))
      requires short <==> |v.targetIds| > (if |Live(v)| == 0 then 1 else |Live(v)|) * config.maxTargets
      requires (notice.Warned? <==> short && !was) && (notice.Recovered? <==> !short && was)
      requires notice.Warned? ==> notice.unpolled == |v.targetIds| - |Live(v)| * config.maxTargets
      ensures Truthful(v, a, was, short, notice)
    {
      assert id in Live(v);
      CeilDivIsLeast(|v.targetIds|, |Live(v)|, config.maxTargets);
      if Distinct(v.targetIds) {
        ShortIffLeftOut(score, a, v.targetIds, Live(v), config.maxTargets);
      }
    }

    // Dynamic or static, as configured; the manager remembers what it now owns.
    method ClaimOnce(score: Score, v: View) returns (notice: Notice, ghost a: Slices)
      requires CollectorSlots.UniqueTokens(slots.slots)
      modifies this, store`leases, slots
      ensures CollectorSlots.UniqueTokens(slots.slots)
      ensures slots.slots == if config.balanced then old(RenewedSlots(v)) else old(slots.slots)
      ensures config.balanced && !old(IdentityLost(v)) ==>
                && Stable(score, a, Elements(v.targetIds), Live(v), Cap(v)) && id in a
                && Fleet() == Fleets.Apply(old(Fleet()), Fleets.Dynamic(id, a[id], Cap(v), v.now), config.ttl)
                && owned == |OwnedFresh(store.leases, id, Cutoff(v.now, config.ttl))|
      ensures config.balanced && old(IdentityLost(v)) ==> exited && Fleet() == old(Fleet())
      ensures !config.balanced ==>
                && Fleet() == Fleets.Apply(old(Fleet()), Fleets.Static(id, config.maxTargets, v.now), config.ttl)
                && owned == |Owned(store.leases, id)|
    {
      notice, a := Quiet, map[];
      if config.balanced {
        owned, notice, a := ReconcileDynamic(score, v);
      } else {
        owned := store.ClaimShardTargets(id, config.maxTargets, v.now, config.ttl);
      }
    }

    // Graceful shutdown; either release may fail without affecting the other.
    method Release(leasesError: bool, slotError: bool)
      modifies store`leases, store`stats, slots
      ensures store.stats == if leasesError then old(store.stats) else old(store.stats) - {id}
      ensures Fleet() == if leasesError then old(Fleet())
                         else Fleets.Apply(old(Fleet()), Fleets.Release(id), config.ttl)
      ensures slots.slots == if slot.None? || slotError then old(slots.slots)
                             else CollectorSlots.AfterRelease(old(slots.slots), slot.value.token)
    {
      if !leasesError {
        store.ReleaseShardLeases(id);
      }
      if slot.Some? && !slotError {
        slots.ReleaseCollectorSlot(slot.value.token);
      }
    }
  }
}
