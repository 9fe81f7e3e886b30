/** Rendezvous allocation of targets to collectors (collector/src/shard_alloc.py).

    The hash weight is a parameter: nothing below depends on which function it is.
    The specification is `Stable`, a condition on the finished slices alone. It has
    exactly one solution, `Allocate` computes it, and every other fact about the
    allocator (coverage, what a new collector moves) is proved of stable slices. */
module ShardAlloc {
  import opened Common

  type CollectorId = string
  type Score = (int, CollectorId) -> nat
  type Slices = map<CollectorId, set<int>>

  // ---- The preference order of one target ----

  // Code-point order on collector ids, as Python compares strings.
  predicate IdBefore(a: CollectorId, b: CollectorId) {
    if a == [] then b != []
    else b != [] && (a[0] < b[0] || (a[0] == b[0] && IdBefore(a[1..], b[1..])))
  }

  lemma {:induction false} IdBeforeTotal(a: CollectorId, b: CollectorId)
    ensures IdBefore(a, b) ==> !IdBefore(b, a)
    ensures a != b ==> IdBefore(a, b) || IdBefore(b, a)
  {
    if a != [] && b != [] {
      assert a == [a[0]] + a[1..] && b == [b[0]] + b[1..];
      IdBeforeTotal(a[1..], b[1..]);
    }
  }

  lemma {:induction false} IdBeforeTransitive(a: CollectorId, b: CollectorId, c: CollectorId)
    requires IdBefore(a, b) && IdBefore(b, c)
    ensures IdBefore(a, c)
  {
    if a != [] && a[0] == b[0] == c[0] {
      IdBeforeTransitive(a[1..], b[1..], c[1..]);
    }
  }

  // a comes first at the first place where they differ, or is a proper prefix.
  ghost predicate SmallerAt(a: CollectorId, b: CollectorId, n: nat) {
    && n <= |a| && n < |b| && (forall i | 0 <= i < n :: a[i] == b[i])
    && (n < |a| ==> a[n] < b[n])
  }

  lemma {:induction false} IdBeforeIsLexicographic(a: CollectorId, b: CollectorId)
    ensures IdBefore(a, b) <==> exists n: nat :: SmallerAt(a, b, n)
  {
    if a == [] {
      assert b != [] ==> SmallerAt(a, b, 0);
    } else if b != [] {
      if a[0] < b[0] { assert SmallerAt(a, b, 0); }
      if a[0] == b[0] {
        IdBeforeIsLexicographic(a[1..], b[1..]);
        if n: nat :| SmallerAt(a[1..], b[1..], n) {
          assert forall i | 1 <= i <= n :: a[i] == a[1..][i - 1] && b[i] == b[1..][i - 1];
          assert SmallerAt(a, b, n + 1);
        }
        if n: nat :| SmallerAt(a, b, n) {
          assert n > 0;
          assert SmallerAt(a[1..], b[1..], n - 1);
        }
      }
    }
  }

  // Sort key (-score, id): higher weight first, ties broken by id.
  predicate Prefers(score: Score, t: int, c: CollectorId, d: CollectorId) {
    score(t, c) > score(t, d) || (score(t, c) == score(t, d) && IdBefore(c, d))
  }

  lemma PrefersTotal(score: Score, t: int, c: CollectorId, d: CollectorId)
    ensures Prefers(score, t, c, d) ==> !Prefers(score, t, d, c)
    ensures c != d ==> Prefers(score, t, c, d) || Prefers(score, t, d, c)
  {
    IdBeforeTotal(c, d);
  }

  lemma PrefersIsTotalOrder(score: Score, t: int)
    ensures StrictTotal((c: CollectorId, d: CollectorId) => Prefers(score, t, c, d))
  {
    var less := (c: CollectorId, d: CollectorId) => Prefers(score, t, c, d);
    forall c: CollectorId, d: CollectorId
      ensures less(c, d) ==> !less(d, c)
      ensures c != d ==> less(c, d) || less(d, c)
    {
      PrefersTotal(score, t, c, d);
    }
    forall c: CollectorId, d: CollectorId, e: CollectorId | less(c, d) && less(d, e)
      ensures less(c, e)
    {
      if IdBefore(c, d) && IdBefore(d, e) { IdBeforeTransitive(c, d, e); }
    }
  }

  ghost predicate InOrder(score: Score, t: int, r: seq<CollectorId>) {
    forall i, j :: 0 <= i < j < |r| ==> Prefers(score, t, r[i], r[j])
  }

  // sorted(live, key=(-score, id))
  function Ranked(score: Score, t: int, live: seq<CollectorId>): (r: seq<CollectorId>)
    ensures Elements(r) == Elements(live)
    ensures InOrder(score, t, r)
  {
    PrefersIsTotalOrder(score, t);
    SortedSet((c: CollectorId, d: CollectorId) => Prefers(score, t, c, d), live)
  }

  lemma IdOrderIsTotal()
    ensures StrictTotal(IdBefore)
  {
    forall a: CollectorId, b: CollectorId
      ensures IdBefore(a, b) ==> !IdBefore(b, a)
      ensures a != b ==> IdBefore(a, b) || IdBefore(b, a)
    {
      IdBeforeTotal(a, b);
    }
    forall a: CollectorId, b: CollectorId, c: CollectorId | IdBefore(a, b) && IdBefore(b, c)
      ensures IdBefore(a, c)
    {
      IdBeforeTransitive(a, b, c);
    }
  }

  function SortedIds(ids: seq<CollectorId>): (r: seq<CollectorId>)
    ensures Elements(r) == Elements(ids) && Ascending(IdBefore, r)
  {
    IdOrderIsTotal();
    SortedSet(IdBefore, ids)
  }

  // ---- Specification ----

  // A nonpositive cap leaves every collector empty.
  function Room(cap: int): nat {
    if cap <= 0 then 0 else cap
  }

  function Below(s: set<int>, t: int): set<int> {
    set x | x in s && x < t
  }

  // t sits on a collector it prefers to c.
  ghost predicate BetterOff(score: Score, a: Slices, t: int, c: CollectorId) {
    exists d :: d in a && t in a[d] && Prefers(score, t, d, c)
  }

  // Why t is not on c: it is better off elsewhere, or smaller ids filled c to the cap.
  ghost predicate Justified(score: Score, a: Slices, t: int, c: CollectorId, cap: int)
    requires c in a
  {
    t in a[c] || BetterOff(score, a, t, c) || |Below(a[c], t)| == Room(cap)
  }

  ghost predicate Disjoint(a: Slices) {
    forall c, d | c in a && d in a && c != d :: a[c] !! a[d]
  }

  // The slices partition part of the targets, no slice exceeds the cap, and a target
  // is kept off a collector only because it sits on one it prefers or because that
  // collector was filled to the cap by targets with smaller ids.
  ghost predicate Stable(score: Score, a: Slices, targets: set<int>, live: set<CollectorId>, cap: int) {
    && a.Keys == live
    && (forall c | c in a :: a[c] <= targets && |a[c]| <= Room(cap))
    && Disjoint(a)
    && (forall t, c {:trigger Justified(score, a, t, c, cap)} | t in targets && c in a ::
          Justified(score, a, t, c, cap))
  }

  ghost function Assigned(a: Slices, targets: set<int>): set<int> {
    set t | t in targets && exists c :: c in a && t in a[c]
  }

  // ---- The slices are unique ----

  lemma RoomForSmaller(s: set<int>, t: int, cap: int)
    requires t in s && |s| <= Room(cap)
    ensures |Below(s, t)| < Room(cap)
  {
    assert t !in Below(s, t);
    SubsetCard(Below(s, t) + {t}, s);
  }

  // Slices that agree on all smaller ids agree on t.
  lemma AgreeAt(score: Score, a: Slices, b: Slices, targets: set<int>, live: set<CollectorId>, cap: int,
                t: int, c: CollectorId)
    requires Stable(score, a, targets, live, cap) && Stable(score, b, targets, live, cap)
    requires forall d | d in live :: Below(a[d], t) == Below(b[d], t)
    requires c in live && t in a[c]
    ensures t in b[c]
  {
    RoomForSmaller(a[c], t, cap);
    assert Justified(score, b, t, c, cap);
    if t !in b[c] {
      var d :| d in b && t in b[d] && Prefers(score, t, d, c);
      RoomForSmaller(b[d], t, cap);
      assert Justified(score, a, t, d, cap);
      var e :| e in a && t in a[e] && Prefers(score, t, e, d);
      assert e == c;
      PrefersTotal(score, t, c, d);
      assert false;
    }
  }

  lemma {:induction false} AgreeBelow(score: Score, a: Slices, b: Slices, targets: set<int>,
                                      live: set<CollectorId>, cap: int, t: int)
    requires Stable(score, a, targets, live, cap) && Stable(score, b, targets, live, cap)
    ensures forall c | c in live :: Below(a[c], t) == Below(b[c], t)
    decreases |Below(targets, t)|
  {
    if Below(targets, t) != {} {
      var m := Greatest(Below(targets, t));
      assert Below(targets, m) <= Below(targets, t) - {m};
      SubsetCard(Below(targets, m), Below(targets, t) - {m});
      AgreeBelow(score, a, b, targets, live, cap, m);
      forall c | c in live
        ensures Below(a[c], t) == Below(b[c], t)
      {
        if m in a[c] { AgreeAt(score, a, b, targets, live, cap, m, c); }
        if m in b[c] { AgreeAt(score, b, a, targets, live, cap, m, c); }
        OneMore(a[c], targets, m, t);
        OneMore(b[c], targets, m, t);
      }
    } else {
      forall c | c in live
        ensures Below(a[c], t) == Below(b[c], t)
      {
        assert forall x | x in Below(a[c], t) :: x in Below(targets, t);
        assert forall x | x in Below(b[c], t) :: x in Below(targets, t);
      }
    }
  }

  lemma OneMore(s: set<int>, targets: set<int>, m: int, t: int)
    requires s <= targets && m in Below(targets, t) && forall x | x in Below(targets, t) :: x <= m
    ensures Below(s, t) == if m in s then Below(s, m) + {m} else Below(s, m)
  {
    assert forall x | x in Below(s, t) :: x in Below(targets, t);
  }

  // Two stable allocations of the same targets over the same collectors are equal, so
  // what Allocate returns depends on neither the order nor the repeats of its inputs.
  lemma StableIsUnique(score: Score, a: Slices, b: Slices, targets: set<int>, live: set<CollectorId>, cap: int)
    requires Stable(score, a, targets, live, cap) && Stable(score, b, targets, live, cap)
    ensures a == b
  {
    var top := if targets == {} then 0 else Greatest(targets) + 1;
    AgreeBelow(score, a, b, targets, live, cap, top);
    forall c | c in live
      ensures a[c] == b[c]
    {
      assert a[c] == Below(a[c], top) && b[c] == Below(b[c], top);
    }
  }

  // ---- The allocator ----

  function AsSlices(m: map<CollectorId, seq<int>>): Slices {
    map c | c in m :: Elements(m[c])
  }

  ghost predicate AllAscending(m: map<CollectorId, seq<int>>) {
    forall c | c in m :: Ascending(Lt, m[c])
  }

  // Placing a larger id leaves every earlier justification standing.
  lemma JustifiedStill(score: Score, a: Slices, cap: int, t: int, c: CollectorId, x: int, d: CollectorId)
    requires c in a && d in a && x < t && Justified(score, a, x, d, cap)
    ensures Justified(score, a[c := a[c] + {t}], x, d, cap)
  {
    var b := a[c := a[c] + {t}];
    assert Below(b[d], x) == Below(a[d], x);
    if BetterOff(score, a, x, d) {
      var e :| e in a && x in a[e] && Prefers(score, x, e, d);
      assert x in b[e];
    }
  }

  lemma StableWhenPlaced(score: Score, a: Slices, targets: set<int>, live: set<CollectorId>, cap: int,
                         t: int, c: CollectorId)
    requires Stable(score, a, targets, live, cap)
    requires forall x | x in targets :: x < t
    requires c in live && |a[c]| < cap
    requires forall d | d in live && Prefers(score, t, d, c) :: |a[d]| == cap
    ensures Stable(score, a[c := a[c] + {t}], targets + {t}, live, cap)
  {
    var b := a[c := a[c] + {t}];
    assert forall d | d in a :: t !in a[d];
    assert Disjoint(b);
    forall d | d in b
      ensures Justified(score, b, t, d, cap)
    {
      PrefersTotal(score, t, c, d);
      if d != c && Prefers(score, t, d, c) {
        assert Below(b[d], t) == a[d];
      } else {
        assert t in b[c];
      }
    }
    forall x, d | x in targets && d in b
      ensures Justified(score, b, x, d, cap)
    {
      assert Justified(score, a, x, d, cap);
      JustifiedStill(score, a, cap, t, c, x, d);
    }
  }

  lemma StableWhenSkipped(score: Score, a: Slices, targets: set<int>, live: set<CollectorId>, cap: int, t: int)
    requires Stable(score, a, targets, live, cap)
    requires forall x | x in targets :: x < t
    requires forall d | d in live :: |a[d]| == Room(cap)
    ensures Stable(score, a, targets + {t}, live, cap)
  {
    forall x, d | x in targets + {t} && d in a
      ensures Justified(score, a, x, d, cap)
    {
      if x == t { assert Below(a[d], t) == a[d]; }
    }
  }

  lemma StableWhenEmpty(score: Score, a: Slices, live: set<CollectorId>, cap: int)
    requires a.Keys == live && forall c | c in a :: a[c] == {}
    ensures Stable(score, a, {}, live, cap)
    ensures cap <= 0 || live == {} ==> forall targets :: Stable(score, a, targets, live, cap)
  {
    forall t: int, c | c in live && cap <= 0
      ensures Justified(score, a, t, c, cap)
    {
      assert Below(a[c], t) == {};
    }
  }

  ghost predicate AllBefore(done: set<int>, t: int) {
    forall x | x in done :: x < t
  }

  lemma SmallerFirst(targets: seq<int>, i: nat)
    requires Ascending(Lt, targets) && i < |targets|
    ensures AllBefore(Elements(targets[..i]), targets[i])
  {
    forall k | 0 <= k < i
      ensures targets[k] < targets[i]
    {
      assert Lt(targets[k], targets[i]);
    }
  }

  function NoSlices(live: seq<CollectorId>): map<CollectorId, seq<int>> {
    map c | c in live :: []
  }

  lemma BuiltWhenEmpty(score: Score, live: seq<CollectorId>, cap: int)
    ensures Built(score, NoSlices(live), {}, Elements(live), cap)
  {
    assert AsSlices(NoSlices(live)).Keys == Elements(live);
    StableWhenEmpty(score, AsSlices(NoSlices(live)), Elements(live), cap);
  }

  lemma BuiltWithoutRoom(score: Score, targets: set<int>, live: seq<CollectorId>, cap: int)
    requires cap <= 0 || live == []
    ensures Built(score, NoSlices(live), targets, Elements(live), cap)
  {
    assert AsSlices(NoSlices(live)).Keys == Elements(live);
    StableWhenEmpty(score, AsSlices(NoSlices(live)), Elements(live), cap);
  }

  method Allocate(score: Score, targetIds: seq<int>, liveIds: seq<CollectorId>, cap: int)
    returns (result: map<CollectorId, seq<int>>)
    ensures Stable(score, AsSlices(result), Elements(targetIds), Elements(liveIds), cap)
    ensures AllAscending(result)
    ensures HeaviestFirst(score, AsSlices(result), cap)
  {
    var live := SortedIds(liveIds);
    result := NoSlices(live);
    if live == [] || cap <= 0 {
      BuiltWithoutRoom(score, Elements(targetIds), live, cap);
    } else {
      var targets := SortedSet(Lt, targetIds);
      result := PlaceEach(score, targets, live, cap);
    }
    StableIsHeaviestFirst(score, AsSlices(result), Elements(targetIds), Elements(liveIds), cap);
  }

  // The outer loop: the targets in ascending order.
  method PlaceEach(score: Score, targets: seq<int>, live: seq<CollectorId>, cap: int)
    returns (result: map<CollectorId, seq<int>>)
    requires Ascending(Lt, targets) && cap > 0
    ensures Built(score, result, Elements(targets), Elements(live), cap)
  {
    result := NoSlices(live);
    BuiltWhenEmpty(score, live, cap);
    WholeElements(targets);
    ghost var done: set<int> := {};
    var i := 0;
    while i < |targets|
      invariant 0 <= i <= |targets| && done == Elements(targets[..i])
      invariant Built(score, result, done, Elements(live), cap)
    {
      SmallerFirst(targets, i);
      result := PlaceOne(score, targets[i], live, cap, result, done);
      done := done + {targets[i]};
      i := i + 1;
      PrefixElements(targets, i - 1, i);
    }
  }

  lemma SliceFacts(score: Score, m: map<CollectorId, seq<int>>, done: set<int>, live: set<CollectorId>, cap: int,
                   c: CollectorId)
    requires Stable(score, AsSlices(m), done, live, cap)
    requires c in m && AllAscending(m)
    ensures |AsSlices(m)[c]| == |m[c]| <= Room(cap)
    ensures forall x | x in m[c] :: x in done
  {
    AscendingLength(Lt, m[c]);
    assert AsSlices(m)[c] == Elements(m[c]);
    assert forall x | x in m[c] :: x in Elements(m[c]);
  }

  // Appending t to c's list adds t to c's slice.
  lemma AppendSlice(m: map<CollectorId, seq<int>>, c: CollectorId, t: int)
    requires c in m && AllAscending(m)
    requires forall x | x in m[c] :: x < t
    ensures AllAscending(m[c := m[c] + [t]])
    ensures AsSlices(m[c := m[c] + [t]]) == AsSlices(m)[c := AsSlices(m)[c] + {t}]
  {
    var grown := m[c] + [t];
    assert Elements(grown) == Elements(m[c]) + {t};
    assert forall i | 0 <= i < |m[c]| :: grown[i] == m[c][i] && m[c][i] in m[c];
    assert Ascending(Lt, grown);
  }

  ghost predicate FullUpTo(m: map<CollectorId, seq<int>>, ranked: seq<CollectorId>, j: nat, cap: int) {
    forall k | 0 <= k < j && k < |ranked| :: ranked[k] in m && |m[ranked[k]]| == cap
  }

  lemma FullNext(m: map<CollectorId, seq<int>>, ranked: seq<CollectorId>, j: nat, next: nat, cap: int)
    requires FullUpTo(m, ranked, j, cap) && j < |ranked| && next == j + 1
    requires ranked[j] in m && |m[ranked[j]]| == cap
    ensures FullUpTo(m, ranked, next, cap)
  {
  }

  // The lists built so far are a stable assignment of the targets done so far.
  ghost predicate Built(score: Score, m: map<CollectorId, seq<int>>, done: set<int>, live: set<CollectorId>, cap: int) {
    Stable(score, AsSlices(m), done, live, cap) && AllAscending(m)
  }

  ghost predicate WithinCap(m: map<CollectorId, seq<int>>, ranked: seq<CollectorId>, cap: int) {
    forall k | 0 <= k < |ranked| :: ranked[k] in m && |m[ranked[k]]| <= cap
  }

  // The inner loop: the first collector in preference order that is still under the cap.
  method FirstUnderCap(m: map<CollectorId, seq<int>>, ranked: seq<CollectorId>, cap: int) returns (j: nat)
    requires WithinCap(m, ranked, cap)
    ensures j <= |ranked| && FullUpTo(m, ranked, j, cap)
    ensures j < |ranked| ==> ranked[j] in m && |m[ranked[j]]| < cap
  {
    j := 0;
    while j < |ranked|
      invariant 0 <= j <= |ranked|
      invariant FullUpTo(m, ranked, j, cap)
    {
      if |m[ranked[j]]| < cap {
        return;
      }
      j := j + 1;
      FullNext(m, ranked, j - 1, j, cap);
    }
  }

  method PlaceOne(score: Score, tid: int, live: seq<CollectorId>, cap: int,
                  before: map<CollectorId, seq<int>>, ghost done: set<int>)
    returns (result: map<CollectorId, seq<int>>)
    requires cap > 0 && Built(score, before, done, Elements(live), cap)
    requires AllBefore(done, tid)
    ensures Built(score, result, done + {tid}, Elements(live), cap)
  {
    var ranked := Ranked(score, tid, live);
    RankedWithinCap(score, ranked, before, done, Elements(live), cap);
    var j := FirstUnderCap(before, ranked, cap);
    if j < |ranked| {
      PlacedAt(score, tid, ranked, j, before, done, Elements(live), cap);
      result := before[ranked[j] := before[ranked[j]] + [tid]];
    } else {
      NowhereToPlace(score, tid, ranked, before, done, Elements(live), cap);
      result := before;
    }
  }

  lemma RankedWithinCap(score: Score, ranked: seq<CollectorId>, m: map<CollectorId, seq<int>>, done: set<int>,
                        live: set<CollectorId>, cap: int)
    requires cap > 0 && Built(score, m, done, live, cap) && Elements(ranked) == live
    ensures WithinCap(m, ranked, cap)
  {
    forall j | 0 <= j < |ranked|
      ensures ranked[j] in m && |m[ranked[j]]| <= cap
    {
      assert ranked[j] in Elements(ranked) && ranked[j] in AsSlices(m).Keys;
      SliceFacts(score, m, done, live, cap, ranked[j]);
    }
  }

  lemma PlacedAt(score: Score, t: int, ranked: seq<CollectorId>, j: nat, m: map<CollectorId, seq<int>>, done: set<int>,
                 live: set<CollectorId>, cap: int)
    requires cap > 0 && Built(score, m, done, live, cap) && Elements(ranked) == live && InOrder(score, t, ranked)
    requires j < |ranked| && FullUpTo(m, ranked, j, cap) && ranked[j] in m && |m[ranked[j]]| < cap
    requires AllBefore(done, t)
    ensures Built(score, m[ranked[j] := m[ranked[j]] + [t]], done + {t}, live, cap)
  {
    var c := ranked[j];
    SliceFacts(score, m, done, live, cap, c);
    PreferredAreFull(score, t, ranked, j, m, done, live, cap);
    StableWhenPlaced(score, AsSlices(m), done, live, cap, t, c);
    AppendSlice(m, c, t);
  }

  lemma NowhereToPlace(score: Score, t: int, ranked: seq<CollectorId>, m: map<CollectorId, seq<int>>, done: set<int>,
                       live: set<CollectorId>, cap: int)
    requires cap > 0 && Built(score, m, done, live, cap) && Elements(ranked) == live
    requires FullUpTo(m, ranked, |ranked|, cap)
    requires AllBefore(done, t)
    ensures Built(score, m, done + {t}, live, cap)
  {
    forall d | d in live
      ensures |AsSlices(m)[d]| == Room(cap)
    {
      assert d in Elements(ranked);
      SliceFacts(score, m, done, live, cap, d);
    }
    StableWhenSkipped(score, AsSlices(m), done, live, cap, t);
  }

  lemma PreferredAreFull(score: Score, t: int, ranked: seq<CollectorId>, j: nat,
                         m: map<CollectorId, seq<int>>, done: set<int>, live: set<CollectorId>, cap: int)
    requires Stable(score, AsSlices(m), done, live, cap) && AllAscending(m)
    requires Elements(ranked) == live && j < |ranked|
    requires InOrder(score, t, ranked)
    requires FullUpTo(m, ranked, j, cap)
    ensures forall d | d in live && Prefers(score, t, d, ranked[j]) :: |AsSlices(m)[d]| == cap
  {
    forall d | d in live && Prefers(score, t, d, ranked[j])
      ensures |AsSlices(m)[d]| == cap
    {
      var k :| 0 <= k < |ranked| && ranked[k] == d;
      PrefersTotal(score, t, d, ranked[j]);
      assert k < j;
      SliceFacts(score, m, done, live, cap, d);
    }
  }

  // ---- Coverage ----

  ghost function HeldBy(a: Slices, group: set<CollectorId>, targets: set<int>): set<int> {
    set t | t in targets && exists c :: c in a && c in group && t in a[c]
  }

  lemma HeldByOneMore(a: Slices, group: set<CollectorId>, targets: set<int>, c: CollectorId)
    requires Disjoint(a) && c in a && c !in group && a[c] <= targets
    ensures |HeldBy(a, group + {c}, targets)| == |HeldBy(a, group, targets)| + |a[c]|
  {
    assert HeldBy(a, group + {c}, targets) == HeldBy(a, group, targets) + a[c];
    assert HeldBy(a, group, targets) !! a[c];
  }

  // A group of collectors holding at most cap each.
  ghost predicate Capped(a: Slices, targets: set<int>, cap: nat) {
    Disjoint(a) && forall c | c in a :: a[c] <= targets && |a[c]| <= cap
  }

  ghost predicate AllFull(a: Slices, group: set<CollectorId>, cap: nat) {
    forall c | c in group :: c in a && |a[c]| == cap
  }

  lemma {:induction false} HeldByCard(a: Slices, group: set<CollectorId>, targets: set<int>, cap: nat)
    requires Capped(a, targets, cap) && group <= a.Keys
    ensures |HeldBy(a, group, targets)| <= cap * |group|
    ensures AllFull(a, group, cap) ==> |HeldBy(a, group, targets)| == cap * |group|
  {
    if group == {} {
      assert HeldBy(a, group, targets) == {};
    } else {
      var c := Pick(group);
      var rest := group - {c};
      HeldByCard(a, rest, targets, cap);
      HeldByOneMore(a, rest, targets, c);
      assert rest + {c} == group;
      MulSucc(cap, |rest|, |group|);
    }
  }

  lemma MulSucc(cap: nat, m: nat, n: nat)
    requires n == m + 1
    ensures cap * n == cap * m + cap
  {
  }

  function Min(x: int, y: int): int {
    if x <= y then x else y
  }

  // Exactly min(N, cap * K) targets are assigned.
  lemma AssignedCount(score: Score, a: Slices, targets: set<int>, live: set<CollectorId>, cap: int)
    requires Stable(score, a, targets, live, cap)
    ensures |Assigned(a, targets)| == Min(|targets|, Room(cap) * |live|)
  {
    assert HeldBy(a, live, targets) == Assigned(a, targets);
    HeldByCard(a, live, targets, Room(cap));
    SubsetCard(Assigned(a, targets), targets);
    if targets - Assigned(a, targets) != {} {
      var t := Pick(targets - Assigned(a, targets));
      UnassignedMeansFull(score, a, targets, live, cap, t);
    } else {
      assert forall t | t in targets :: t in Assigned(a, targets) || t in targets - Assigned(a, targets);
      assert Assigned(a, targets) == targets;
    }
  }

  // A target is left out only when every live collector holds exactly cap targets,
  // all with smaller ids.
  lemma UnassignedMeansFull(score: Score, a: Slices, targets: set<int>, live: set<CollectorId>, cap: int, t: int)
    requires Stable(score, a, targets, live, cap)
    requires t in targets - Assigned(a, targets)
    ensures forall c | c in live :: |a[c]| == Room(cap) && forall x | x in a[c] :: x < t
  {
    forall c | c in live
      ensures |a[c]| == Room(cap) && forall x | x in a[c] :: x < t
    {
      assert Justified(score, a, t, c, cap);
      SubsetCard(Below(a[c], t), a[c]);
    }
  }

  function CeilDiv(n: nat, k: nat): nat
    requires k > 0
  {
    (n + k - 1) / k
  }

  function EffectiveCap(nTargets: nat, nLive: nat, maxPerShard: int): int {
    if nLive == 0 then maxPerShard else Min(maxPerShard, CeilDiv(nTargets, nLive))
  }

  lemma CeilDivIsLeast(n: nat, k: nat, m: nat)
    requires k > 0
    ensures CeilDiv(n, k) <= m <==> n <= k * m
  {
    var q := CeilDiv(n, k);
    assert k * q <= n + k - 1 < k * q + k;
    if q <= m {
      assert k * q <= k * m;
    } else {
      assert k * (m + 1) <= k * q;
    }
  }

  // With the effective cap, everything is assigned exactly when the fair share fits
  // under the hard cap; otherwise the shortfall is N - K * max, the manager's figure.
  lemma EffectiveCoverage(score: Score, a: Slices, targets: set<int>, live: set<CollectorId>, maxPerShard: nat)
    requires live != {}
    requires Stable(score, a, targets, live, EffectiveCap(|targets|, |live|, maxPerShard))
    ensures Assigned(a, targets) == targets <==> CeilDiv(|targets|, |live|) <= maxPerShard
    ensures Assigned(a, targets) != targets ==>
              |targets - Assigned(a, targets)| == |targets| - |live| * maxPerShard
  {
    var n, k := |targets|, |live|;
    assert k > 0;
    var cap := EffectiveCap(n, k, maxPerShard);
    AssignedCount(score, a, targets, live, cap);
    CeilDivIsLeast(n, k, maxPerShard);
    CeilDivIsLeast(n, k, CeilDiv(n, k));
    assert cap * k == k * cap;
    SubsetCard(Assigned(a, targets), targets);
    assert |targets - Assigned(a, targets)| == n - |Assigned(a, targets)|;
  }

  // ---- What the weights decide ----

  // At any collector with a higher weight for t than its own, or the same weight and a smaller
  // id, exactly cap targets with ids below t took every place.
  ghost predicate HeaviestFirst(score: Score, a: Slices, cap: int) {
    forall c, d, t | c in a && d in a && t in a[c]
                     && (score(t, d) > score(t, c) || (score(t, d) == score(t, c) && IdBefore(d, c))) ::
      |a[d]| == cap && forall x | x in a[d] :: x < t
  }

  lemma StableIsHeaviestFirst(score: Score, a: Slices, targets: set<int>, live: set<CollectorId>, cap: int)
    requires Stable(score, a, targets, live, cap)
    ensures HeaviestFirst(score, a, cap)
  {
    forall c, d, t | c in a && d in a && t in a[c]
                     && (score(t, d) > score(t, c) || (score(t, d) == score(t, c) && IdBefore(d, c)))
      ensures |a[d]| == cap && forall x | x in a[d] :: x < t
    {
      HeavierIsFull(score, a, targets, live, cap, t, c, d);
    }
  }

  lemma HeavierIsFull(score: Score, a: Slices, targets: set<int>, live: set<CollectorId>, cap: int, t: int,
                      c: CollectorId, d: CollectorId)
    requires Stable(score, a, targets, live, cap) && c in live && d in live && t in a[c]
    requires score(t, d) > score(t, c) || (score(t, d) == score(t, c) && IdBefore(d, c))
    ensures |a[d]| == cap && forall x | x in a[d] :: x < t
  {
    PrefersTotal(score, t, c, d);
    assert c != d by { IdBeforeTotal(c, d); }
    assert Justified(score, a, t, d, cap);
    assert !Prefers(score, t, c, d) && forall e | e in a && t in a[e] :: e == c;
    SubsetCard(Below(a[d], t), a[d]);
  }

  // The target with the least id sits on a collector of greatest weight.
  lemma LeastOnHeaviest(score: Score, a: Slices, targets: set<int>, live: set<CollectorId>, cap: int, t: int)
    requires Stable(score, a, targets, live, cap) && cap > 0 && live != {}
    requires t in targets && forall x | x in targets :: t <= x
    ensures exists c :: c in live && t in a[c] && forall d | d in live :: score(t, d) <= score(t, c)
  {
    if t in targets - Assigned(a, targets) {
      UnassignedMeansFull(score, a, targets, live, cap, t);
      var d := Pick(live);
      var x := Pick(a[d]);
    }
    var c :| c in a && t in a[c];
    forall d | d in live
      ensures score(t, d) <= score(t, c)
    {
      if score(t, d) > score(t, c) {
        HeavierIsFull(score, a, targets, live, cap, t, c, d);
        var x := Pick(a[d]);
        assert false;
      }
    }
  }

  // ---- What a new collector moves ----

  // Slices of one stable allocation before and one after x joins, at the same cap.
  ghost predicate Joins(score: Score, a: Slices, b: Slices, targets: set<int>, live: set<CollectorId>,
                        x: CollectorId, cap: int) {
    && x !in live
    && Stable(score, a, targets, live, cap)
    && Stable(score, b, targets, live + {x}, cap)
  }

  ghost predicate LighterBelow(a: Slices, b: Slices, live: set<CollectorId>, t: int)
    requires live <= a.Keys && live <= b.Keys
  {
    forall c | c in live :: |Below(b[c], t)| <= |Below(a[c], t)|
  }

  // If loads below t did not grow, t stays put or moves up its preference list.
  lemma MovesUp(score: Score, a: Slices, b: Slices, targets: set<int>, live: set<CollectorId>,
                x: CollectorId, cap: int, t: int, c: CollectorId)
    requires Joins(score, a, b, targets, live, x, cap) && LighterBelow(a, b, live, t)
    requires c in live && t in a[c]
    ensures t in b[c] || BetterOff(score, b, t, c)
  {
    RoomForSmaller(a[c], t, cap);
    assert Justified(score, b, t, c, cap);
  }

  // If t arrives at an existing collector, that collector had more smaller ids before.
  lemma ArrivalsFillGaps(score: Score, a: Slices, b: Slices, targets: set<int>, live: set<CollectorId>,
                         x: CollectorId, cap: int, t: int, d: CollectorId)
    requires Joins(score, a, b, targets, live, x, cap) && LighterBelow(a, b, live, t)
    requires d in live && t in b[d] && t !in a[d]
    ensures |Below(b[d], t)| < |Below(a[d], t)| == Room(cap)
  {
    RoomForSmaller(b[d], t, cap);
    assert Justified(score, a, t, d, cap);
    if BetterOff(score, a, t, d) {
      var e :| e in a && t in a[e] && Prefers(score, t, e, d);
      MovesUp(score, a, b, targets, live, x, cap, t, e);
      PrefersTotal(score, t, d, e);
      assert false;
    }
  }

  lemma {:induction false} LoadsNeverGrow(score: Score, a: Slices, b: Slices, targets: set<int>,
                                          live: set<CollectorId>, x: CollectorId, cap: int, t: int)
    requires Joins(score, a, b, targets, live, x, cap)
    ensures LighterBelow(a, b, live, t)
    decreases |Below(targets, t)|
  {
    if Below(targets, t) == {} {
      forall c | c in live
        ensures Below(b[c], t) == {}
      {
        assert forall y | y in Below(b[c], t) :: y in Below(targets, t);
      }
    } else {
      var m := Greatest(Below(targets, t));
      assert Below(targets, m) <= Below(targets, t) - {m};
      SubsetCard(Below(targets, m), Below(targets, t) - {m});
      LoadsNeverGrow(score, a, b, targets, live, x, cap, m);
      forall c | c in live
        ensures |Below(b[c], t)| <= |Below(a[c], t)|
      {
        OneMore(a[c], targets, m, t);
        OneMore(b[c], targets, m, t);
        if m in b[c] && m !in a[c] {
          ArrivalsFillGaps(score, a, b, targets, live, x, cap, m, c);
        }
      }
    }
  }

  // Adding a collector at a fixed cap: no existing load grows, and every assigned target
  // stays where it is or moves to a collector it prefers.
  lemma JoinMonotone(score: Score, a: Slices, b: Slices, targets: set<int>, live: set<CollectorId>,
                     x: CollectorId, cap: int)
    requires Joins(score, a, b, targets, live, x, cap)
    ensures forall c | c in live :: |b[c]| <= |a[c]|
    ensures forall t, c | c in live && t in a[c] :: t in b[c] || BetterOff(score, b, t, c)
    ensures Assigned(a, targets) <= Assigned(b, targets)
  {
    var top := if targets == {} then 0 else Greatest(targets) + 1;
    LoadsNeverGrow(score, a, b, targets, live, x, cap, top);
    forall c | c in live
      ensures |b[c]| <= |a[c]|
    {
      assert a[c] == Below(a[c], top) && b[c] == Below(b[c], top);
    }
    forall t, c | c in live && t in a[c]
      ensures t in b[c] || BetterOff(score, b, t, c)
    {
      LoadsNeverGrow(score, a, b, targets, live, x, cap, t);
      MovesUp(score, a, b, targets, live, x, cap, t, c);
    }
  }

  // The cap turned nobody away: each target is kept off a collector only by sitting on one
  // it prefers. A collector may well be at the cap.
  ghost predicate CapUnused(score: Score, a: Slices, targets: set<int>) {
    forall t, c {:trigger BetterOff(score, a, t, c)} | t in targets && c in a :: t in a[c] || BetterOff(score, a, t, c)
  }

  // c is the collector t prefers to every other.
  ghost predicate FirstChoice(score: Score, live: set<CollectorId>, t: int, c: CollectorId) {
    c in live && forall d | d in live && d != c :: Prefers(score, t, c, d)
  }

  ghost function FirstChoices(score: Score, targets: set<int>, live: set<CollectorId>, c: CollectorId): set<int> {
    set t | t in targets && FirstChoice(score, live, t, c)
  }

  lemma {:induction false} FirstChoiceExists(score: Score, live: set<CollectorId>, t: int) returns (c: CollectorId)
    requires live != {}
    ensures FirstChoice(score, live, t, c)
  {
    var x := Pick(live);
    var rest := live - {x};
    assert forall d | d in live :: d == x || d in rest;
    if rest == {} {
      c := x;
    } else {
      var y := FirstChoiceExists(score, rest, t);
      PrefersTotal(score, t, x, y);
      c := if Prefers(score, t, x, y) then x else y;
      forall d | d in live && d != c
        ensures Prefers(score, t, c, d)
      {
        if d in rest && d != y { PreferredChain(score, t, c, y, d); }
      }
    }
  }

  lemma PreferredChain(score: Score, t: int, c: CollectorId, d: CollectorId, e: CollectorId)
    requires (c == d || Prefers(score, t, c, d)) && Prefers(score, t, d, e)
    ensures Prefers(score, t, c, e)
  {
    if IdBefore(c, d) && IdBefore(d, e) { IdBeforeTransitive(c, d, e); }
  }

  // If no collector is the first choice of more targets than the cap, each gets its own.
  lemma {:induction false} FirstChoiceHeld(score: Score, a: Slices, targets: set<int>, live: set<CollectorId>, cap: int,
                                           t: int, c: CollectorId)
    requires Stable(score, a, targets, live, cap)
    requires forall d | d in live :: |FirstChoices(score, targets, live, d)| <= Room(cap)
    requires t in targets && FirstChoice(score, live, t, c)
    ensures t in a[c]
    decreases |Below(targets, t)|
  {
    if t !in a[c] {
      assert Justified(score, a, t, c, cap);
      NotBetterOff(score, a, live, t, c);
      forall y | y in Below(a[c], t)
        ensures y in FirstChoices(score, targets, live, c) - {t}
      {
        assert Below(targets, y) <= Below(targets, t) - {y};
        SubsetCard(Below(targets, y), Below(targets, t) - {y});
        var d := FirstChoiceExists(score, live, y);
        FirstChoiceHeld(score, a, targets, live, cap, y, d);
      }
      SubsetCard(Below(a[c], t), FirstChoices(score, targets, live, c) - {t});
      assert false;
    }
  }

  lemma NotBetterOff(score: Score, a: Slices, live: set<CollectorId>, t: int, c: CollectorId)
    requires a.Keys == live && FirstChoice(score, live, t, c)
    ensures !BetterOff(score, a, t, c)
  {
    forall d | d in a && Prefers(score, t, d, c)
      ensures false
    {
      PrefersTotal(score, t, c, d);
    }
  }

  // The cap turns nobody away if and only if no collector is the first choice of more
  // targets than the cap. A caller can tell from the weights alone.
  lemma CapUnusedIff(score: Score, a: Slices, targets: set<int>, live: set<CollectorId>, cap: int)
    requires Stable(score, a, targets, live, cap)
    ensures CapUnused(score, a, targets)
            <==> forall c | c in live :: |FirstChoices(score, targets, live, c)| <= Room(cap)
  {
    if CapUnused(score, a, targets) {
      forall c | c in live
        ensures |FirstChoices(score, targets, live, c)| <= Room(cap)
      {
        forall t | t in FirstChoices(score, targets, live, c)
          ensures t in a[c]
        {
          NotBetterOff(score, a, live, t, c);
          assert t in a[c] || BetterOff(score, a, t, c);
        }
        SubsetCard(FirstChoices(score, targets, live, c), a[c]);
      }
    } else if forall c | c in live :: |FirstChoices(score, targets, live, c)| <= Room(cap) {
      forall t, c | t in targets && c in a
        ensures t in a[c] || BetterOff(score, a, t, c)
      {
        var d := FirstChoiceExists(score, live, t);
        FirstChoiceHeld(score, a, targets, live, cap, t, d);
      }
    }
  }

  lemma NoneArrive(score: Score, a: Slices, b: Slices, targets: set<int>, live: set<CollectorId>,
                   x: CollectorId, cap: int, t: int, c: CollectorId)
    requires Joins(score, a, b, targets, live, x, cap) && CapUnused(score, a, targets)
    requires c in live && t in b[c]
    ensures t in a[c]
  {
    if t !in a[c] {
      assert BetterOff(score, a, t, c);
      var e :| e in a && t in a[e] && Prefers(score, t, e, c);
      LoadsNeverGrow(score, a, b, targets, live, x, cap, t);
      MovesUp(score, a, b, targets, live, x, cap, t, e);
      PrefersTotal(score, t, c, e);
      assert false;
    }
  }

  lemma OthersStay(score: Score, a: Slices, b: Slices, targets: set<int>, live: set<CollectorId>,
                   x: CollectorId, cap: int, t: int, c: CollectorId)
    requires Joins(score, a, b, targets, live, x, cap) && CapUnused(score, a, targets)
    requires c in live && t in a[c] && t !in b[x]
    ensures t in b[c]
  {
    LoadsNeverGrow(score, a, b, targets, live, x, cap, t);
    MovesUp(score, a, b, targets, live, x, cap, t, c);
    if t !in b[c] {
      var d :| d in b && t in b[d] && Prefers(score, t, d, c);
      NoneArrive(score, a, b, targets, live, x, cap, t, d);
      PrefersTotal(score, t, d, c);
      assert false;
    }
  }

  // When the cap turned nobody away, the newcomer is the only destination: read from
  // right to left, removing x moves only x's own targets.
  lemma JoinMovesOnlyOntoNewcomer(score: Score, a: Slices, b: Slices, targets: set<int>,
                                  live: set<CollectorId>, x: CollectorId, cap: int)
    requires Joins(score, a, b, targets, live, x, cap) && CapUnused(score, a, targets)
    ensures forall c | c in live :: a[c] - b[x] == b[c]
  {
    forall c | c in live
      ensures a[c] - b[x] == b[c]
    {
      forall t | t in b[c]
        ensures t in a[c] - b[x]
      {
        NoneArrive(score, a, b, targets, live, x, cap, t, c);
      }
      forall t | t in a[c] - b[x]
        ensures t in b[c]
      {
        OthersStay(score, a, b, targets, live, x, cap, t, c);
      }
    }
  }
}
