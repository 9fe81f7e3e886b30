/** Rack slot assignment (collector/src/location/placement.py, _assign_slots).

    Systems are referred to by their index in the input list. Those with an explicit rack
    unit are placed first, lowest unit first, then the others in input order. */
module RackPlacement {
  import opened Common

  // A missing and a zero value are alike: both are falsy in the source.
  datatype System = System(rackU: Option<int>, height: Option<int>)

  predicate Explicit(s: System) {
    s.rackU.Some? && s.rackU.value != 0
  }

  function HeightOf(s: System, default: int): (h: nat)
    ensures h >= 1
  {
    var h := if s.height.Some? && s.height.value != 0 then s.height.value else default;
    if h < 1 then 1 else h
  }

  // A system to place: where it came from, its height and the unit it asks for.
  datatype Item = Item(id: nat, height: nat, request: int)

  datatype Run = Run(start: int, height: nat)

  // occupied: rack unit -> system; runs: where each placed system sits.
  datatype Layout = Layout(occupied: map<int, nat>, runs: map<nat, Run>)

  const EMPTY := Layout(map[], map[])

  predicate InRun(r: Run, k: int) {
    r.start <= k < r.start + r.height
  }

  predicate FreeRun(occ: set<int>, u: int, h: nat) {
    forall k | u <= k < u + h :: k !in occ
  }

  function Clamp(request: int, maxStart: int): int {
    var u := if request < 1 then 1 else request;
    if u > maxStart then maxStart else u
  }

  // The scan upwards from u.
  function FirstFit(occ: set<int>, u: int, maxStart: int, h: nat): Option<int>
    decreases maxStart - u
  {
    if u > maxStart then None
    else if FreeRun(occ, u, h) then Some(u)
    else FirstFit(occ, u + 1, maxStart, h)
  }

  function PlaceFor(occ: set<int>, rackHeight: int, h: nat, request: int): Option<int> {
    if h > rackHeight then None
    else
      var maxStart := rackHeight - h + 1;
      FirstFit(occ, Clamp(request, maxStart), maxStart, h)
  }

  function Place(l: Layout, rackHeight: int, x: Item): Layout {
    match PlaceFor(l.occupied.Keys, rackHeight, x.height, x.request)
    case None => l
    case Some(u) =>
      var r := Run(u, x.height);
      Layout(map k | k in l.occupied.Keys + Units(r) :: if InRun(r, k) then x.id else l.occupied[k],
             l.runs[x.id := r])
  }

  function Units(r: Run): set<int> {
    set k | r.start <= k < r.start + r.height && InRun(r, k)
  }

  function PlaceAll(l: Layout, rackHeight: int, items: seq<Item>): Layout {
    if items == [] then l
    else Place(PlaceAll(l, rackHeight, items[..|items| - 1]), rackHeight, items[|items| - 1])
  }

  // ---- One placement ----

  lemma {:induction false} FirstFitIsLowest(occ: set<int>, u: int, maxStart: int, h: nat)
    ensures match FirstFit(occ, u, maxStart, h)
            case None => forall v | u <= v <= maxStart :: !FreeRun(occ, v, h)
            case Some(w) => u <= w <= maxStart && FreeRun(occ, w, h) && forall v | u <= v < w :: !FreeRun(occ, v, h)
    decreases maxStart - u
  {
    if u <= maxStart && !FreeRun(occ, u, h) {
      FirstFitIsLowest(occ, u + 1, maxStart, h);
    }
  }

  // The lowest free run at or above the clamped request; none only if there is none, or
  // if the system is taller than the rack.
  ghost predicate LowestFit(occ: set<int>, rackHeight: int, h: nat, request: int, r: Option<int>) {
    if h > rackHeight then r == None
    else
      var maxStart := rackHeight - h + 1;
      var from := Clamp(request, maxStart);
      match r
      case None => forall v | from <= v <= maxStart :: !FreeRun(occ, v, h)
      case Some(u) =>
        from <= u <= maxStart && FreeRun(occ, u, h) && forall v | from <= v < u :: !FreeRun(occ, v, h)
  }

  lemma PlaceForIsLowest(occ: set<int>, rackHeight: int, h: nat, request: int)
    ensures LowestFit(occ, rackHeight, h, request, PlaceFor(occ, rackHeight, h, request))
  {
    if h <= rackHeight {
      var maxStart := rackHeight - h + 1;
      FirstFitIsLowest(occ, Clamp(request, maxStart), maxStart, h);
    }
  }

  // The scan begins at the request, moved into the units where the system fits.
  lemma ClampIs(request: int, maxStart: int)
    requires maxStart >= 1
    ensures var u := Clamp(request, maxStart);
            && (request > maxStart ==> u == maxStart)
            && (request < 1 ==> u == 1)
            && (1 <= request <= maxStart ==> u == request)
  {
  }

  // A system whose own place is free gets it: the request itself, the bottom for a request
  // below the rack, and the highest fitting start for one above.
  lemma RequestHonoured(occ: set<int>, rackHeight: int, h: nat, request: int)
    requires 1 <= h <= rackHeight
    requires var top := rackHeight - h + 1;
             var u := if request > top then top else if request < 1 then 1 else request;
             forall k | u <= k < u + h :: k !in occ
    ensures var top := rackHeight - h + 1;
            PlaceFor(occ, rackHeight, h, request)
            == Some(if request > top then top else if request < 1 then 1 else request)
  {
    PlaceForIsLowest(occ, rackHeight, h, request);
  }

  // ---- The layout invariant ----

  ghost predicate RunOwnsUnits(l: Layout, rackHeight: int, i: nat)
    requires i in l.runs
  {
    var r := l.runs[i];
    && 1 <= r.start && r.start + r.height <= rackHeight + 1 && r.height >= 1
    && forall k | InRun(r, k) :: k in l.occupied && l.occupied[k] == i
  }

  ghost predicate UnitHasOwner(l: Layout, k: int)
    requires k in l.occupied
  {
    l.occupied[k] in l.runs && InRun(l.runs[l.occupied[k]], k)
  }

  // Runs lie inside the rack and own exactly the occupied units.
  ghost predicate Consistent(l: Layout, rackHeight: int) {
    && (forall i | i in l.runs :: RunOwnsUnits(l, rackHeight, i))
    && (forall k | k in l.occupied :: UnitHasOwner(l, k))
  }

  lemma PlaceConsistent(l: Layout, rackHeight: int, x: Item)
    requires Consistent(l, rackHeight) && x.id !in l.runs && x.height >= 1
    ensures var l' := Place(l, rackHeight, x);
            && Consistent(l', rackHeight)
            && l.occupied.Keys <= l'.occupied.Keys
            && (forall i | i in l.runs :: i in l'.runs && l'.runs[i] == l.runs[i])
            && (x.id in l'.runs <==> PlaceFor(l.occupied.Keys, rackHeight, x.height, x.request).Some?)
            && l'.runs.Keys <= l.runs.Keys + {x.id}
  {
    PlaceForIsLowest(l.occupied.Keys, rackHeight, x.height, x.request);
    var l' := Place(l, rackHeight, x);
    if l' != l {
      forall i | i in l'.runs
        ensures RunOwnsUnits(l', rackHeight, i)
      {
        if i in l.runs { assert RunOwnsUnits(l, rackHeight, i); }
      }
      forall k | k in l'.occupied
        ensures UnitHasOwner(l', k)
      {
        if k in l.occupied { assert UnitHasOwner(l, k); }
      }
    }
  }

  function Ids(items: seq<Item>): set<nat> {
    if items == [] then {} else Ids(items[..|items| - 1]) + {items[|items| - 1].id}
  }

  // No system twice, and every height at least one unit.
  ghost predicate WellFormed(items: seq<Item>) {
    items != [] ==>
      var last := items[|items| - 1];
      last.id !in Ids(items[..|items| - 1]) && last.height >= 1 && WellFormed(items[..|items| - 1])
  }

  lemma {:induction false} AllConsistent(rackHeight: int, items: seq<Item>)
    requires WellFormed(items)
    ensures Consistent(PlaceAll(EMPTY, rackHeight, items), rackHeight)
    ensures PlaceAll(EMPTY, rackHeight, items).runs.Keys <= Ids(items)
    decreases |items|
  {
    if items != [] {
      var n := |items| - 1;
      AllConsistent(rackHeight, items[..n]);
      PlaceConsistent(PlaceAll(EMPTY, rackHeight, items[..n]), rackHeight, items[n]);
    }
  }

  // Placed systems occupy pairwise disjoint runs inside the rack, and the occupied units
  // are exactly those of the runs.
  lemma RunsPartitionOccupied(rackHeight: int, items: seq<Item>)
    requires WellFormed(items)
    ensures var l := PlaceAll(EMPTY, rackHeight, items);
            && (forall i, j | i in l.runs && j in l.runs && i != j :: Units(l.runs[i]) !! Units(l.runs[j]))
            && (forall k :: k in l.occupied <==> exists i :: i in l.runs && InRun(l.runs[i], k))
            && (forall i, k | i in l.runs && InRun(l.runs[i], k) :: 1 <= k <= rackHeight && k in l.occupied
                                                                     && l.occupied[k] == i)
  {
    AllConsistent(rackHeight, items);
    var l := PlaceAll(EMPTY, rackHeight, items);
    forall i, k | i in l.runs && InRun(l.runs[i], k)
      ensures 1 <= k <= rackHeight && k in l.occupied && l.occupied[k] == i
    {
      assert RunOwnsUnits(l, rackHeight, i);
    }
    forall i, j | i in l.runs && j in l.runs && i != j
      ensures Units(l.runs[i]) !! Units(l.runs[j])
    {
      forall k | k in Units(l.runs[i])
        ensures k !in Units(l.runs[j])
      {
        assert InRun(l.runs[i], k);
      }
    }
    forall k | k in l.occupied
      ensures exists i :: i in l.runs && InRun(l.runs[i], k)
    {
      assert UnitHasOwner(l, k);
    }
  }

  // ---- Every placement, seen from the final layout ----

  function StartOf(l: Layout, id: nat): Option<int> {
    if id in l.runs then Some(l.runs[id].start) else None
  }

  lemma {:induction false} IdOfMember(items: seq<Item>, n: nat)
    requires n < |items|
    ensures items[n].id in Ids(items)
    decreases |items|
  {
    if n < |items| - 1 { IdOfMember(items[..|items| - 1], n); }
  }

  // Each system sits at the lowest free run at or above its clamped request given the
  // systems placed before it, and later placements leave it there.
  lemma {:induction false} EachLowest(rackHeight: int, items: seq<Item>, n: nat)
    requires WellFormed(items) && n < |items|
    ensures LowestFit(PlaceAll(EMPTY, rackHeight, items[..n]).occupied.Keys, rackHeight, items[n].height,
                      items[n].request, StartOf(PlaceAll(EMPTY, rackHeight, items), items[n].id))
    ensures PlaceAll(EMPTY, rackHeight, items[..n]).occupied.Keys <= PlaceAll(EMPTY, rackHeight, items).occupied.Keys
    decreases |items|
  {
    var last := |items| - 1;
    var init := items[..last];
    var l := PlaceAll(EMPTY, rackHeight, init);
    AllConsistent(rackHeight, init);
    PlaceConsistent(l, rackHeight, items[last]);
    if n == last {
      PlaceForIsLowest(l.occupied.Keys, rackHeight, items[n].height, items[n].request);
    } else {
      assert init[..n] == items[..n] && init[n] == items[n];
      EachLowest(rackHeight, init, n);
      IdOfMember(init, n);
    }
  }

  // A floating system is left out only if no free run of its height exists anywhere in
  // the rack, and in the final layout there still is none.
  lemma FloatingLeftOutOnlyWhenFull(rackHeight: int, items: seq<Item>, n: nat)
    requires WellFormed(items) && n < |items| && items[n].request == 1
    requires StartOf(PlaceAll(EMPTY, rackHeight, items), items[n].id) == None
    ensures forall u | 1 <= u && u + items[n].height <= rackHeight + 1 ::
              !FreeRun(PlaceAll(EMPTY, rackHeight, items).occupied.Keys, u, items[n].height)
  {
    EachLowest(rackHeight, items, n);
    var before := PlaceAll(EMPTY, rackHeight, items[..n]).occupied.Keys;
    forall u | 1 <= u && u + items[n].height <= rackHeight + 1
      ensures !FreeRun(PlaceAll(EMPTY, rackHeight, items).occupied.Keys, u, items[n].height)
    {
      assert !FreeRun(before, u, items[n].height);
    }
  }

  // A system is left out exactly when it is taller than the rack or no free run at or above
  // its clamped request was left by the systems placed before it.
  lemma LeftOutIff(rackHeight: int, items: seq<Item>, n: nat)
    requires WellFormed(items) && n < |items|
    ensures var x := items[n];
            var maxStart := rackHeight - x.height + 1;
            StartOf(PlaceAll(EMPTY, rackHeight, items), x.id) == None
            <==> || x.height > rackHeight
                 || (forall u | Clamp(x.request, maxStart) <= u <= maxStart ::
                       !FreeRun(PlaceAll(EMPTY, rackHeight, items[..n]).occupied.Keys, u, x.height))
  {
    EachLowest(rackHeight, items, n);
  }

  // So a system that names a unit can be left out of a rack that is not full, although the
  // source's comments say that only a full rack leaves one out: two systems asking for the
  // top unit of any rack of at least two units.
  lemma TopUnitTakenTwice(rackHeight: int)
    requires rackHeight >= 2
    ensures var l := PlaceAll(EMPTY, rackHeight, [Item(0, 1, rackHeight), Item(1, 1, rackHeight)]);
            StartOf(l, 1) == None && FreeRun(l.occupied.Keys, 1, 1)
  {
    var x, y := Item(0, 1, rackHeight), Item(1, 1, rackHeight);
    assert [x, y][..1] == [x] && [x][..0] == [];
    var one := PlaceAll(EMPTY, rackHeight, [x]);
    assert PlaceAll(EMPTY, rackHeight, []) == EMPTY;
    assert one == Place(EMPTY, rackHeight, x);
    PlaceForIsLowest({}, rackHeight, 1, rackHeight);
    assert FreeRun({}, rackHeight, 1);
    assert InRun(Run(rackHeight, 1), rackHeight) && rackHeight in one.occupied;
    PlaceForIsLowest(one.occupied.Keys, rackHeight, 1, rackHeight);
    assert PlaceAll(EMPTY, rackHeight, [x, y]) == Place(one, rackHeight, y);
  }

  // ---- The order of placement ----

  function ItemOf(systems: seq<System>, i: nat, default: int): Item
    requires i < |systems|
  {
    Item(i, HeightOf(systems[i], default), if Explicit(systems[i]) then systems[i].rackU.value else 1)
  }

  // What is placed for a system: it asks for the unit it names, or for the lowest if it names
  // none or zero; its height is the one it states, or the default if it states none or zero,
  // and never less than one.
  lemma ItemIs(systems: seq<System>, i: nat, default: int)
    requires i < |systems|
    ensures var s, x := systems[i], ItemOf(systems, i, default);
            && x.id == i
            && (s.rackU.Some? && s.rackU.value != 0 ==> x.request == s.rackU.value && Explicit(s))
            && (s.rackU == None || s.rackU == Some(0) ==> x.request == 1 && !Explicit(s))
            && (s.height.Some? && s.height.value >= 1 ==> x.height == s.height.value)
            && (s.height.Some? && s.height.value < 0 ==> x.height == 1)
            && (s.height == None || s.height == Some(0) ==> x.height == if default >= 1 then default else 1)
  {
  }

  // The first n systems that do or do not name a unit, in input order.
  function Chosen(systems: seq<System>, n: nat, wantExplicit: bool, default: int): seq<Item>
    requires n <= |systems|
  {
    if n == 0 then []
    else
      var init := Chosen(systems, n - 1, wantExplicit, default);
      if Explicit(systems[n - 1]) == wantExplicit then init + [ItemOf(systems, n - 1, default)] else init
  }

  // sorted(..., key=rack_u) is stable: insert after every item with the same or a lower unit.
  function InsertByRequest(x: Item, s: seq<Item>): seq<Item> {
    if s == [] || s[|s| - 1].request <= x.request then s + [x]
    else InsertByRequest(x, s[..|s| - 1]) + [s[|s| - 1]]
  }

  function SortByRequest(s: seq<Item>): seq<Item> {
    if s == [] then [] else InsertByRequest(s[|s| - 1], SortByRequest(s[..|s| - 1]))
  }

  function PlacementOrder(systems: seq<System>, default: int): seq<Item> {
    SortByRequest(Chosen(systems, |systems|, true, default)) + Chosen(systems, |systems|, false, default)
  }

  ghost predicate Sorted(s: seq<Item>) {
    |s| >= 2 ==> s[|s| - 2].request <= s[|s| - 1].request && Sorted(s[..|s| - 1])
  }

  // Every item describes the system it names.
  ghost predicate DescribesAll(s: seq<Item>, systems: seq<System>, default: int) {
    s != [] ==>
      var last := s[|s| - 1];
      && last.id < |systems| && last == ItemOf(systems, last.id, default)
      && DescribesAll(s[..|s| - 1], systems, default)
  }

  function Indices(n: nat): set<nat> {
    if n == 0 then {} else Indices(n - 1) + {n - 1}
  }

  lemma {:induction false} IndicesOk(n: nat)
    ensures |Indices(n)| == n && forall i: nat :: i in Indices(n) <==> i < n
  {
    if n > 0 { IndicesOk(n - 1); }
  }

  lemma {:induction false} InsertIds(x: Item, s: seq<Item>)
    ensures |InsertByRequest(x, s)| == |s| + 1 && Ids(InsertByRequest(x, s)) == Ids(s) + {x.id}
    decreases |s|
  {
    var r := InsertByRequest(x, s);
    if s == [] || s[|s| - 1].request <= x.request {
      assert r[..|r| - 1] == s;
    } else {
      InsertIds(x, s[..|s| - 1]);
      assert r[..|r| - 1] == InsertByRequest(x, s[..|s| - 1]);
    }
  }

  lemma {:induction false} InsertSorts(x: Item, s: seq<Item>)
    requires Sorted(s)
    ensures Sorted(InsertByRequest(x, s))
    decreases |s|
  {
    var r := InsertByRequest(x, s);
    if s == [] || s[|s| - 1].request <= x.request {
      assert r[..|r| - 1] == s;
    } else {
      InsertIds(x, s[..|s| - 1]);
      InsertSorts(x, s[..|s| - 1]);
      assert r[..|r| - 1] == InsertByRequest(x, s[..|s| - 1]);
    }
  }

  lemma {:induction false} InsertDescribes(x: Item, s: seq<Item>, systems: seq<System>, default: int)
    requires DescribesAll(s, systems, default)
    requires x.id < |systems| && x == ItemOf(systems, x.id, default)
    ensures DescribesAll(InsertByRequest(x, s), systems, default)
    decreases |s|
  {
    var r := InsertByRequest(x, s);
    if s == [] || s[|s| - 1].request <= x.request {
      assert r[..|r| - 1] == s;
    } else {
      InsertDescribes(x, s[..|s| - 1], systems, default);
      assert r[..|r| - 1] == InsertByRequest(x, s[..|s| - 1]);
    }
  }

  lemma {:induction false} SortKeeps(s: seq<Item>, systems: seq<System>, default: int)
    requires DescribesAll(s, systems, default)
    ensures var r := SortByRequest(s);
            && |r| == |s| && Ids(r) == Ids(s)
            && Sorted(r) && DescribesAll(r, systems, default)
    decreases |s|
  {
    if s != [] {
      var n := |s| - 1;
      SortKeeps(s[..n], systems, default);
      var r := SortByRequest(s[..n]);
      InsertIds(s[n], r);
      InsertSorts(s[n], r);
      InsertDescribes(s[n], r, systems, default);
    }
  }

  lemma {:induction false} ConcatKeeps(a: seq<Item>, b: seq<Item>, systems: seq<System>, default: int)
    requires DescribesAll(a, systems, default) && DescribesAll(b, systems, default)
    ensures Ids(a + b) == Ids(a) + Ids(b) && DescribesAll(a + b, systems, default)
    decreases |b|
  {
    if b == [] {
      assert a + b == a;
    } else {
      var n := |b| - 1;
      assert (a + b)[..|a + b| - 1] == a + b[..n] && (a + b)[|a + b| - 1] == b[n];
      ConcatKeeps(a, b[..n], systems, default);
    }
  }

  lemma {:induction false} DescribedWellFormed(s: seq<Item>, systems: seq<System>, default: int)
    requires DescribesAll(s, systems, default)
    ensures |Ids(s)| <= |s|
    ensures |Ids(s)| == |s| ==> WellFormed(s)
    decreases |s|
  {
    if s != [] { DescribedWellFormed(s[..|s| - 1], systems, default); }
  }

  lemma {:induction false} ChosenDescribe(systems: seq<System>, n: nat, want: bool, default: int)
    requires n <= |systems|
    ensures DescribesAll(Chosen(systems, n, want, default), systems, default)
  {
    if n > 0 {
      var m := n - 1;
      ChosenDescribe(systems, m, want, default);
      ChosenNext(systems, m, want, default);
      DescribesOneMore(Chosen(systems, m, want, default), m, systems, default);
      assert Chosen(systems, m, want, default) + [] == Chosen(systems, m, want, default);
    }
  }

  lemma DescribesOneMore(s: seq<Item>, i: nat, systems: seq<System>, default: int)
    requires DescribesAll(s, systems, default) && i < |systems|
    ensures DescribesAll(s + [ItemOf(systems, i, default)], systems, default)
  {
    assert (s + [ItemOf(systems, i, default)])[..|s|] == s;
  }

  lemma ChosenNext(systems: seq<System>, n: nat, want: bool, default: int)
    requires n < |systems|
    ensures Chosen(systems, n + 1, want, default)
            == Chosen(systems, n, want, default)
               + if Explicit(systems[n]) == want then [ItemOf(systems, n, default)] else []
  {
  }

  lemma IdsSnoc(s: seq<Item>, x: Item)
    ensures Ids(s + [x]) == Ids(s) + {x.id}
  {
    assert (s + [x])[..|s|] == s;
  }

  lemma {:induction false} ChosenIds(systems: seq<System>, n: nat, default: int)
    requires n <= |systems|
    ensures var e, f := Chosen(systems, n, true, default), Chosen(systems, n, false, default);
            |e| + |f| == n && Ids(e) + Ids(f) == Indices(n)
  {
    if n > 0 {
      var m := n - 1;
      ChosenIds(systems, m, default);
      var e, f := Chosen(systems, m, true, default), Chosen(systems, m, false, default);
      var x := ItemOf(systems, m, default);
      ChosenNext(systems, m, true, default);
      ChosenNext(systems, m, false, default);
      IdsSnoc(e, x);
      IdsSnoc(f, x);
      assert e + [] == e && f + [] == f;
    }
  }

  // The order lists every system exactly once as it is, those naming a unit first and by
  // ascending unit; so it meets what the placement theorems ask for.
  lemma PlacementOrderOk(systems: seq<System>, default: int)
    ensures var order := PlacementOrder(systems, default);
            && |order| == |systems| && Ids(order) == Indices(|systems|)
            && WellFormed(order) && DescribesAll(order, systems, default)
            && Sorted(SortByRequest(Chosen(systems, |systems|, true, default)))
  {
    var e, f := Chosen(systems, |systems|, true, default), Chosen(systems, |systems|, false, default);
    var s := SortByRequest(e);
    ChosenIds(systems, |systems|, default);
    ChosenDescribe(systems, |systems|, true, default);
    ChosenDescribe(systems, |systems|, false, default);
    SortKeeps(e, systems, default);
    ConcatKeeps(s, f, systems, default);
    IndicesOk(|systems|);
    DescribedWellFormed(s + f, systems, default);
  }

  // ---- The source's loops ----

  class Rack {
    const rackHeight: int
    var occupied: map<int, nat>
    var startU: array<Option<int>>   // written back to each system
    ghost var runs: map<nat, Run>

    ghost predicate Valid()
      reads this, startU
    {
      && (forall i | 0 <= i < startU.Length :: startU[i] == StartOf(Layout(occupied, runs), i))
      && (forall i | i in runs :: i < startU.Length)
    }

    constructor (height: int, n: nat)
      ensures Valid() && fresh(startU) && startU.Length == n && rackHeight == height
      ensures Layout(occupied, runs) == EMPTY
    {
      rackHeight, occupied, runs := height, map[], map[];
      startU := new Option<int>[n](_ => None);
    }

    method TestRun(u: int, h: nat) returns (free: bool)
      ensures free == FreeRun(occupied.Keys, u, h)
    {
      var i := 0;
      while i < h
        invariant 0 <= i <= h
        invariant forall k | u <= k < u + i :: k !in occupied
      {
        if u + i in occupied { return false; }
        i := i + 1;
      }
      return true;
    }

    method FillRun(u: int, h: nat, id: nat)
      modifies this`occupied
      ensures occupied == map k | k in old(occupied).Keys + Units(Run(u, h)) ::
                            if InRun(Run(u, h), k) then id else old(occupied)[k]
    {
      var i := 0;
      while i < h
        invariant 0 <= i <= h
        invariant occupied == map k | k in old(occupied).Keys + Units(Run(u, i)) ::
                                if InRun(Run(u, i), k) then id else old(occupied)[k]
      {
        occupied := occupied[u + i := id];
        i := i + 1;
      }
    }

    // The scan for a free run.
    method FindRun(x: Item) returns (start: Option<int>)
      ensures start == PlaceFor(occupied.Keys, rackHeight, x.height, x.request)
    {
      if x.height > rackHeight { return None; }
      var maxStart := rackHeight - x.height + 1;
      var u := Clamp(x.request, maxStart);
      while u <= maxStart
        invariant FirstFit(occupied.Keys, u, maxStart, x.height)
                  == PlaceFor(occupied.Keys, rackHeight, x.height, x.request)
        decreases maxStart - u
      {
        var free := TestRun(u, x.height);
        if free { return Some(u); }
        u := u + 1;
      }
      return None;
    }

    method PlaceSystem(x: Item)
      requires Valid() && x.id < startU.Length && x.id !in runs
      modifies this`occupied, this`runs, startU
      ensures Valid() && startU == old(startU)
      ensures Layout(occupied, runs) == Place(old(Layout(occupied, runs)), rackHeight, x)
    {
      var start := FindRun(x);
      if start.Some? {
        FillRun(start.value, x.height, x.id);
        runs := runs[x.id := Run(start.value, x.height)];
      }
      startU[x.id] := start;
    }

    method AssignSlots(systems: seq<System>, default: int)
      requires Valid() && Layout(occupied, runs) == EMPTY && startU.Length == |systems|
      modifies this`occupied, this`runs, startU
      ensures Valid() && startU == old(startU)
      ensures Layout(occupied, runs) == PlaceAll(EMPTY, rackHeight, PlacementOrder(systems, default))
    {
      var order := PlacementOrder(systems, default);
      PlacementOrderOk(systems, default);
      var n := 0;
      assert order[..0] == [];
      while n < |order|
        invariant 0 <= n <= |order|
        invariant Valid() && startU == old(startU) && startU.Length == |systems|
        invariant Layout(occupied, runs) == PlaceAll(EMPTY, rackHeight, order[..n])
      {
        NextIsNew(rackHeight, order, n, |systems|);
        PlaceSystem(order[n]);
        n := n + 1;
        PlaceAllNext(rackHeight, order, n - 1, n);
      }
      assert order[..n] == order;
    }
  }

  lemma PlaceAllNext(rackHeight: int, order: seq<Item>, n: nat, next: nat)
    requires n < |order| && next == n + 1
    ensures PlaceAll(EMPTY, rackHeight, order[..next])
            == Place(PlaceAll(EMPTY, rackHeight, order[..n]), rackHeight, order[n])
  {
    assert order[..next][..n] == order[..n];
  }

  lemma NextIsNew(rackHeight: int, order: seq<Item>, n: nat, count: nat)
    requires WellFormed(order) && Ids(order) == Indices(count) && n < |order|
    ensures order[n].id < count && order[n].id !in PlaceAll(EMPTY, rackHeight, order[..n]).runs
  {
    IdOfMember(order, n);
    IndicesOk(count);
    PrefixWellFormed(order, n + 1);
    assert order[..n + 1][..n] == order[..n];
    AllConsistent(rackHeight, order[..n]);
  }

  lemma {:induction false} PrefixWellFormed(s: seq<Item>, n: nat)
    requires WellFormed(s) && n <= |s|
    ensures WellFormed(s[..n])
    decreases |s|
  {
    if n == |s| {
      assert s[..n] == s;
    } else {
      PrefixWellFormed(s[..|s| - 1], n);
      assert s[..|s| - 1][..n] == s[..n];
    }
  }
}
