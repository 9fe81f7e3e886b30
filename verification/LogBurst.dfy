/** What a pull loses when more arrived than it may keep (collector/src/redfish/log_baseline.py,
    order_members_newest_first and the cursor tests of _pull_collection). */
module LogBurst {
  import opened Common
  import opened AlertStore
  import opened LogIngest
  import opened LogFeed

  // Listed later than the cursor.
  predicate After(m: Member, cursor: Option<int>) {
    cursor.None? || (m.created.Some? && m.created.value > cursor.value)
  }

  function CountAfter(s: seq<Member>, cursor: Option<int>): nat {
    if s == [] then 0
    else CountAfter(s[..|s| - 1], cursor) + if After(s[|s| - 1], cursor) then 1 else 0
  }

  // Times are whole microseconds, so later than the cursor is at or after the next one.
  function Next(cursor: Option<int>): Option<int> {
    if cursor.None? then None else Some(cursor.value + 1)
  }

  lemma {:induction false} CountAfterIsFromNext(s: seq<Member>, cursor: Option<int>)
    ensures CountAfter(s, cursor) == CountFrom(s, Next(cursor))
  {
    if s != [] { CountAfterIsFromNext(s[..|s| - 1], cursor); }
  }

  // Every entry listed after the cursor is wanted and new, and none has the key of another.
  ghost predicate AllNew(r: Render, listing: seq<Member>, cursor: Option<int>, saved: set<Key>) {
    listing != [] ==>
      var m, init := listing[|listing| - 1], listing[..|listing| - 1];
      && AllNew(r, init, cursor, saved)
      && (After(m, cursor) ==> Wanted(m) && KeyOf(r, m) !in saved && KeyOf(r, m) !in NewKeys(r, init, cursor))
  }

  ghost function NewKeys(r: Render, listing: seq<Member>, cursor: Option<int>): set<Key> {
    if listing == [] then {}
    else
      var m, init := listing[|listing| - 1], listing[..|listing| - 1];
      NewKeys(r, init, cursor) + if After(m, cursor) then {KeyOf(r, m)} else {}
  }

  lemma WantedInit(r: Render, listing: seq<Member>, init: seq<Member>, m: Member)
    requires listing != [] && init == listing[..|listing| - 1] && m == listing[|listing| - 1]
    ensures WantedKeys(r, init) <= WantedKeys(r, listing)
    ensures Wanted(m) ==> KeyOf(r, m) in WantedKeys(r, listing)
  {
    assert forall x | x in init :: x in listing;
    assert m in listing;
  }

  lemma {:induction false} NewKeysCount(r: Render, listing: seq<Member>, cursor: Option<int>, saved: set<Key>)
    requires AllNew(r, listing, cursor, saved)
    ensures |NewKeys(r, listing, cursor)| == CountAfter(listing, cursor)
    ensures NewKeys(r, listing, cursor) !! saved
    ensures NewKeys(r, listing, cursor) <= WantedKeys(r, listing)
  {
    if listing != [] {
      var init := listing[..|listing| - 1];
      var m := listing[|listing| - 1];
      NewKeysCount(r, init, cursor, saved);
      WantedInit(r, listing, init, m);
      if After(m, cursor) {
        assert |NewKeys(r, init, cursor) + {KeyOf(r, m)}| == |NewKeys(r, init, cursor)| + 1;
      }
    }
  }

  lemma {:induction false} KeysOfBound(r: Render, alerts: seq<Alert>)
    ensures |KeysOf(r, alerts)| <= |alerts|
  {
    if alerts != [] { KeysOfBound(r, alerts[1..]); }
  }

  lemma AtMostCapEmitted(r: Render, listing: seq<Member>, cursor: Option<int>, known: set<string>, maxEntries: nat)
    ensures |KeysOf(r, Emitted(Kept(listing, maxEntries), cursor, known))| <= maxEntries
  {
    var kept := Kept(listing, maxEntries);
    EmittedLength(kept, cursor, known);
    KeysOfBound(r, Emitted(kept, cursor, known));
  }

  lemma NewKeysEmitted(r: Render, f: Feed, listing: seq<Member>, known: set<string>, maxEntries: nat)
    requires Elements(listing) == Elements(f.log) && AllNew(r, listing, f.cursor, Saved(r, f))
    requires AllSaved(r, Apply(r, f, Pull(listing, known), maxEntries))
    ensures NewKeys(r, listing, f.cursor) <= KeysOf(r, Emitted(Kept(listing, maxEntries), f.cursor, known))
  {
    var emitted := Emitted(Kept(listing, maxEntries), f.cursor, known);
    SavedByPull(r, f, listing, known, maxEntries);
    NewKeysCount(r, listing, f.cursor, Saved(r, f));
    forall k | k in NewKeys(r, listing, f.cursor)
      ensures k in KeysOf(r, emitted)
    {
      assert k in WantedKeys(r, listing);
      var x :| x in listing && Wanted(x) && k == KeyOf(r, x);
      assert x in Elements(f.log);
    }
  }

  // A burst: what is wanted of the entries after the cursor is new, and what is wanted at the
  // cursor is saved, as a complete pull leaves it. Entries of an unwanted severity may come in
  // any number; they too use up the cap.
  ghost predicate Burst(r: Render, f: Feed, listing: seq<Member>) {
    && Elements(listing) == Elements(f.log)
    && (forall x | x in f.log :: x.created.Some? && Agrees(x))
    && (forall x | x in f.log && Wanted(x) && After(x, f.cursor) :: KeyOf(r, x) !in Saved(r, f))
    && (forall x, y | x in f.log && y in f.log && Wanted(x) && Wanted(y) && After(x, f.cursor) && After(y, f.cursor)
                      && KeyOf(r, x) == KeyOf(r, y) :: x == y)
    && (forall x | x in f.log && Wanted(x) && x.created == f.cursor :: KeyOf(r, x) in Saved(r, f))
  }

  lemma UnsavedIsNew(r: Render, f: Feed, listing: seq<Member>, base: set<Key>, x: Member)
    requires Inv(r, f, base) && Burst(r, f, listing) && x in f.log && Wanted(x) && KeyOf(r, x) !in Saved(r, f)
    ensures x in listing && After(x, f.cursor)
  {
    assert x in Elements(listing);
  }

  lemma KeptIsEmitted(r: Render, f: Feed, listing: seq<Member>, known: set<string>, maxEntries: nat, x: Member)
    requires x.created.Some? && Agrees(x) && Wanted(x) && After(x, f.cursor) && x in Kept(listing, maxEntries)
    ensures KeyOf(r, x) in KeysOf(r, Emitted(Kept(listing, maxEntries), f.cursor, known))
  {
    var kept := Kept(listing, maxEntries);
    var i :| 0 <= i < |kept| && kept[i] == x;
    EmittedHas(r, kept, f.cursor, known, i);
  }

  // After a burst a new wanted entry is saved exactly when the cap keeps it.
  lemma SavedIffKept(r: Render, f: Feed, listing: seq<Member>, known: set<string>, maxEntries: nat, base: set<Key>,
                     x: Member)
    requires Inv(r, f, base) && Burst(r, f, listing) && x in f.log && Wanted(x) && After(x, f.cursor)
    ensures KeyOf(r, x) in Saved(r, Apply(r, f, Pull(listing, known), maxEntries)) <==> x in Kept(listing, maxEntries)
  {
    SavedByPull(r, f, listing, known, maxEntries);
    if x in Kept(listing, maxEntries) {
      KeptIsEmitted(r, f, listing, known, maxEntries, x);
    } else if KeyOf(r, x) in KeysOf(r, Emitted(Kept(listing, maxEntries), f.cursor, known)) {
      var y := EmittedOnly(r, Kept(listing, maxEntries), f.cursor, known, KeyOf(r, x));
      KeptAreMembers(listing, maxEntries, y);
      assert y in Elements(listing);
      UnsavedIsNew(r, f, listing, base, y);
      assert false;
    }
  }

  // So the pull saves everything if and only if each new wanted entry is among the first
  // maxEntries of the listing, newest first.
  lemma PullCompleteIffKept(r: Render, f: Feed, listing: seq<Member>, known: set<string>, maxEntries: nat,
                            base: set<Key>)
    requires Inv(r, f, base) && Burst(r, f, listing)
    ensures AllSaved(r, Apply(r, f, Pull(listing, known), maxEntries))
            <==> forall x | x in listing && Wanted(x) && After(x, f.cursor) :: x in Kept(listing, maxEntries)
  {
    var after := Apply(r, f, Pull(listing, known), maxEntries);
    SavedByPull(r, f, listing, known, maxEntries);
    forall x | x in f.log && Wanted(x) && KeyOf(r, x) !in Saved(r, f)
      ensures x in listing && After(x, f.cursor)
    {
      UnsavedIsNew(r, f, listing, base, x);
    }
    forall x | x in listing && Wanted(x) && After(x, f.cursor)
      ensures x in f.log
      ensures KeyOf(r, x) in Saved(r, after) <==> x in Kept(listing, maxEntries)
    {
      assert x in Elements(listing);
      SavedIffKept(r, f, listing, known, maxEntries, base, x);
    }
  }

  // ---- What the cap keeps, in counts ----

  lemma {:induction false} CountUpTo(s: seq<Member>, cursor: Option<int>)
    ensures CountFrom(s, cursor) <= |s|
  {
    if s != [] { CountUpTo(s[..|s| - 1], cursor); }
  }

  // In descending order, what is listed after s[i]'s time comes before it.
  lemma {:induction false} NewerComeFirst(s: seq<Member>, i: nat)
    requires Descending(s) && i < |s| && s[i].created.Some?
    ensures CountFrom(s, Next(s[i].created)) <= i
    decreases |s|
  {
    var init := s[..|s| - 1];
    if i < |s| - 1 {
      DescendingApart(s, i, |s| - 1);
      NewerComeFirst(init, i);
    } else {
      CountUpTo(init, Next(s[i].created));
    }
  }

  // A row that shares its time with no other is kept exactly when fewer than maxEntries rows
  // are listed after it.
  lemma KeptIffFewNewer(listing: seq<Member>, maxEntries: nat, x: Member)
    requires x in listing && x.created.Some?
    requires CountFrom(listing, x.created) == CountAfter(listing, x.created) + 1
    ensures x in Kept(listing, maxEntries) <==> CountAfter(listing, x.created) < maxEntries
  {
    var s := NewestFirst(listing);
    CountAfterIsFromNext(listing, x.created);
    NewestFirstDescends(listing, x.created);
    NewestFirstDescends(listing, Next(x.created));
    if CountAfter(listing, x.created) < maxEntries {
      CapKeepsRecent(listing, x.created, maxEntries, x);
    } else if x in Kept(listing, maxEntries) {
      var i :| 0 <= i < |Kept(listing, maxEntries)| && Kept(listing, maxEntries)[i] == x;
      NewerComeFirst(s, i);
    }
  }

  // If no two rows after the cursor show the same time: the pull saves everything if and only
  // if each new wanted entry has fewer than maxEntries rows, wanted or not, after it.
  lemma PullCompleteIffFewNewer(r: Render, f: Feed, listing: seq<Member>, known: set<string>, maxEntries: nat,
                                base: set<Key>)
    requires Inv(r, f, base) && Burst(r, f, listing)
    requires forall x | x in listing && After(x, f.cursor) ::
               CountFrom(listing, x.created) == CountAfter(listing, x.created) + 1
    ensures AllSaved(r, Apply(r, f, Pull(listing, known), maxEntries))
            <==> forall x | x in listing && Wanted(x) && After(x, f.cursor) ::
                   CountAfter(listing, x.created) < maxEntries
  {
    PullCompleteIffKept(r, f, listing, known, maxEntries, base);
    forall x | x in listing && Wanted(x) && After(x, f.cursor)
      ensures x in Kept(listing, maxEntries) <==> CountAfter(listing, x.created) < maxEntries
    {
      assert x in Elements(listing);
      KeptIffFewNewer(listing, maxEntries, x);
    }
  }

  // ---- When everything that arrived is wanted ----

  lemma WithinCapSaves(r: Render, f: Feed, listing: seq<Member>, known: set<string>, maxEntries: nat, base: set<Key>)
    requires Inv(r, f, base) && Burst(r, f, listing) && CountAfter(listing, f.cursor) <= maxEntries
    ensures AllSaved(r, Apply(r, f, Pull(listing, known), maxEntries))
  {
    CountAfterIsFromNext(listing, f.cursor);
    forall x | x in listing && Wanted(x) && After(x, f.cursor)
      ensures x in Kept(listing, maxEntries)
    {
      assert x in Elements(listing);
      CapKeepsRecent(listing, Next(f.cursor), maxEntries, x);
    }
    PullCompleteIffKept(r, f, listing, known, maxEntries, base);
  }

  lemma OverCapLoses(r: Render, f: Feed, listing: seq<Member>, known: set<string>, maxEntries: nat)
    requires Burst(r, f, listing) && AllNew(r, listing, f.cursor, Saved(r, f))
    requires CountAfter(listing, f.cursor) > maxEntries
    ensures !AllSaved(r, Apply(r, f, Pull(listing, known), maxEntries))
  {
    if AllSaved(r, Apply(r, f, Pull(listing, known), maxEntries)) {
      NewKeysEmitted(r, f, listing, known, maxEntries);
      NewKeysCount(r, listing, f.cursor, Saved(r, f));
      AtMostCapEmitted(r, listing, f.cursor, known, maxEntries);
      SubsetCard(NewKeys(r, listing, f.cursor), KeysOf(r, Emitted(Kept(listing, maxEntries), f.cursor, known)));
    }
  }

  // If all that came after the cursor is wanted, the pull saves everything if and only if at
  // most maxEntries entries came: a larger burst between two pulls loses entries.
  lemma PullCompleteIffWithinCap(r: Render, f: Feed, listing: seq<Member>, known: set<string>, maxEntries: nat,
                                 base: set<Key>)
    requires Inv(r, f, base) && Burst(r, f, listing) && AllNew(r, listing, f.cursor, Saved(r, f))
    ensures AllSaved(r, Apply(r, f, Pull(listing, known), maxEntries)) <==> CountAfter(listing, f.cursor) <= maxEntries
  {
    if CountAfter(listing, f.cursor) <= maxEntries {
      WithinCapSaves(r, f, listing, known, maxEntries, base);
    } else {
      OverCapLoses(r, f, listing, known, maxEntries);
    }
  }

  // k belongs only to entries before the cursor and is not saved.
  ghost predicate Missed(r: Render, f: Feed, k: Key) {
    && k !in Saved(r, f)
    && (forall x | x in f.log && Wanted(x) && KeyOf(r, x) == k :: Before(x, f.cursor))
  }

  // What a pull leaves unsaved of a burst, and older than the newest entry it saw, is missed.
  lemma LeftBehindIsMissed(r: Render, f: Feed, listing: seq<Member>, known: set<string>, maxEntries: nat,
                           base: set<Key>, x: Member)
    requires Inv(r, f, base) && Burst(r, f, listing) && x in f.log && Wanted(x)
    requires var g := Apply(r, f, Pull(listing, known), maxEntries);
             KeyOf(r, x) !in Saved(r, g) && Before(x, g.cursor)
    ensures Missed(r, Apply(r, f, Pull(listing, known), maxEntries), KeyOf(r, x))
  {
    SavedByPull(r, f, listing, known, maxEntries);
    UnsavedIsNew(r, f, listing, base, x);
    forall y | y in f.log && Wanted(y) && KeyOf(r, y) == KeyOf(r, x)
      ensures y == x
    {
      UnsavedIsNew(r, f, listing, base, y);
    }
  }

  // Pulls may list any part of the log, with any cap and any answers; no new entry has the
  // key k.
  ghost predicate Without(r: Render, f: Feed, steps: seq<Step>, k: Key, maxEntries: nat)
    decreases |steps|
  {
    steps != [] ==>
      && (match steps[0]
          case Append(m) => KeyOf(r, m) != k
          case Pull(listing, _) => Elements(listing) <= Elements(f.log)
          case Store(_) => true)
      && Without(r, Apply(r, f, steps[0], maxEntries), steps[1..], k, maxEntries)
  }

  lemma MissedStep(r: Render, f: Feed, e: Step, k: Key, maxEntries: nat)
    requires Missed(r, f, k) && Without(r, f, [e], k, maxEntries)
    ensures Missed(r, Apply(r, f, e, maxEntries), k)
  {
    match e
    case Append(m) =>
      var g := Apply(r, f, e, maxEntries);
      assert forall x | x in g.log :: x in f.log || x == m;
    case Store(n) => StoreKeepsSaved(r, f, n, maxEntries);
    case Pull(listing, known) =>
      SavedByPull(r, f, listing, known, maxEntries);
      if k in KeysOf(r, Emitted(Kept(listing, maxEntries), f.cursor, known)) {
        var m := EmittedFromLog(r, f, listing, known, maxEntries, k);
        assert false;
      }
  }

  // An entry the cursor has passed without being saved stays lost: no later run of pulls
  // ever stores it.
  lemma {:induction false} MissedForever(r: Render, f: Feed, steps: seq<Step>, k: Key, maxEntries: nat)
    requires Missed(r, f, k) && Without(r, f, steps, k, maxEntries)
    ensures k !in Saved(r, Run(r, f, steps, maxEntries))
    decreases |steps|
  {
    if steps != [] {
      assert Without(r, f, [steps[0]], k, maxEntries);
      MissedStep(r, f, steps[0], k, maxEntries);
      MissedForever(r, Apply(r, f, steps[0], maxEntries), steps[1..], k, maxEntries);
    }
  }

  // ---- A burst that loses an entry ----

  // A complete, wanted entry of target 1 at time t.
  function EntryAt(t: int): Member {
    Member(None, Some(t), None, true,
           Entry(Some(t), true, true, Alert(1, None, None, Some(Stamp(t, None)), None, None)), None)
  }

  lemma EntriesDiffer(r: Render, s: int, t: int)
    requires Faithful(r) && s != t
    ensures KeyOf(r, EntryAt(s)) != KeyOf(r, EntryAt(t))
  {
    KeyIdentifies(r, EntryAt(s).inline.alert, EntryAt(t).inline.alert);
  }

  lemma {:induction false} DescendingStays(s: seq<Member>)
    requires Descending(s)
    ensures NewestFirst(s) == s
  {
    if s != [] {
      DescendingStays(s[..|s| - 1]);
      assert s == s[..|s| - 1] + [s[|s| - 1]];
    }
  }

  // One entry is pulled; two more arrive; the next pull may keep one.
  function BurstRun(): seq<Step> {
    [Append(EntryAt(0)), Pull([EntryAt(0)], {}), Append(EntryAt(1)), Append(EntryAt(2)),
     Pull([EntryAt(2), EntryAt(1), EntryAt(0)], {})]
  }

  lemma KeepsFirst(listing: seq<Member>)
    requires Descending(listing) && listing != []
    ensures Kept(listing, 1) == [listing[0]]
  {
    DescendingStays(listing);
  }

  lemma OneEmitted(m: Member, cursor: Option<int>, known: set<string>)
    requires Emits(m, cursor, known)
    ensures Emitted([m], cursor, known) == [Resolve(m).alert]
    ensures NewestSeen([m], cursor, known) == TimeOf(m)
  {
    assert [m][..0] == [];
    assert Emitted([], cursor, known) == [] && NewestSeen([], cursor, known) == None;
    assert [] + [Resolve(m).alert] == [Resolve(m).alert];
  }

  lemma OnePull(r: Render, f: Feed, listing: seq<Member>, t: int)
    requires Descending(listing) && listing != [] && listing[0] == EntryAt(t)
    requires f.cursor.None? || f.cursor.value < t
    ensures Apply(r, f, Pull(listing, {}), 1)
            == f.(cursor := Some(t), queue := f.queue + [EntryAt(t).inline.alert])
  {
    KeepsFirst(listing);
    OneEmitted(EntryAt(t), f.cursor, {});
  }

  lemma ThreeDescend()
    ensures Descending([EntryAt(2), EntryAt(1), EntryAt(0)]) && Descending([EntryAt(0)])
  {
    assert [EntryAt(2), EntryAt(1), EntryAt(0)][..2] == [EntryAt(2), EntryAt(1)];
    assert [EntryAt(2), EntryAt(1)][..1] == [EntryAt(2)];
  }

  function Queued(t: int): Alert {
    EntryAt(t).inline.alert
  }

  // The feed after the first n steps.
  function BurstFeed(n: nat): Feed {
    var a, b, c := EntryAt(0), EntryAt(1), EntryAt(2);
    match n
    case 0 => Feed([], None, [], map[])
    case 1 => Feed([a], None, [], map[])
    case 2 => Feed([a], Some(0), [Queued(0)], map[])
    case 3 => Feed([a, b], Some(0), [Queued(0)], map[])
    case 4 => Feed([a, b, c], Some(0), [Queued(0)], map[])
    case _ => Feed([a, b, c], Some(2), [Queued(0), Queued(2)], map[])
  }

  lemma BurstStep(r: Render, n: nat)
    requires n < 5
    ensures Apply(r, BurstFeed(n), BurstRun()[n], 1) == BurstFeed(n + 1)
  {
    ThreeDescend();
    if n == 1 {
      OnePull(r, BurstFeed(n), [EntryAt(0)], 0);
    } else if n == 4 {
      OnePull(r, BurstFeed(n), [EntryAt(2), EntryAt(1), EntryAt(0)], 2);
    }
  }

  lemma BurstStepLegal(r: Render, n: nat)
    requires n < 4
    ensures Legal(r, BurstFeed(n), BurstRun()[n], 1)
  {
  }

  lemma {:induction false} BurstEnds(r: Render, n: nat)
    requires n <= 5
    ensures Run(r, BurstFeed(n), BurstRun()[n..], 1) == BurstFeed(5)
    decreases 5 - n
  {
    if n < 5 {
      BurstStep(r, n);
      BurstEnds(r, n + 1);
      RunOf(r, BurstFeed(n), BurstRun()[n..], BurstFeed(n + 1), 1);
      assert BurstRun()[n..][1..] == BurstRun()[n + 1..];
    }
  }

  lemma {:induction false} BurstLegal(r: Render, n: nat)
    requires n <= 4
    ensures LegalRun(r, BurstFeed(n), BurstRun()[n..4], 1)
    decreases 4 - n
  {
    if n < 4 {
      BurstStep(r, n);
      BurstStepLegal(r, n);
      BurstLegal(r, n + 1);
      assert BurstRun()[n..4][1..] == BurstRun()[n + 1..4] && BurstRun()[n..4][0] == BurstRun()[n];
      LegalOf(r, BurstFeed(n), BurstRun()[n..4], BurstFeed(n + 1), 1);
    }
  }

  lemma MissedAfterBurst(r: Render)
    requires Faithful(r)
    ensures EntryAt(1) in BurstFeed(5).log && Wanted(EntryAt(1))
    ensures Missed(r, BurstFeed(5), KeyOf(r, EntryAt(1)))
  {
    EntriesDiffer(r, 0, 1);
    EntriesDiffer(r, 2, 1);
    KeysSnoc(r, [], Queued(0));
    KeysSnoc(r, [] + [Queued(0)], Queued(2));
    assert BurstFeed(5).queue == [] + [Queued(0)] + [Queued(2)];
    assert BurstFeed(5).log[1] == EntryAt(1);
  }

  // With maxEntries at 1 the middle entry is missed, and so by MissedForever never stored,
  // although everything before the last pull is as it should be.
  lemma BurstLosesAnEntry(r: Render)
    requires Faithful(r)
    ensures LegalRun(r, BurstFeed(0), BurstRun()[0..4], 1)
    ensures EntryAt(1) in BurstFeed(5).log && Wanted(EntryAt(1))
    ensures Missed(r, Run(r, BurstFeed(0), BurstRun()[0..], 1), KeyOf(r, EntryAt(1)))
  {
    BurstLegal(r, 0);
    BurstEnds(r, 0);
    MissedAfterBurst(r);
  }

  lemma LegalOf(r: Render, f: Feed, steps: seq<Step>, next: Feed, maxEntries: nat)
    requires steps != [] ==> Legal(r, f, steps[0], maxEntries) && Apply(r, f, steps[0], maxEntries) == next
    requires steps != [] ==> LegalRun(r, next, steps[1..], maxEntries)
    ensures LegalRun(r, f, steps, maxEntries)
  {
  }

  lemma RunOf(r: Render, f: Feed, steps: seq<Step>, next: Feed, maxEntries: nat)
    requires steps != [] && Apply(r, f, steps[0], maxEntries) == next
    ensures Run(r, f, steps, maxEntries) == Run(r, next, steps[1..], maxEntries)
  {
  }
}
