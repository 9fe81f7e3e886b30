/** Incremental pull of a BMC event log (collector/src/redfish/log_baseline.py) into the
    deduplicating store, with the high-water cursor of set_log_cursor
    (collector/src/database/repository.py). */
module LogIngest {
  import opened Common
  import opened AlertStore

  // A full log entry: its time, whether it has any usable content, whether its severity is
  // wanted, and the alert made from it.
  datatype Entry = Entry(created: Option<int>, usable: bool, wanted: bool, alert: Alert)

  // One row of the collection listing. A row lacking a key field is fetched by its id.
  datatype Member = Member(id: Option<string>, created: Option<int>, idNumber: Option<int>, complete: bool,
                           inline: Entry, fetched: Option<Entry>)

  function Resolve(m: Member): Entry {
    if m.complete || m.id.None? || m.fetched.None? then m.inline else m.fetched.value
  }

  // ---- Newest first, capped ----

  // The sort key (rank, value): a timestamp beats a numeric id beats neither.
  function Rank(m: Member): int {
    if m.created.Some? then 2 else if m.idNumber.Some? then 1 else 0
  }

  function Value(m: Member): int {
    if m.created.Some? then m.created.value else if m.idNumber.Some? then m.idNumber.value else 0
  }

  predicate NotOlder(a: Member, b: Member) {
    Rank(a) > Rank(b) || (Rank(a) == Rank(b) && Value(a) >= Value(b))
  }

  // Descending and stable: insert after every member that is not older.
  function InsertNewest(x: Member, s: seq<Member>): seq<Member> {
    if s == [] || NotOlder(s[|s| - 1], x) then s + [x]
    else InsertNewest(x, s[..|s| - 1]) + [s[|s| - 1]]
  }

  function NewestFirst(s: seq<Member>): seq<Member> {
    if s == [] then [] else InsertNewest(s[|s| - 1], NewestFirst(s[..|s| - 1]))
  }

  function Trim(s: seq<Member>, maxEntries: nat): seq<Member> {
    if |s| > maxEntries then s[..maxEntries] else s
  }

  function Kept(members: seq<Member>, maxEntries: nat): seq<Member> {
    Trim(NewestFirst(members), maxEntries)
  }

  predicate AtOrAfter(m: Member, cursor: Option<int>) {
    cursor.None? || (m.created.Some? && m.created.value >= cursor.value)
  }

  // Number of members at or after the cursor.
  function CountFrom(s: seq<Member>, cursor: Option<int>): nat {
    if s == [] then 0
    else CountFrom(s[..|s| - 1], cursor) + if AtOrAfter(s[|s| - 1], cursor) then 1 else 0
  }

  ghost predicate Descending(s: seq<Member>) {
    |s| >= 2 ==> NotOlder(s[|s| - 2], s[|s| - 1]) && Descending(s[..|s| - 1])
  }

  lemma {:induction false} InsertNewestDescends(x: Member, s: seq<Member>)
    requires Descending(s)
    ensures Descending(InsertNewest(x, s)) && |InsertNewest(x, s)| == |s| + 1
    decreases |s|
  {
    if s == [] || NotOlder(s[|s| - 1], x) {
      DescendingSnoc(s, x);
    } else {
      var init, last := s[..|s| - 1], s[|s| - 1];
      InsertNewestDescends(x, init);
      InsertNewestLast(x, init, last);
      DescendingSnoc(InsertNewest(x, init), last);
    }
  }

  lemma {:induction false} InsertNewestCount(x: Member, s: seq<Member>, cursor: Option<int>)
    ensures CountFrom(InsertNewest(x, s), cursor) == CountFrom(s, cursor) + if AtOrAfter(x, cursor) then 1 else 0
    decreases |s|
  {
    if s == [] || NotOlder(s[|s| - 1], x) {
      CountSnoc(s, x, cursor);
    } else {
      var init, last := s[..|s| - 1], s[|s| - 1];
      InsertNewestCount(x, init, cursor);
      CountSnoc(InsertNewest(x, init), last, cursor);
    }
  }

  lemma CountSnoc(s: seq<Member>, m: Member, cursor: Option<int>)
    ensures CountFrom(s + [m], cursor) == CountFrom(s, cursor) + if AtOrAfter(m, cursor) then 1 else 0
  {
    assert (s + [m])[..|s|] == s;
  }

  lemma DescendingSnoc(s: seq<Member>, m: Member)
    requires Descending(s) && (s != [] ==> NotOlder(s[|s| - 1], m))
    ensures Descending(s + [m])
  {
    var r := s + [m];
    assert r[..|r| - 1] == s;
    assert s != [] ==> r[|r| - 2] == s[|s| - 1];
  }

  // The last of the list with x inserted is x or the old last, and neither is older than m.
  lemma InsertNewestLast(x: Member, s: seq<Member>, m: Member)
    requires !NotOlder(m, x) && (s != [] ==> NotOlder(s[|s| - 1], m))
    ensures var r := InsertNewest(x, s);
            r != [] && NotOlder(r[|r| - 1], m)
  {
  }

  lemma {:induction false} InsertNewestElements(x: Member, s: seq<Member>)
    ensures Elements(InsertNewest(x, s)) == Elements(s) + {x}
    decreases |s|
  {
    if s == [] || NotOlder(s[|s| - 1], x) {
      ElementsConcat(s, [x]);
    } else {
      var n := |s| - 1;
      InsertNewestElements(x, s[..n]);
      assert s == s[..n] + [s[n]];
      ElementsConcat(s[..n], [s[n]]);
      ElementsConcat(InsertNewest(x, s[..n]), [s[n]]);
    }
  }

  // Sorting is a rearrangement into descending order.
  lemma {:induction false} NewestFirstDescends(s: seq<Member>, cursor: Option<int>)
    ensures Descending(NewestFirst(s)) && |NewestFirst(s)| == |s|
    ensures CountFrom(NewestFirst(s), cursor) == CountFrom(s, cursor)
  {
    if s != [] {
      var n := |s| - 1;
      NewestFirstDescends(s[..n], cursor);
      InsertNewestDescends(s[n], NewestFirst(s[..n]));
      InsertNewestCount(s[n], NewestFirst(s[..n]), cursor);
    }
  }

  lemma {:induction false} NewestFirstElements(s: seq<Member>)
    ensures Elements(NewestFirst(s)) == Elements(s)
  {
    if s != [] {
      var n := |s| - 1;
      NewestFirstElements(s[..n]);
      InsertNewestElements(s[n], NewestFirst(s[..n]));
      assert s == s[..n] + [s[n]];
      ElementsConcat(s[..n], [s[n]]);
    }
  }

  lemma {:induction false} DescendingApart(s: seq<Member>, i: nat, j: nat)
    requires Descending(s) && i < j < |s|
    ensures NotOlder(s[i], s[j])
    decreases |s|
  {
    var init := s[..|s| - 1];
    if j < |s| - 1 {
      DescendingApart(init, i, j);
    } else if i < j - 1 {
      DescendingApart(init, i, j - 1);
      assert init[i] == s[i] && init[j - 1] == s[j - 1];
    }
  }

  // Newest first: rows that show a time before those that do not, later times before earlier;
  // then rows with a numeric id, larger before smaller; then the others.
  lemma NewestFirstIs(s: seq<Member>, i: nat, j: nat)
    requires i < j < |NewestFirst(s)|
    ensures var x, y := NewestFirst(s)[i], NewestFirst(s)[j];
            && (x.created.Some? && y.created.Some? ==> x.created.value >= y.created.value)
            && (y.created.Some? ==> x.created.Some?)
            && (x.created.None? && y.idNumber.Some? ==> x.idNumber.Some? && x.idNumber.value >= y.idNumber.value)
  {
    NewestFirstDescends(s, None);
    DescendingApart(NewestFirst(s), i, j);
  }

  // The rows of s with this sort key, in their order.
  function Alike(s: seq<Member>, rank: int, value: int): seq<Member> {
    if s == [] then []
    else
      var init, last := Alike(s[..|s| - 1], rank, value), s[|s| - 1];
      if Rank(last) == rank && Value(last) == value then init + [last] else init
  }

  lemma AlikeSnoc(s: seq<Member>, m: Member, rank: int, value: int)
    ensures Alike(s + [m], rank, value)
            == if Rank(m) == rank && Value(m) == value then Alike(s, rank, value) + [m] else Alike(s, rank, value)
  {
    assert (s + [m])[..|s|] == s;
  }

  lemma {:induction false} InsertKeepsAlike(x: Member, s: seq<Member>, rank: int, value: int)
    ensures Alike(InsertNewest(x, s), rank, value) == Alike(s + [x], rank, value)
    decreases |s|
  {
    if s != [] && !NotOlder(s[|s| - 1], x) {
      var init, last := s[..|s| - 1], s[|s| - 1];
      assert s == init + [last];
      InsertKeepsAlike(x, init, rank, value);
      AlikeSnoc(InsertNewest(x, init), last, rank, value);
      AlikeSnoc(init, x, rank, value);
      AlikeSnoc(init, last, rank, value);
      AlikeSnoc(s, x, rank, value);
    }
  }

  // Rows that compare equal keep the order in which the log listed them.
  lemma {:induction false} NewestFirstStable(s: seq<Member>, rank: int, value: int)
    ensures Alike(NewestFirst(s), rank, value) == Alike(s, rank, value)
  {
    if s != [] {
      var init, last := s[..|s| - 1], s[|s| - 1];
      NewestFirstStable(init, rank, value);
      InsertKeepsAlike(last, NewestFirst(init), rank, value);
      AlikeSnoc(NewestFirst(init), last, rank, value);
    }
  }

  // In descending order everything before a member at or after the cursor is so too.
  lemma {:induction false} PrefixCounts(s: seq<Member>, cursor: Option<int>, i: nat)
    requires Descending(s) && i < |s| && AtOrAfter(s[i], cursor)
    ensures CountFrom(s, cursor) >= i + 1
    decreases |s|, i
  {
    if i < |s| - 1 {
      PrefixCounts(s[..|s| - 1], cursor, i);
    } else if i > 0 {
      var init := s[..i];
      assert init[i - 1] == s[i - 1];
      PrefixCounts(init, cursor, i - 1);
    }
  }

  lemma TrimKeepsRecent(s: seq<Member>, cursor: Option<int>, maxEntries: nat, m: Member)
    requires Descending(s) && m in s && AtOrAfter(m, cursor) && CountFrom(s, cursor) <= maxEntries
    ensures m in Trim(s, maxEntries)
  {
    var i :| 0 <= i < |s| && s[i] == m;
    PrefixCounts(s, cursor, i);
    assert Trim(s, maxEntries)[i] == m;
  }

  // If at most maxEntries members are at or after the cursor, the cap drops none of them.
  lemma CapKeepsRecent(members: seq<Member>, cursor: Option<int>, maxEntries: nat, m: Member)
    requires m in members && AtOrAfter(m, cursor) && CountFrom(members, cursor) <= maxEntries
    ensures m in Kept(members, maxEntries)
  {
    NewestFirstDescends(members, cursor);
    NewestFirstElements(members);
    assert m in Elements(members);
    TrimKeepsRecent(NewestFirst(members), cursor, maxEntries, m);
  }

  lemma KeptAreMembers(members: seq<Member>, maxEntries: nat, m: Member)
    requires m in Kept(members, maxEntries)
    ensures m in members
  {
    NewestFirstElements(members);
    assert m in Elements(NewestFirst(members));
  }

  // ---- One pull ----

  // The skip tests of the loop, in order; None means the entry is not emitted.
  predicate Skipped(m: Member, cursor: Option<int>, known: set<string>) {
    var e := Resolve(m);
    || (cursor.Some? && m.created.Some? && m.created.value < cursor.value)
    || (m.created.None? && m.id.Some? && m.id.value in known)
    || !e.usable
    || (cursor.Some? && e.created.Some? && e.created.value < cursor.value)
  }

  function Later(a: Option<int>, b: Option<int>): Option<int> {
    if a.None? then b else if b.None? || a.value >= b.value then a else b
  }

  // What the loop emits, in order.
  function Emitted(members: seq<Member>, cursor: Option<int>, known: set<string>): seq<Alert> {
    if members == [] then []
    else
      var m := members[|members| - 1];
      var init := Emitted(members[..|members| - 1], cursor, known);
      if Skipped(m, cursor, known) || !Resolve(m).wanted then init else init + [Resolve(m).alert]
  }

  // The newest time among the entries it looked at, wanted or not.
  function NewestSeen(members: seq<Member>, cursor: Option<int>, known: set<string>): Option<int> {
    if members == [] then None
    else
      var m := members[|members| - 1];
      var init := NewestSeen(members[..|members| - 1], cursor, known);
      if Skipped(m, cursor, known) then init else Later(init, Resolve(m).created)
  }

  // set_log_cursor: the mark only advances, and a pull that saw no time leaves it.
  function Advance(cursor: Option<int>, newest: Option<int>): Option<int> {
    if newest.None? then cursor
    else if cursor.None? || newest.value > cursor.value then newest
    else cursor
  }

  method PullCollection(members: seq<Member>, maxEntries: nat, cursor: Option<int>, known: set<string>)
    returns (emitted: seq<Alert>, newest: Option<int>)
    ensures emitted == Emitted(Kept(members, maxEntries), cursor, known)
    ensures newest == NewestSeen(Kept(members, maxEntries), cursor, known)
  {
    var kept := Kept(members, maxEntries);
    emitted, newest := [], None;
    var i := 0;
    assert kept[..0] == [];
    while i < |kept|
      invariant 0 <= i <= |kept|
      invariant emitted == Emitted(kept[..i], cursor, known)
      invariant newest == NewestSeen(kept[..i], cursor, known)
    {
      var member := kept[i];
      assert kept[..i + 1][..i] == kept[..i];
      i := i + 1;
      if cursor.Some? && member.created.Some? && member.created.value < cursor.value { continue; }
      if member.created.None? && member.id.Some? && member.id.value in known { continue; }
      var entry := Resolve(member);
      if !entry.usable { continue; }
      if cursor.Some? && entry.created.Some? && entry.created.value < cursor.value { continue; }
      if entry.created.Some? && (newest.None? || entry.created.value > newest.value) {
        newest := entry.created;
      }
      if !entry.wanted { continue; }
      emitted := emitted + [entry.alert];
    }
    assert kept[..i] == kept;
  }

  // The entry passes every test and becomes an alert.
  predicate Emits(m: Member, cursor: Option<int>, known: set<string>) {
    !Skipped(m, cursor, known) && Resolve(m).wanted
  }

  function KeyOf(r: Render, m: Member): Key {
    DedupKey(r, Resolve(m).alert)
  }

  lemma EmittedSnoc(members: seq<Member>, m: Member, cursor: Option<int>, known: set<string>)
    ensures Emitted(members + [m], cursor, known)
            == if Emits(m, cursor, known) then Emitted(members, cursor, known) + [Resolve(m).alert]
               else Emitted(members, cursor, known)
  {
    assert (members + [m])[..|members|] == members;
  }

  lemma {:induction false} EmittedHas(r: Render, members: seq<Member>, cursor: Option<int>, known: set<string>, i: nat)
    requires i < |members| && Emits(members[i], cursor, known)
    ensures KeyOf(r, members[i]) in KeysOf(r, Emitted(members, cursor, known))
    decreases |members|
  {
    var n := |members| - 1;
    var init, m := members[..n], members[n];
    assert members == init + [m];
    EmittedSnoc(init, m, cursor, known);
    KeysSnoc(r, Emitted(init, cursor, known), Resolve(m).alert);
    if i < n {
      assert init[i] == members[i];
      EmittedHas(r, init, cursor, known, i);
    }
  }

  lemma {:induction false} EmittedOnly(r: Render, members: seq<Member>, cursor: Option<int>, known: set<string>, k: Key)
    returns (m: Member)
    requires k in KeysOf(r, Emitted(members, cursor, known))
    ensures m in members && Emits(m, cursor, known) && k == KeyOf(r, m)
    decreases |members|
  {
    var n := |members| - 1;
    KeysSnoc(r, Emitted(members[..n], cursor, known), Resolve(members[n]).alert);
    if k in KeysOf(r, Emitted(members[..n], cursor, known)) {
      m := EmittedOnly(r, members[..n], cursor, known, k);
    } else {
      m := members[n];
    }
  }

  lemma {:induction false} EmittedLength(members: seq<Member>, cursor: Option<int>, known: set<string>)
    ensures |Emitted(members, cursor, known)| <= |members|
  {
    if members != [] { EmittedLength(members[..|members| - 1], cursor, known); }
  }

  // The newest time seen is no earlier than that of any entry looked at.
  lemma {:induction false} NewestSeenIsNewest(members: seq<Member>, cursor: Option<int>, known: set<string>, i: nat)
    requires i < |members| && !Skipped(members[i], cursor, known) && Resolve(members[i]).created.Some?
    ensures var n := NewestSeen(members, cursor, known);
            n.Some? && Resolve(members[i]).created.value <= n.value
    decreases |members|
  {
    if i < |members| - 1 { NewestSeenIsNewest(members[..|members| - 1], cursor, known, i); }
  }

  lemma {:induction false} NewestSeenOk(members: seq<Member>, cursor: Option<int>, known: set<string>)
    ensures var n := NewestSeen(members, cursor, known);
            n.Some? ==> exists m :: m in members && Resolve(m).created == n
  {
    if members != [] {
      var n := |members| - 1;
      NewestSeenOk(members[..n], cursor, known);
      assert members == members[..n] + [members[n]];
      assert members[n] in members;
    }
  }

  // ---- The stored cursor ----

  class CursorTable {
    var marks: map<(int, string), int>

    constructor ()
      ensures marks == map[]
    {
      marks := map[];
    }

    function Get(target: int, uri: string): Option<int>
      reads this
    {
      if (target, uri) in marks then Some(marks[(target, uri)]) else None
    }

    // rival: a mark that another worker inserts between the lookup and the commit, which
    // only matters when there was none; ours is then folded into it.
    method SetLogCursor(target: int, uri: string, last: int, rival: Option<int>)
      modifies this
      ensures Get(target, uri)
              == Advance(if old(Get(target, uri)).Some? then old(Get(target, uri)) else rival, Some(last))
      ensures forall k | k != (target, uri) ::
                (k in marks <==> k in old(marks)) && (k in marks ==> marks[k] == old(marks)[k])
    {
      var key := (target, uri);
      if key in marks {
        if last > marks[key] { marks := marks[key := last]; }
      } else if rival.None? {
        marks := marks[key := last];
      } else {
        marks := marks[key := rival.value];
        if last > marks[key] { marks := marks[key := last]; }
      }
    }
  }
}
