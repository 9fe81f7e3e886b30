/** Content-keyed alert store (collector/src/database/repository.py,
    _compute_alert_dedup_key and create_alerts_batch; collector/src/util/timeutil.py).

    sha256 is taken to be injective, so a key is the string it is the hash of. */
module AlertStore {
  import opened Common

  // A datetime: its wall-clock reading in microseconds and its UTC offset, None if naive.
  datatype Stamp = Stamp(wall: int, offset: Option<int>)

  function NaiveUtc(s: Stamp): int {
    if s.offset.Some? then s.wall - s.offset.value else s.wall
  }

  datatype Alert = Alert(target: int, messageId: Option<string>, message: Option<string>,
                         eventAt: Option<Stamp>, receivedAt: Option<Stamp>, source: Option<string>)

  // A clock that shows d more, at an offset from UTC larger by d, shows the same instant; and an
  // offset of zero, or none, shows it as it is.
  lemma SameInstant(wall: int, offset: int, d: int)
    ensures NaiveUtc(Stamp(wall + d, Some(offset + d))) == NaiveUtc(Stamp(wall, Some(offset)))
    ensures NaiveUtc(Stamp(wall, Some(0))) == NaiveUtc(Stamp(wall, None)) == wall
  {
  }

  // ---- The key ----

  const SEP: char := '\U{1F}'

  function Join(fields: seq<string>): string {
    if fields == [] then ""
    else if |fields| == 1 then fields[0]
    else fields[0] + [SEP] + Join(fields[1..])
  }

  // str() of an id and isoformat() of an instant.
  datatype Render = Render(num: int -> string, iso: int -> string)

  ghost predicate Faithful(r: Render) {
    && (forall x, y :: r.num(x) == r.num(y) ==> x == y)
    && (forall x, y :: r.iso(x) == r.iso(y) ==> x == y)
    && (forall x :: SEP !in r.num(x))
    && (forall x :: SEP !in r.iso(x) && r.iso(x) != "")
  }

  function Text(o: Option<string>): string {
    if o.Some? then o.value else ""
  }

  function Fields(r: Render, a: Alert): seq<string> {
    if a.eventAt.Some? then
      [r.num(a.target), Text(a.messageId), r.iso(NaiveUtc(a.eventAt.value)), Text(a.message)]
    else if Text(a.source) != "" then
      [r.num(a.target), "src", Text(a.source)]
    else
      [r.num(a.target), Text(a.messageId),
       if a.receivedAt.Some? then r.iso(NaiveUtc(a.receivedAt.value)) else "", Text(a.message)]
  }

  type Key = string

  function DedupKey(r: Render, a: Alert): Key {
    Join(Fields(r, a))
  }

  // The key of an alert known only by its source id.
  function SourceKey(r: Render, target: int, source: string): Key {
    DedupKey(r, Probe(target, source))
  }

  function Probe(target: int, source: string): Alert {
    Alert(target, None, None, None, None, Some(source))
  }

  // What the key is meant to identify.
  datatype Identity =
    | Content(target: int, messageId: string, at: Option<int>, message: string)
    | Source(target: int, source: string)

  function IdentityOf(a: Alert): Identity {
    if a.eventAt.Some? then
      Content(a.target, Text(a.messageId), Some(NaiveUtc(a.eventAt.value)), Text(a.message))
    else if Text(a.source) != "" then
      Source(a.target, Text(a.source))
    else
      Content(a.target, Text(a.messageId),
              if a.receivedAt.Some? then Some(NaiveUtc(a.receivedAt.value)) else None, Text(a.message))
  }

  ghost predicate NoSep(s: string) {
    forall i | 0 <= i < |s| :: s[i] != SEP
  }

  ghost predicate Clean(a: Alert) {
    NoSep(Text(a.messageId)) && NoSep(Text(a.message)) && NoSep(Text(a.source))
  }

  ghost predicate AllClean(fields: seq<string>) {
    forall i | 0 <= i < |fields| :: NoSep(fields[i])
  }

  // The first separator ends the first field.
  lemma SplitFirst(x: string, u: string, y: string, v: string)
    requires NoSep(x) && NoSep(y) && x + [SEP] + u == y + [SEP] + v
    ensures x == y && u == v
  {
    var s := x + [SEP] + u;
    assert s[|x|] == SEP && s[|y|] == SEP;
    assert forall i | 0 <= i < |x| :: s[i] == x[i];
    assert forall i | 0 <= i < |y| :: s[i] == y[i];
    assert |x| == |y|;
    assert x == s[..|x|] && y == s[..|x|];
    assert u == s[|x| + 1..] && v == s[|x| + 1..];
  }

  lemma SingleIffNoSep(f: seq<string>)
    requires f != [] && AllClean(f)
    ensures |f| == 1 <==> NoSep(Join(f))
  {
    if |f| > 1 { assert Join(f)[|f[0]|] == SEP; }
  }

  lemma {:induction false} JoinInjective(f: seq<string>, g: seq<string>)
    requires f != [] && g != [] && AllClean(f) && AllClean(g) && Join(f) == Join(g)
    ensures f == g
    decreases |f|
  {
    SingleIffNoSep(f);
    SingleIffNoSep(g);
    if |f| > 1 {
      SplitFirst(f[0], Join(f[1..]), g[0], Join(g[1..]));
      JoinInjective(f[1..], g[1..]);
      assert f == [f[0]] + f[1..] && g == [g[0]] + g[1..];
    }
  }

  lemma FieldsClean(r: Render, a: Alert)
    requires Faithful(r) && Clean(a)
    ensures AllClean(Fields(r, a)) && Fields(r, a) != []
  {
    var f := Fields(r, a);
    forall x
      ensures NoSep(r.num(x)) && NoSep(r.iso(x))
    {
    }
    forall i | 0 <= i < |f|
      ensures NoSep(f[i])
    {
    }
  }

  lemma FieldsIdentify(r: Render, a: Alert, b: Alert)
    requires Faithful(r) && Fields(r, a) == Fields(r, b)
    ensures IdentityOf(a) == IdentityOf(b)
  {
    var f, g := Fields(r, a), Fields(r, b);
    assert f[0] == g[0] && f[1] == g[1] && f[2] == g[2];
    if |f| == 4 { assert f[3] == g[3]; }
  }

  // Two alerts have the same key exactly when they have the same identity: in particular
  // the offset of a timestamp and the path the alert came by do not matter.
  lemma KeyIdentifies(r: Render, a: Alert, b: Alert)
    requires Faithful(r) && Clean(a) && Clean(b)
    ensures DedupKey(r, a) == DedupKey(r, b) <==> IdentityOf(a) == IdentityOf(b)
  {
    if DedupKey(r, a) == DedupKey(r, b) {
      FieldsClean(r, a);
      FieldsClean(r, b);
      JoinInjective(Fields(r, a), Fields(r, b));
      FieldsIdentify(r, a, b);
    }
  }

  // The live view and the log view of one event: same target, id, message and instant,
  // in any offset, and whatever else differs.
  lemma LiveAndBaselineConverge(r: Render, live: Alert, logged: Alert)
    requires live.target == logged.target && Text(live.messageId) == Text(logged.messageId)
    requires Text(live.message) == Text(logged.message)
    requires live.eventAt.Some? && logged.eventAt.Some?
    requires NaiveUtc(live.eventAt.value) == NaiveUtc(logged.eventAt.value)
    ensures DedupKey(r, live) == DedupKey(r, logged)
  {
  }

  // ---- The store: insert if the key is absent ----

  type Table = map<Key, Alert>

  function InsertOne(r: Render, t: Table, a: Alert): Table {
    var k := DedupKey(r, a);
    if k in t then t else t[k := a]
  }

  function Ingest(r: Render, t: Table, alerts: seq<Alert>): Table
    decreases |alerts|
  {
    if alerts == [] then t else Ingest(r, InsertOne(r, t, alerts[0]), alerts[1..])
  }

  function KeysOf(r: Render, alerts: seq<Alert>): set<Key> {
    if alerts == [] then {} else {DedupKey(r, alerts[0])} + KeysOf(r, alerts[1..])
  }

  // The key set becomes the union; stored rows are never replaced.
  lemma {:induction false} IngestKeys(r: Render, t: Table, alerts: seq<Alert>)
    ensures Ingest(r, t, alerts).Keys == t.Keys + KeysOf(r, alerts)
    ensures forall k | k in t :: Ingest(r, t, alerts)[k] == t[k]
    decreases |alerts|
  {
    if alerts != [] {
      IngestKeys(r, InsertOne(r, t, alerts[0]), alerts[1..]);
    }
  }

  lemma {:induction false} IngestKnown(r: Render, t: Table, alerts: seq<Alert>)
    requires KeysOf(r, alerts) <= t.Keys
    ensures Ingest(r, t, alerts) == t
    decreases |alerts|
  {
    if alerts != [] { IngestKnown(r, t, alerts[1..]); }
  }

  // Writing a batch again inserts nothing.
  lemma IngestTwice(r: Render, t: Table, alerts: seq<Alert>)
    ensures Ingest(r, Ingest(r, t, alerts), alerts) == Ingest(r, t, alerts)
  {
    IngestKeys(r, t, alerts);
    IngestKnown(r, Ingest(r, t, alerts), alerts);
  }

  // How a stream of alerts is cut into batches does not matter.
  lemma {:induction false} IngestConcat(r: Render, t: Table, a: seq<Alert>, b: seq<Alert>)
    ensures Ingest(r, t, a + b) == Ingest(r, Ingest(r, t, a), b)
    decreases |a|
  {
    if a == [] {
      assert a + b == b;
    } else {
      assert (a + b)[1..] == a[1..] + b;
      IngestConcat(r, InsertOne(r, t, a[0]), a[1..], b);
    }
  }

  // ---- Batch preparation ----

  ghost predicate DistinctKeys(r: Render, rows: seq<Alert>) {
    rows != [] ==> DedupKey(r, rows[0]) !in KeysOf(r, rows[1..]) && DistinctKeys(r, rows[1..])
  }

  // The rows whose key is not in `known`, each key once.
  function Fresh(r: Render, alerts: seq<Alert>, known: set<Key>): seq<Alert> {
    if alerts == [] then []
    else
      var k := DedupKey(r, alerts[0]);
      if k in known then Fresh(r, alerts[1..], known)
      else [alerts[0]] + Fresh(r, alerts[1..], known + {k})
  }

  // Dropping rows that are already stored, or repeated, does not change the outcome.
  lemma {:induction false} FreshIngest(r: Render, t: Table, alerts: seq<Alert>, known: set<Key>)
    requires known <= t.Keys
    ensures Ingest(r, t, Fresh(r, alerts, known)) == Ingest(r, t, alerts)
    decreases |alerts|
  {
    if alerts != [] {
      var a := alerts[0];
      var k := DedupKey(r, a);
      if k in known {
        FreshIngest(r, t, alerts[1..], known);
      } else {
        FreshIngest(r, InsertOne(r, t, a), alerts[1..], known + {k});
        assert Fresh(r, alerts, known)[1..] == Fresh(r, alerts[1..], known + {k});
      }
    }
  }

  lemma {:induction false} FreshDistinct(r: Render, alerts: seq<Alert>, known: set<Key>)
    ensures DistinctKeys(r, Fresh(r, alerts, known))
    ensures KeysOf(r, Fresh(r, alerts, known)) == KeysOf(r, alerts) - known
    decreases |alerts|
  {
    if alerts != [] {
      var k := DedupKey(r, alerts[0]);
      if k in known {
        FreshDistinct(r, alerts[1..], known);
      } else {
        FreshDistinct(r, alerts[1..], known + {k});
        assert Fresh(r, alerts, known)[1..] == Fresh(r, alerts[1..], known + {k});
      }
    }
  }

  // ---- Concurrent writers ----

  // The table t' has the rows of t unchanged, our keys and theirs, and no others.
  ghost predicate Landed(t: Table, t': Table, mine: set<Key>, theirs: set<Key>) {
    && (forall k | k in t' :: k in t || k in mine || k in theirs)
    && (forall k | k in t :: k in t' && t'[k] == t[k])
    && (forall k | k in mine :: k in t' && k !in t && k !in theirs)
    && (forall k | k in theirs :: k in t' && k !in t)
  }

  ghost predicate Committed(during: nat -> Table, k: Key) {
    exists i: nat :: k in during(i)
  }

  // Nobody else writes during the fallback.
  ghost predicate Alone(during: nat -> Table) {
    forall i: nat :: during(i) == map[]
  }

  // Where the fallback stands after the rows of done, having started from t.
  ghost predicate Progress(r: Render, t: Table, t': Table, done: seq<Alert>, mine: set<Key>, theirs: set<Key>,
                           during: nat -> Table)
  {
    && Landed(t, t', mine, theirs)
    && mine <= KeysOf(r, done) <= t'.Keys
    && (forall k | k in theirs :: Committed(during, k))
  }

  ghost function Ours(r: Render, t: Table, a: Alert): set<Key> {
    {DedupKey(r, a)} - t.Keys
  }

  lemma TheyCommit(r: Render, t: Table, t': Table, done: seq<Alert>, mine: set<Key>, theirs: set<Key>,
                   during: nat -> Table, i: nat)
    requires Progress(r, t, t', done, mine, theirs, during)
    ensures Progress(r, t, during(i) + t', done, mine, theirs + (during(i).Keys - t'.Keys), during)
  {
    assert forall k | k in during(i) :: Committed(during, k);
  }

  lemma WeInsert(r: Render, t: Table, t': Table, done: seq<Alert>, a: Alert, mine: set<Key>, theirs: set<Key>,
                 during: nat -> Table)
    requires Progress(r, t, t', done, mine, theirs, during)
    ensures Progress(r, t, InsertOne(r, t', a), done + [a], mine + Ours(r, t', a), theirs, during)
  {
    KeysSnoc(r, done, a);
    if DedupKey(r, a) in t' {
      assert mine + Ours(r, t', a) == mine;
    } else {
      assert Ours(r, t', a) == {DedupKey(r, a)};
      LandedInsert(t, t', DedupKey(r, a), a, mine, theirs);
    }
  }

  lemma OursCounted(r: Render, t: Table, t': Table, a: Alert, mine: set<Key>, theirs: set<Key>)
    requires Landed(t, t', mine, theirs)
    ensures |mine + Ours(r, t', a)| == |mine| + if DedupKey(r, a) in t' then 0 else 1
  {
    var k := DedupKey(r, a);
    if k in t' {
      assert mine + Ours(r, t', a) == mine;
    } else {
      assert k !in mine;
      assert Ours(r, t', a) == {k};
      AddAbsent(mine, k);
    }
  }

  lemma AddAbsent(s: set<Key>, k: Key)
    requires k !in s
    ensures |s + {k}| == |s| + 1
  {
  }

  lemma LandedInsert(t: Table, t': Table, k: Key, a: Alert, mine: set<Key>, theirs: set<Key>)
    requires Landed(t, t', mine, theirs) && k !in t'
    ensures Landed(t, t'[k := a], mine + {k}, theirs) && k !in mine
  {
  }

  lemma KeysSnoc(r: Render, alerts: seq<Alert>, a: Alert)
    ensures KeysOf(r, alerts + [a]) == KeysOf(r, alerts) + {DedupKey(r, a)}
  {
    KeysConcat(r, alerts, [a]);
    assert KeysOf(r, [a]) == {DedupKey(r, a)};
  }

  // Without other writers, the rows still to come lead to the same end.
  ghost predicate OnCourse(r: Render, t: Table, t': Table, rows: seq<Alert>, i: nat, theirs: set<Key>,
                           during: nat -> Table)
    requires i <= |rows|
  {
    Alone(during) ==> theirs == {} && Ingest(r, t', rows[i..]) == Ingest(r, t, rows)
  }

  lemma StaysOnCourse(r: Render, t: Table, t': Table, rows: seq<Alert>, i: nat, next: nat, theirs: set<Key>,
                      during: nat -> Table)
    requires i < |rows| && next == i + 1 && OnCourse(r, t, t', rows, i, theirs, during)
    ensures OnCourse(r, t, InsertOne(r, during(i) + t', rows[i]), rows, next, theirs + (during(i).Keys - t'.Keys),
                     during)
  {
    if Alone(during) {
      assert during(i) + t' == t' && theirs + (during(i).Keys - t'.Keys) == {};
      assert rows[i..][1..] == rows[next..];
    }
  }

  lemma PrefixSnoc(rows: seq<Alert>, i: nat, next: nat)
    requires i < |rows| && next == i + 1
    ensures rows[..next] == rows[..i] + [rows[i]]
  {
  }

  // The fallback after i rows.
  ghost predicate Fallback(r: Render, t: Table, t': Table, rows: seq<Alert>, i: nat, mine: set<Key>, theirs: set<Key>,
                           during: nat -> Table)
  {
    i <= |rows| && Progress(r, t, t', rows[..i], mine, theirs, during) && OnCourse(r, t, t', rows, i, theirs, during)
  }

  // The fallback after i rows, having counted this many of its own.
  ghost predicate Underway(r: Render, t: Table, t': Table, rows: seq<Alert>, i: nat, inserted: nat,
                           during: nat -> Table)
  {
    exists mine, theirs :: Fallback(r, t, t', rows, i, mine, theirs, during) && inserted == |mine|
  }

  lemma UnderwayStarts(r: Render, t: Table, rows: seq<Alert>, during: nat -> Table)
    ensures Underway(r, t, t, rows, 0, 0, during)
  {
    assert rows[0..] == rows && rows[..0] == [];
    assert Fallback(r, t, t, rows, 0, {}, {}, during);
  }

  // Others commit, and then the row is inserted if its key is absent.
  ghost predicate Turned(r: Render, t: Table, t': Table, a: Alert, committed: Table, added: bool) {
    && t' == InsertOne(r, committed + t, a)
    && (added <==> DedupKey(r, a) !in committed + t)
  }

  lemma UnderwayTurn(r: Render, t: Table, before: Table, after: Table, rows: seq<Alert>, i: nat, next: nat, count: nat,
                     inserted: nat, during: nat -> Table)
    requires Underway(r, t, before, rows, i, count, during) && i < |rows| && next == i + 1
    requires Turned(r, before, after, rows[i], during(i), inserted == count + 1)
    requires inserted == count || inserted == count + 1
    ensures Underway(r, t, after, rows, next, inserted, during)
  {
    var mine, theirs :| Fallback(r, t, before, rows, i, mine, theirs, during) && count == |mine|;
    FallbackTurn(r, t, before, rows, i, next, mine, theirs, during);
    StillUnderway(r, t, after, rows, next, inserted, during, mine + Ours(r, during(i) + before, rows[i]),
                  theirs + (during(i).Keys - before.Keys));
  }

  lemma StillUnderway(r: Render, t: Table, t': Table, rows: seq<Alert>, i: nat, inserted: nat, during: nat -> Table,
                      mine: set<Key>, theirs: set<Key>)
    requires Fallback(r, t, t', rows, i, mine, theirs, during) && inserted == |mine|
    ensures Underway(r, t, t', rows, i, inserted, during)
  {
  }

  lemma UnderwayEnds(r: Render, t: Table, t': Table, rows: seq<Alert>, inserted: nat, during: nat -> Table)
    returns (mine: set<Key>, theirs: set<Key>)
    requires Underway(r, t, t', rows, |rows|, inserted, during)
    ensures Progress(r, t, t', rows, mine, theirs, during) && inserted == |mine|
    ensures Alone(during) ==> theirs == {} && t' == Ingest(r, t, rows)
  {
    mine, theirs :| Fallback(r, t, t', rows, |rows|, mine, theirs, during) && inserted == |mine|;
    assert rows[|rows|..] == [] && rows[..|rows|] == rows;
  }

  lemma FallbackTurn(r: Render, t: Table, t': Table, rows: seq<Alert>, i: nat, next: nat, mine: set<Key>,
                     theirs: set<Key>, during: nat -> Table)
    requires Fallback(r, t, t', rows, i, mine, theirs, during) && i < |rows| && next == i + 1
    ensures var met := during(i) + t';
            && Fallback(r, t, InsertOne(r, met, rows[i]), rows, next, mine + Ours(r, met, rows[i]),
                        theirs + (during(i).Keys - t'.Keys), during)
            && |mine + Ours(r, met, rows[i])| == |mine| + if DedupKey(r, rows[i]) in met then 0 else 1
  {
    var met, all := during(i) + t', theirs + (during(i).Keys - t'.Keys);
    TheyCommit(r, t, t', rows[..i], mine, theirs, during, i);
    WeInsert(r, t, met, rows[..i], rows[i], mine, all, during);
    OursCounted(r, t, met, rows[i], mine, all);
    StaysOnCourse(r, t, t', rows, i, next, theirs, during);
    PrefixSnoc(rows, i, next);
  }

  // The rows left after both filters.
  lemma CandidatesOk(r: Render, t: Table, alerts: seq<Alert>, rows: seq<Alert>, existing: set<Key>)
    requires rows == Fresh(r, alerts, {}) && existing <= t.Keys
    ensures var newRows := Fresh(r, rows, existing);
            && Ingest(r, t, newRows) == Ingest(r, t, alerts)
            && DistinctKeys(r, newRows) && KeysOf(r, newRows) == KeysOf(r, alerts) - existing
  {
    FreshIngest(r, t, alerts, {});
    FreshIngest(r, t, rows, existing);
    FreshDistinct(r, alerts, {});
    FreshDistinct(r, rows, existing);
  }

  lemma WholeCommit(r: Render, t: Table, newRows: seq<Alert>)
    requires DistinctKeys(r, newRows) && KeysOf(r, newRows) !! t.Keys
    ensures Landed(t, Ingest(r, t, newRows), KeysOf(r, newRows), {}) && |KeysOf(r, newRows)| == |newRows|
  {
    IngestKeys(r, t, newRows);
    DistinctKeysCount(r, newRows);
  }

  lemma {:induction false} DistinctKeysCount(r: Render, rows: seq<Alert>)
    requires DistinctKeys(r, rows)
    ensures |KeysOf(r, rows)| == |rows|
  {
    if rows != [] { DistinctKeysCount(r, rows[1..]); }
  }

  // ---- The repository's method ----

  class AlertRepository {
    const render: Render
    var table: Table

    constructor (r: Render)
      ensures render == r && table == map[]
    {
      render, table := r, map[];
    }

    // Candidate rows, collapsing duplicates within the batch.
    method PrepareRows(alerts: seq<Alert>) returns (rows: seq<Alert>)
      ensures rows == Fresh(render, alerts, {})
    {
      rows := [];
      var seen: set<Key> := {};
      var i := 0;
      PreparedStarts(render, alerts);
      while i < |alerts|
        invariant 0 <= i <= |alerts|
        invariant Prepared(render, alerts, i, seen, rows)
      {
        ghost var before, had := rows, seen;
        var k := DedupKey(render, alerts[i]);
        if k !in seen {
          seen := seen + {k};
          rows := rows + [alerts[i]];
        }
        i := i + 1;
        PreparedNext(render, alerts, i - 1, i, had, before, seen, rows);
      }
      PreparedEnds(render, alerts, seen, rows);
    }

    // Keys already stored, looked up 500 at a time.
    method ExistingKeys(rows: seq<Alert>) returns (existing: set<Key>)
      ensures existing == KeysOf(render, rows) * table.Keys
    {
      existing := {};
      var i := 0;
      assert rows[..0] == [];
      while i < |rows|
        invariant 0 <= i <= |rows|
        invariant existing == KeysOf(render, rows[..i]) * table.Keys
      {
        var end := if i + 500 < |rows| then i + 500 else |rows|;
        KeysSplit(render, rows[..end], i);
        assert rows[..end][..i] == rows[..i] && rows[..end][i..] == rows[i..end];
        existing := existing + (KeysOf(render, rows[i..end]) * table.Keys);
        i := end;
      }
      assert rows[..i] == rows;
    }

    // `other` is what a concurrent writer commits between the lookup and the insert, and
    // `during` what is committed before each row of the fallback. Every alert ends up stored,
    // `mine` are the rows this call added and counts, and no row is replaced. Without writers
    // during the fallback the result is that of inserting alert by alert.
    method CreateAlertsBatch(alerts: seq<Alert>, other: Table, during: nat -> Table)
      returns (inserted: nat, ghost mine: set<Key>, ghost theirs: set<Key>)
      requires other.Keys !! table.Keys
      modifies this`table
      ensures Landed(old(table) + other, table, mine, theirs) && inserted == |mine|
      ensures mine <= KeysOf(render, alerts) <= table.Keys
      ensures forall k | k in theirs :: Committed(during, k)
      ensures Alone(during) ==> theirs == {} && table == Ingest(render, old(table) + other, alerts)
    {
      mine, theirs := {}, {};
      var rows := PrepareRows(alerts);
      var existing := ExistingKeys(rows);
      var newRows := Fresh(render, rows, existing);
      table := table + other;
      CandidatesOk(render, table, alerts, rows, existing);
      if newRows == [] {
        return 0, mine, theirs;
      }
      if KeysOf(render, newRows) !! table.Keys {
        WholeCommit(render, table, newRows);
        mine := KeysOf(render, newRows);
        table := Ingest(render, table, newRows);
        return |newRows|, mine, theirs;
      }
      inserted, mine, theirs := InsertRowByRow(newRows, during);
    }

    // After a rolled-back commit: one transaction per row, collisions skipped.
    method InsertRowByRow(newRows: seq<Alert>, during: nat -> Table)
      returns (inserted: nat, ghost mine: set<Key>, ghost theirs: set<Key>)
      modifies this`table
      ensures Landed(old(table), table, mine, theirs) && inserted == |mine|
      ensures mine <= KeysOf(render, newRows) <= table.Keys
      ensures forall k | k in theirs :: Committed(during, k)
      ensures Alone(during) ==> theirs == {} && table == Ingest(render, old(table), newRows)
    {
      inserted := 0;
      ghost var start := table;
      UnderwayStarts(render, table, newRows, during);
      var i := 0;
      while i < |newRows|
        invariant 0 <= i <= |newRows|
        invariant Underway(render, start, table, newRows, i, inserted, during)
      {
        ghost var before, count := table, inserted;
        var added := InsertRow(newRows[i], during(i));
        if added { inserted := inserted + 1; }
        i := i + 1;
        UnderwayTurn(render, start, before, table, newRows, i - 1, i, count, inserted, during);
      }
      mine, theirs := UnderwayEnds(render, start, table, newRows, inserted, during);
    }

    // One transaction: it fails if the key is there by now.
    method InsertRow(a: Alert, committed: Table) returns (added: bool)
      modifies this`table
      ensures Turned(render, old(table), table, a, committed, added)
    {
      table := committed + table;
      added := DedupKey(render, a) !in table;
      if added {
        table := table[DedupKey(render, a) := a];
      }
    }

    // True exactly when an alert known only by this source id has been stored.
    method AlertSourceSeen(target: int, source: string) returns (seen: bool)
      requires Faithful(render) && WellKeyed(render, table) && NoSep(source) && source != ""
      ensures seen <==> exists k :: k in table && IdentityOf(table[k]) == Source(target, source)
      ensures seen <==> SourceKey(render, target, source) in table
    {
      seen := SourceKey(render, target, source) in table;
      ProbeFinds(render, table, Probe(target, source));
    }
  }

  // Every row is stored under its own key.
  ghost predicate WellKeyed(r: Render, t: Table) {
    forall k | k in t :: k == DedupKey(r, t[k]) && Clean(t[k])
  }

  ghost predicate AllCleanAlerts(alerts: seq<Alert>) {
    forall i | 0 <= i < |alerts| :: Clean(alerts[i])
  }

  lemma {:induction false} IngestWellKeyed(r: Render, t: Table, alerts: seq<Alert>)
    requires WellKeyed(r, t) && AllCleanAlerts(alerts)
    ensures WellKeyed(r, Ingest(r, t, alerts))
    decreases |alerts|
  {
    if alerts != [] {
      IngestWellKeyed(r, InsertOne(r, t, alerts[0]), alerts[1..]);
    }
  }

  // A key is present exactly when a row with the same identity is.
  lemma ProbeFinds(r: Render, t: Table, probe: Alert)
    requires Faithful(r) && WellKeyed(r, t) && Clean(probe)
    ensures DedupKey(r, probe) in t <==> exists k :: k in t && IdentityOf(t[k]) == IdentityOf(probe)
  {
    forall k | k in t
      ensures k == DedupKey(r, probe) <==> IdentityOf(t[k]) == IdentityOf(probe)
    {
      KeyIdentifies(r, t[k], probe);
    }
  }

  // In a store with one row per key, no two rows are of the same event.
  lemma OneRowPerEvent(r: Render, t: Table, j: Key, k: Key)
    requires Faithful(r) && WellKeyed(r, t) && j in t && k in t
    ensures IdentityOf(t[j]) == IdentityOf(t[k]) ==> j == k
  {
    KeyIdentifies(r, t[j], t[k]);
  }

  lemma KeysSplit(r: Render, s: seq<Alert>, i: nat)
    requires i <= |s|
    ensures KeysOf(r, s) == KeysOf(r, s[..i]) + KeysOf(r, s[i..])
  {
    assert s == s[..i] + s[i..];
    KeysConcat(r, s[..i], s[i..]);
  }

  // The rows prepared from the first i alerts, and what the others will add.
  ghost predicate Prepared(r: Render, alerts: seq<Alert>, i: nat, seen: set<Key>, rows: seq<Alert>)
    requires i <= |alerts|
  {
    rows + Fresh(r, alerts[i..], seen) == Fresh(r, alerts, {})
  }

  lemma PreparedStarts(r: Render, alerts: seq<Alert>)
    ensures Prepared(r, alerts, 0, {}, [])
  {
    assert alerts[0..] == alerts;
  }

  lemma PreparedNext(r: Render, alerts: seq<Alert>, i: nat, next: nat, seen: set<Key>, rows: seq<Alert>,
                     seen': set<Key>, rows': seq<Alert>)
    requires i < |alerts| && next == i + 1 && Prepared(r, alerts, i, seen, rows)
    requires var k := DedupKey(r, alerts[i]);
             if k in seen then seen' == seen && rows' == rows else seen' == seen + {k} && rows' == rows + [alerts[i]]
    ensures Prepared(r, alerts, next, seen', rows')
  {
    FreshFrom(r, alerts, i, next, seen);
    if DedupKey(r, alerts[i]) !in seen {
      Reassociate(rows, alerts[i], Fresh(r, alerts[next..], seen'));
    }
  }

  lemma Reassociate(rows: seq<Alert>, a: Alert, rest: seq<Alert>)
    ensures rows + ([a] + rest) == (rows + [a]) + rest
  {
  }

  lemma FreshFrom(r: Render, alerts: seq<Alert>, i: nat, next: nat, seen: set<Key>)
    requires i < |alerts| && next == i + 1
    ensures Fresh(r, alerts[i..], seen)
            == var k := DedupKey(r, alerts[i]);
               if k in seen then Fresh(r, alerts[next..], seen)
               else [alerts[i]] + Fresh(r, alerts[next..], seen + {k})
  {
    assert alerts[i..][1..] == alerts[next..];
  }

  lemma PreparedEnds(r: Render, alerts: seq<Alert>, seen: set<Key>, rows: seq<Alert>)
    requires Prepared(r, alerts, |alerts|, seen, rows)
    ensures rows == Fresh(r, alerts, {})
  {
    assert alerts[|alerts|..] == [];
  }

  lemma {:induction false} KeysConcat(r: Render, a: seq<Alert>, b: seq<Alert>)
    ensures KeysOf(r, a + b) == KeysOf(r, a) + KeysOf(r, b)
    decreases |a|
  {
    if a == [] {
      assert a + b == b;
    } else {
      assert (a + b)[1..] == a[1..] + b;
      KeysConcat(r, a[1..], b);
    }
  }
}
