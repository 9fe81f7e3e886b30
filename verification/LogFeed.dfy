/** A growing event log pulled again and again: exactly-once storage over every run
    (collector/src/redfish/log_baseline.py, collector/src/database/repository.py). */
module LogFeed {
  import opened Common
  import opened AlertStore
  import opened LogIngest

  // The log on the BMC, the stored cursor, alerts emitted but not yet written, the store.
  datatype Feed = Feed(log: seq<Member>, cursor: Option<int>, queue: seq<Alert>, table: Table)

  datatype Step =
    | Append(m: Member)
    | Pull(listing: seq<Member>, known: set<string>)
    | Store(n: nat)          // the batch writer takes up to n queued alerts

  function Apply(r: Render, f: Feed, e: Step, maxEntries: nat): Feed {
    match e
    case Append(m) => f.(log := f.log + [m])
    case Pull(listing, known) =>
      var kept := Kept(listing, maxEntries);
      f.(cursor := Advance(f.cursor, NewestSeen(kept, f.cursor, known)),
         queue := f.queue + Emitted(kept, f.cursor, known))
    case Store(n) =>
      var k := if n <= |f.queue| then n else |f.queue|;
      f.(queue := f.queue[k..], table := Ingest(r, f.table, f.queue[..k]))
  }

  // The entry's own time, which the listing may or may not show.
  function TimeOf(m: Member): Option<int> {
    Resolve(m).created
  }

  // A time shown in the listing is the entry's.
  predicate Agrees(m: Member) {
    m.created.Some? ==> TimeOf(m) == m.created
  }

  predicate Wanted(m: Member) {
    Resolve(m).usable && Resolve(m).wanted
  }

  ghost predicate NoEarlier(log: seq<Member>, m: Member) {
    forall x | x in log :: TimeOf(x).Some? && TimeOf(m).Some? ==> TimeOf(x).value <= TimeOf(m).value
  }

  // The cap leaves out nothing the pull has to look at: the whole listing fits, or every row
  // shows its time and those at or after the cursor fit.
  ghost predicate Fits(listing: seq<Member>, cursor: Option<int>, maxEntries: nat) {
    || |listing| <= maxEntries
    || ((forall m | m in listing :: m.created.Some?) && CountFrom(listing, cursor) <= maxEntries)
  }

  // Rows without a time that the pull is told are known are stored.
  ghost predicate SkipsOnlyStored(r: Render, table: Table, listing: seq<Member>, known: set<string>) {
    forall m | m in listing && m.created.None? && m.id.Some? && m.id.value in known :: KeyOf(r, m) in table
  }

  // Entries are appended in nondecreasing order of time, as far as they have one; a pull
  // lists the whole log, in any order, and fits.
  ghost predicate Legal(r: Render, f: Feed, e: Step, maxEntries: nat) {
    match e
    case Append(m) => Agrees(m) && NoEarlier(f.log, m)
    case Pull(listing, known) =>
      && Elements(listing) == Elements(f.log)
      && Fits(listing, f.cursor, maxEntries) && SkipsOnlyStored(r, f.table, listing, known)
    case Store(_) => true
  }

  // An entry without any time, whose alert is keyed by the id of its row.
  predicate Sourced(m: Member, target: int) {
    var a := Resolve(m).alert;
    m.id.Some? && m.id.value != "" && a.target == target && a.eventAt.None? && a.source == m.id
  }

  // When rows without a time are such entries, the answers of AlertSourceSeen are sound.
  lemma AnswersSkipOnlyStored(r: Render, table: Table, listing: seq<Member>, known: set<string>, target: int)
    requires forall m | m in listing && m.created.None? && m.id.Some? :: Sourced(m, target)
    requires forall id | id in known :: SourceKey(r, target, id) in table
    ensures SkipsOnlyStored(r, table, listing, known)
  {
    forall m | m in listing && m.created.None? && m.id.Some? && m.id.value in known
      ensures KeyOf(r, m) in table
    {
      var a := Resolve(m).alert;
      assert Sourced(m, target);
      assert Fields(r, a) == Fields(r, Probe(target, m.id.value));
    }
  }

  ghost function Saved(r: Render, f: Feed): set<Key> {
    f.table.Keys + KeysOf(r, f.queue)
  }

  predicate Before(m: Member, cursor: Option<int>) {
    cursor.Some? && TimeOf(m).Some? && TimeOf(m).value < cursor.value
  }

  // The cursor is the time of some entry of the log.
  ghost predicate CursorInLog(f: Feed) {
    f.cursor.Some? ==> exists x :: x in f.log && TimeOf(x) == f.cursor
  }

  // Everything wanted before the cursor is saved.
  ghost predicate CaughtUp(r: Render, f: Feed) {
    forall x | x in f.log && Wanted(x) && Before(x, f.cursor) :: KeyOf(r, x) in Saved(r, f)
  }

  // Nothing is saved that was not there at the start or wanted from the log.
  ghost predicate OnlyWanted(r: Render, f: Feed, base: set<Key>) {
    forall k | k in Saved(r, f) && k !in base :: exists x :: x in f.log && Wanted(x) && k == KeyOf(r, x)
  }

  ghost predicate Inv(r: Render, f: Feed, base: set<Key>) {
    && (forall x | x in f.log :: Agrees(x))
    && base <= Saved(r, f)
    && CursorInLog(f) && CaughtUp(r, f) && OnlyWanted(r, f, base)
  }

  ghost predicate AllSaved(r: Render, f: Feed) {
    forall x | x in f.log && Wanted(x) :: KeyOf(r, x) in Saved(r, f)
  }

  // ---- Steps ----

  lemma SavedByPull(r: Render, f: Feed, listing: seq<Member>, known: set<string>, maxEntries: nat)
    ensures Saved(r, Apply(r, f, Pull(listing, known), maxEntries))
            == Saved(r, f) + KeysOf(r, Emitted(Kept(listing, maxEntries), f.cursor, known))
  {
    KeysConcat(r, f.queue, Emitted(Kept(listing, maxEntries), f.cursor, known));
  }

  lemma StoreKeepsSaved(r: Render, f: Feed, n: nat, maxEntries: nat)
    ensures Saved(r, Apply(r, f, Store(n), maxEntries)) == Saved(r, f)
  {
    var k := if n <= |f.queue| then n else |f.queue|;
    IngestKeys(r, f.table, f.queue[..k]);
    KeysSplit(r, f.queue, k);
  }

  // A row that is not before the cursor is kept, if the listing fits.
  lemma FitKeeps(listing: seq<Member>, cursor: Option<int>, maxEntries: nat, x: Member)
    requires Fits(listing, cursor, maxEntries) && x in listing && Agrees(x) && !Before(x, cursor)
    ensures x in Kept(listing, maxEntries)
  {
    NewestFirstDescends(listing, cursor);
    if |listing| <= maxEntries {
      NewestFirstElements(listing);
      assert x in Elements(listing);
    } else {
      CapKeepsRecent(listing, cursor, maxEntries, x);
    }
  }

  // A complete pull that fits saves every wanted entry of the log.
  lemma PullSavesAll(r: Render, f: Feed, listing: seq<Member>, known: set<string>, maxEntries: nat, base: set<Key>)
    requires Inv(r, f, base) && Legal(r, f, Pull(listing, known), maxEntries)
    ensures AllSaved(r, Apply(r, f, Pull(listing, known), maxEntries))
  {
    SavedByPull(r, f, listing, known, maxEntries);
    forall x | x in f.log && Wanted(x)
      ensures KeyOf(r, x) in Saved(r, Apply(r, f, Pull(listing, known), maxEntries))
    {
      if !Before(x, f.cursor) {
        assert x in Elements(listing) && Agrees(x);
        FitKeeps(listing, f.cursor, maxEntries, x);
        KeptIsEmittedOrKnown(r, f, listing, known, maxEntries, x);
      }
    }
  }

  lemma KeptIsEmittedOrKnown(r: Render, f: Feed, listing: seq<Member>, known: set<string>, maxEntries: nat, x: Member)
    requires x in listing && Agrees(x) && Wanted(x) && !Before(x, f.cursor) && x in Kept(listing, maxEntries)
    requires SkipsOnlyStored(r, f.table, listing, known)
    ensures KeyOf(r, x) in Saved(r, f) + KeysOf(r, Emitted(Kept(listing, maxEntries), f.cursor, known))
  {
    if !(x.created.None? && x.id.Some? && x.id.value in known) {
      var kept := Kept(listing, maxEntries);
      var i :| 0 <= i < |kept| && kept[i] == x;
      EmittedHas(r, kept, f.cursor, known, i);
    }
  }

  lemma EmittedFromLog(r: Render, f: Feed, listing: seq<Member>, known: set<string>, maxEntries: nat, k: Key)
    returns (m: Member)
    requires Elements(listing) <= Elements(f.log)
    requires k in KeysOf(r, Emitted(Kept(listing, maxEntries), f.cursor, known))
    ensures m in f.log && Emits(m, f.cursor, known) && k == KeyOf(r, m)
  {
    m := EmittedOnly(r, Kept(listing, maxEntries), f.cursor, known, k);
    KeptAreMembers(listing, maxEntries, m);
    assert m in Elements(listing);
  }

  // The pull is told that this row, which shows no time, is known.
  predicate KnownRow(m: Member, known: set<string>) {
    m.created.None? && m.id.Some? && m.id.value in known
  }

  // Another row with the same key is emitted.
  ghost predicate SentByAnother(r: Render, f: Feed, known: set<string>, x: Member) {
    exists y :: y in f.log && Emits(y, f.cursor, known) && KeyOf(r, y) == KeyOf(r, x)
  }

  lemma SavedAfterIff(r: Render, f: Feed, listing: seq<Member>, known: set<string>, maxEntries: nat, base: set<Key>,
                      x: Member)
    requires Inv(r, f, base) && Elements(listing) == Elements(f.log) && Fits(listing, f.cursor, maxEntries)
    requires x in f.log && Wanted(x)
    ensures KeyOf(r, x) in Saved(r, Apply(r, f, Pull(listing, known), maxEntries))
            <==> !KnownRow(x, known) || KeyOf(r, x) in Saved(r, f) || SentByAnother(r, f, known, x)
  {
    SavedByPull(r, f, listing, known, maxEntries);
    var sent := KeysOf(r, Emitted(Kept(listing, maxEntries), f.cursor, known));
    if KeyOf(r, x) in sent {
      var y := EmittedFromLog(r, f, listing, known, maxEntries, KeyOf(r, x));
    }
    if y :| y in f.log && Emits(y, f.cursor, known) && KeyOf(r, y) == KeyOf(r, x) {
      EmitsIsSent(r, f, listing, known, maxEntries, y);
    }
    if !KnownRow(x, known) && KeyOf(r, x) !in Saved(r, f) {
      EmitsIsSent(r, f, listing, known, maxEntries, x);
    }
  }

  lemma EmitsIsSent(r: Render, f: Feed, listing: seq<Member>, known: set<string>, maxEntries: nat, y: Member)
    requires Elements(listing) == Elements(f.log) && Fits(listing, f.cursor, maxEntries)
    requires y in f.log && Agrees(y) && Emits(y, f.cursor, known)
    ensures KeyOf(r, y) in KeysOf(r, Emitted(Kept(listing, maxEntries), f.cursor, known))
  {
    assert y in Elements(listing);
    FitKeeps(listing, f.cursor, maxEntries, y);
    var kept := Kept(listing, maxEntries);
    var i :| 0 <= i < |kept| && kept[i] == y;
    EmittedHas(r, kept, f.cursor, known, i);
  }

  // With any answers at all, a complete pull that fits saves everything if and only if each
  // wanted row it takes as known is saved under its own key or sent by another row.
  lemma PullSavesAllIff(r: Render, f: Feed, listing: seq<Member>, known: set<string>, maxEntries: nat, base: set<Key>)
    requires Inv(r, f, base) && Elements(listing) == Elements(f.log) && Fits(listing, f.cursor, maxEntries)
    ensures AllSaved(r, Apply(r, f, Pull(listing, known), maxEntries))
            <==> forall x | x in f.log && Wanted(x) && KnownRow(x, known) ::
                   KeyOf(r, x) in Saved(r, f) || SentByAnother(r, f, known, x)
  {
    var after := Apply(r, f, Pull(listing, known), maxEntries);
    forall x | x in f.log && Wanted(x)
      ensures KeyOf(r, x) in Saved(r, after)
              <==> !KnownRow(x, known) || KeyOf(r, x) in Saved(r, f) || SentByAnother(r, f, known, x)
    {
      SavedAfterIff(r, f, listing, known, maxEntries, base, x);
    }
  }

  // A row that shows no time but whose entry has one, and the key the source lookup asks for.
  function LateTimed(id: string, t: int): Member {
    var e := Entry(Some(t), true, true, Alert(1, None, None, Some(Stamp(t, None)), None, Some(id)));
    Member(Some(id), None, None, false, Entry(None, false, false, e.alert), Some(e))
  }

  // Such a row is not saved while an alert is stored under its id alone: the lookup asks for
  // another key than the entry would get.
  lemma LateTimedSkipped(r: Render, id: string, t: int, table: Table)
    requires Faithful(r) && NoSep(id) && id != "" && table == map[SourceKey(r, 1, id) := Probe(1, id)]
    ensures var f := Feed([LateTimed(id, t)], None, [], table);
            && Wanted(LateTimed(id, t)) && SourceKey(r, 1, id) in table
            && !AllSaved(r, Apply(r, f, Pull([LateTimed(id, t)], {id}), 1))
  {
    var x := LateTimed(id, t);
    var f := Feed([x], None, [], table);
    KeyIdentifies(r, Resolve(x).alert, Probe(1, id));
    assert KeyOf(r, x) !in Saved(r, f);
    assert Inv(r, f, table.Keys);
    SavedAfterIff(r, f, [x], {id}, 1, table.Keys, x);
  }

  lemma PullOnlyWanted(r: Render, f: Feed, listing: seq<Member>, known: set<string>, maxEntries: nat, base: set<Key>)
    requires Elements(listing) <= Elements(f.log) && OnlyWanted(r, f, base)
    ensures OnlyWanted(r, Apply(r, f, Pull(listing, known), maxEntries), base)
  {
    SavedByPull(r, f, listing, known, maxEntries);
    var kept := Kept(listing, maxEntries);
    forall k | k in KeysOf(r, Emitted(kept, f.cursor, known))
      ensures exists x :: x in f.log && Wanted(x) && k == KeyOf(r, x)
    {
      var m := EmittedFromLog(r, f, listing, known, maxEntries, k);
    }
  }

  lemma PullCursorInLog(r: Render, f: Feed, listing: seq<Member>, known: set<string>, maxEntries: nat)
    requires Elements(listing) <= Elements(f.log) && CursorInLog(f)
    ensures CursorInLog(Apply(r, f, Pull(listing, known), maxEntries))
  {
    var kept := Kept(listing, maxEntries);
    var newest := NewestSeen(kept, f.cursor, known);
    if newest.Some? {
      NewestSeenOk(kept, f.cursor, known);
      var m :| m in kept && Resolve(m).created == newest;
      KeptAreMembers(listing, maxEntries, m);
      assert m in Elements(listing);
    }
  }

  lemma InvStep(r: Render, f: Feed, e: Step, maxEntries: nat, base: set<Key>)
    requires Inv(r, f, base) && Legal(r, f, e, maxEntries)
    ensures Inv(r, Apply(r, f, e, maxEntries), base)
  {
    match e
    case Append(m) => AppendInv(r, f, m, base);
    case Pull(listing, known) =>
      PullSavesAll(r, f, listing, known, maxEntries, base);
      PullOnlyWanted(r, f, listing, known, maxEntries, base);
      PullCursorInLog(r, f, listing, known, maxEntries);
      SavedByPull(r, f, listing, known, maxEntries);
    case Store(n) => StoreKeepsSaved(r, f, n, maxEntries);
  }

  // A late arrival at the cursor's own instant is not before the cursor.
  lemma AppendInv(r: Render, f: Feed, m: Member, base: set<Key>)
    requires Inv(r, f, base) && Agrees(m) && NoEarlier(f.log, m)
    ensures Inv(r, f.(log := f.log + [m]), base)
  {
    var g := f.(log := f.log + [m]);
    assert forall x | x in f.log :: x in g.log;
    assert forall x | x in g.log :: x in f.log || x == m;
    if f.cursor.Some? {
      var x :| x in f.log && TimeOf(x) == f.cursor;
      assert x in g.log;
    }
  }

  // ---- Runs ----

  ghost predicate LegalRun(r: Render, f: Feed, steps: seq<Step>, maxEntries: nat)
    decreases |steps|
  {
    steps != [] ==>
      Legal(r, f, steps[0], maxEntries) && LegalRun(r, Apply(r, f, steps[0], maxEntries), steps[1..], maxEntries)
  }

  function Run(r: Render, f: Feed, steps: seq<Step>, maxEntries: nat): Feed
    decreases |steps|
  {
    if steps == [] then f else Run(r, Apply(r, f, steps[0], maxEntries), steps[1..], maxEntries)
  }

  lemma {:induction false} InvRun(r: Render, f: Feed, steps: seq<Step>, maxEntries: nat, base: set<Key>)
    requires Inv(r, f, base) && LegalRun(r, f, steps, maxEntries)
    ensures Inv(r, Run(r, f, steps, maxEntries), base)
    decreases |steps|
  {
    if steps != [] {
      InvStep(r, f, steps[0], maxEntries, base);
      InvRun(r, Apply(r, f, steps[0], maxEntries), steps[1..], maxEntries, base);
    }
  }

  ghost function WantedKeys(r: Render, log: seq<Member>): set<Key> {
    set x | x in log && Wanted(x) :: KeyOf(r, x)
  }

  // What is stored after a run that ends with a pull and a drained queue.
  ghost predicate StoresExactly(r: Render, table: Table, before: Feed, listing: seq<Member>, known: set<string>,
                                maxEntries: nat)
  {
    var pulled := Apply(r, before, Pull(listing, known), maxEntries);
    var end := Apply(r, pulled, Store(|pulled.queue|), maxEntries);
    end.queue == [] && end.table.Keys == table.Keys + WantedKeys(r, end.log)
  }

  // If rows are only skipped as known when they are stored: one row for each distinct key of a
  // wanted log entry, beside what the store held at the start.
  lemma ExactlyOnceSkipping(r: Render, table: Table, steps: seq<Step>, listing: seq<Member>, known: set<string>,
                    maxEntries: nat)
    requires LegalRun(r, Feed([], None, [], table), steps, maxEntries)
    requires Legal(r, Run(r, Feed([], None, [], table), steps, maxEntries), Pull(listing, known), maxEntries)
    ensures StoresExactly(r, table, Run(r, Feed([], None, [], table), steps, maxEntries), listing, known, maxEntries)
  {
    var start := Feed([], None, [], table);
    var before := Run(r, start, steps, maxEntries);
    var pulled := Apply(r, before, Pull(listing, known), maxEntries);
    var end := Apply(r, pulled, Store(|pulled.queue|), maxEntries);
    InvRun(r, start, steps, maxEntries, table.Keys);
    PullSavesAll(r, before, listing, known, maxEntries, table.Keys);
    InvStep(r, before, Pull(listing, known), maxEntries, table.Keys);
    StoreKeepsSaved(r, pulled, |pulled.queue|, maxEntries);
    assert end.queue == [];
    assert Saved(r, end) == end.table.Keys;
    assert WantedKeys(r, end.log) <= end.table.Keys;
    forall k | k in end.table.Keys && k !in table.Keys
      ensures k in WantedKeys(r, end.log)
    {
      var x :| x in pulled.log && Wanted(x) && k == KeyOf(r, x);
      assert x in end.log;
    }
  }

  // ---- Known is what the lookup answers ----

  // The alert made from a row is of this target and carries the row's id as its source.
  ghost predicate Identified(m: Member, target: int) {
    var a := Resolve(m).alert;
    Clean(a) && a.target == target && a.source == m.id && (m.id.Some? ==> m.id.value != "")
  }

  ghost predicate IdIsNew(log: seq<Member>, m: Member) {
    m.id.Some? ==> forall x | x in log :: x.id != m.id
  }

  ghost predicate Answers(r: Render, target: int, table: Table, known: set<string>) {
    forall id | id in known :: SourceKey(r, target, id) in table
  }

  ghost predicate NoSources(r: Render, target: int, base: set<Key>) {
    forall id :: SourceKey(r, target, id) !in base
  }

  // As Legal, but nothing is said of the rows taken as known beyond what the lookup answered.
  ghost predicate LegalAnswered(r: Render, target: int, f: Feed, e: Step, maxEntries: nat) {
    match e
    case Append(m) => Agrees(m) && NoEarlier(f.log, m) && Identified(m, target) && IdIsNew(f.log, m)
    case Pull(listing, known) =>
      && Elements(listing) == Elements(f.log)
      && Fits(listing, f.cursor, maxEntries) && Answers(r, target, f.table, known)
    case Store(_) => true
  }

  // The log's rows are identified, and no two share an id.
  ghost predicate IdentifiedLog(log: seq<Member>, target: int) {
    && (forall x | x in log :: Identified(x, target))
    && (forall x, y | x in log && y in log && x.id.Some? && x.id == y.id :: x == y)
  }

  // A stored source key that was not there at the start is the key of the row with that id.
  lemma SourceIsRow(r: Render, target: int, f: Feed, base: set<Key>, m: Member)
    requires Faithful(r) && Inv(r, f, base) && NoSources(r, target, base) && IdentifiedLog(f.log, target)
    requires m in f.log && m.id.Some? && SourceKey(r, target, m.id.value) in f.table
    ensures KeyOf(r, m) in f.table
  {
    var id := m.id.value;
    var k := SourceKey(r, target, id);
    assert k in Saved(r, f) && k !in base;
    var x :| x in f.log && Wanted(x) && k == KeyOf(r, x);
    assert Identified(x, target) && Identified(m, target);
    KeyIdentifies(r, Resolve(x).alert, Probe(target, id));
    assert x.id == m.id;
  }

  lemma AnsweredIsLegal(r: Render, target: int, f: Feed, e: Step, maxEntries: nat, base: set<Key>)
    requires Faithful(r) && Inv(r, f, base) && NoSources(r, target, base) && IdentifiedLog(f.log, target)
    requires LegalAnswered(r, target, f, e, maxEntries)
    ensures Legal(r, f, e, maxEntries)
  {
    if e.Pull? {
      forall m | m in e.listing && m.created.None? && m.id.Some? && m.id.value in e.known
        ensures KeyOf(r, m) in f.table
      {
        assert m in Elements(e.listing);
        SourceIsRow(r, target, f, base, m);
      }
    }
  }

  lemma StillIdentified(r: Render, target: int, f: Feed, e: Step, maxEntries: nat)
    requires IdentifiedLog(f.log, target) && LegalAnswered(r, target, f, e, maxEntries)
    ensures IdentifiedLog(Apply(r, f, e, maxEntries).log, target)
  {
    if e.Append? {
      var log := f.log + [e.m];
      assert forall x | x in log :: x in f.log || x == e.m;
    }
  }

  ghost predicate AnsweredRun(r: Render, target: int, f: Feed, steps: seq<Step>, maxEntries: nat)
    decreases |steps|
  {
    steps != [] ==>
      && LegalAnswered(r, target, f, steps[0], maxEntries)
      && AnsweredRun(r, target, Apply(r, f, steps[0], maxEntries), steps[1..], maxEntries)
  }

  lemma {:induction false} AnsweredRunIsLegal(r: Render, target: int, f: Feed, steps: seq<Step>, maxEntries: nat,
                                              base: set<Key>)
    requires Faithful(r) && Inv(r, f, base) && NoSources(r, target, base) && IdentifiedLog(f.log, target)
    requires AnsweredRun(r, target, f, steps, maxEntries)
    ensures LegalRun(r, f, steps, maxEntries)
    ensures IdentifiedLog(Run(r, f, steps, maxEntries).log, target) && Inv(r, Run(r, f, steps, maxEntries), base)
    decreases |steps|
  {
    if steps != [] {
      AnsweredIsLegal(r, target, f, steps[0], maxEntries, base);
      InvStep(r, f, steps[0], maxEntries, base);
      StillIdentified(r, target, f, steps[0], maxEntries);
      AnsweredRunIsLegal(r, target, Apply(r, f, steps[0], maxEntries), steps[1..], maxEntries, base);
    }
  }

  // Exactly once: after any run that ends with a pull and a drained queue, the store holds
  // one row for each distinct key of a wanted log entry, beside what it held at the start;
  // entries without a time, and those whose time only the entry shows, included.
  lemma ExactlyOnce(r: Render, target: int, table: Table, steps: seq<Step>, listing: seq<Member>, known: set<string>,
                    maxEntries: nat)
    requires Faithful(r) && NoSources(r, target, table.Keys)
    requires AnsweredRun(r, target, Feed([], None, [], table), steps, maxEntries)
    requires LegalAnswered(r, target, Run(r, Feed([], None, [], table), steps, maxEntries), Pull(listing, known),
                           maxEntries)
    ensures StoresExactly(r, table, Run(r, Feed([], None, [], table), steps, maxEntries), listing, known, maxEntries)
  {
    var start := Feed([], None, [], table);
    AnsweredRunIsLegal(r, target, start, steps, maxEntries, table.Keys);
    AnsweredIsLegal(r, target, Run(r, start, steps, maxEntries), Pull(listing, known), maxEntries, table.Keys);
    ExactlyOnceSkipping(r, table, steps, listing, known, maxEntries);
  }

  // Everything stored or queued is keyed by its own content, if the log's alerts are clean.
  ghost predicate Tidy(r: Render, f: Feed) {
    WellKeyed(r, f.table) && AllCleanAlerts(f.queue)
  }

  ghost predicate CleanLog(log: seq<Member>) {
    forall x | x in log :: Clean(Resolve(x).alert)
  }

  lemma {:induction false} EmittedClean(members: seq<Member>, cursor: Option<int>, known: set<string>)
    requires CleanLog(members)
    ensures AllCleanAlerts(Emitted(members, cursor, known))
  {
    if members != [] {
      var init := members[..|members| - 1];
      assert forall x | x in init :: x in members;
      assert members[|members| - 1] in members;
      EmittedClean(init, cursor, known);
    }
  }

  lemma TidyStep(r: Render, f: Feed, e: Step, maxEntries: nat)
    requires Tidy(r, f) && (e.Pull? ==> CleanLog(e.listing))
    ensures Tidy(r, Apply(r, f, e, maxEntries))
  {
    match e
    case Append(m) =>
    case Pull(listing, known) =>
      var kept := Kept(listing, maxEntries);
      forall x | x in kept
        ensures Clean(Resolve(x).alert)
      {
        KeptAreMembers(listing, maxEntries, x);
      }
      EmittedClean(kept, f.cursor, known);
    case Store(n) =>
      var k := if n <= |f.queue| then n else |f.queue|;
      IngestWellKeyed(r, f.table, f.queue[..k]);
  }

  lemma {:induction false} TidyRun(r: Render, f: Feed, steps: seq<Step>, maxEntries: nat)
    requires Tidy(r, f) && forall i | 0 <= i < |steps| && steps[i].Pull? :: CleanLog(steps[i].listing)
    ensures Tidy(r, Run(r, f, steps, maxEntries))
    decreases |steps|
  {
    if steps != [] {
      TidyStep(r, f, steps[0], maxEntries);
      TidyRun(r, Apply(r, f, steps[0], maxEntries), steps[1..], maxEntries);
    }
  }

  // In a tidy store, an event whose key is present, timed or known only by its source id, has
  // exactly one row.
  lemma OneRowPerEntry(r: Render, f: Feed, x: Member) returns (k: Key)
    requires Faithful(r) && Tidy(r, f) && Clean(Resolve(x).alert) && KeyOf(r, x) in f.table
    ensures k in f.table && IdentityOf(f.table[k]) == IdentityOf(Resolve(x).alert)
    ensures forall j | j in f.table && IdentityOf(f.table[j]) == IdentityOf(Resolve(x).alert) :: j == k
  {
    k := KeyOf(r, x);
    forall j | j in f.table
      ensures IdentityOf(f.table[j]) == IdentityOf(Resolve(x).alert) <==> j == k
    {
      KeyIdentifies(r, f.table[j], Resolve(x).alert);
    }
  }

  // ---- The cursor ----

  predicate NotAfter(a: Option<int>, b: Option<int>) {
    a.None? || (b.Some? && a.value <= b.value)
  }

  // The cursor never moves back, in any run at all.
  lemma {:induction false} CursorMonotone(r: Render, f: Feed, steps: seq<Step>, maxEntries: nat)
    ensures NotAfter(f.cursor, Run(r, f, steps, maxEntries).cursor)
    decreases |steps|
  {
    if steps != [] { CursorMonotone(r, Apply(r, f, steps[0], maxEntries), steps[1..], maxEntries); }
  }
}
