/** The CPER enrichment retry machine (collector/src/cper_worker.py; the cper functions of
    collector/src/database/repository.py).

    One worker selects pending rows, works on a snapshot of them, and writes all outcomes
    back in one go. Alerts are inserted and expire meanwhile, and the worker may be
    restarted at any point, which loses the outcomes not yet written. */
module CperRetry {
  import opened Common

  datatype Status = Pending | Decoded | NoData | Unavailable | FetchFailed | DecodeFailed

  predicate Final(s: Status) {
    s == Decoded || s == NoData || s == Unavailable || s == DecodeFailed
  }

  datatype Row = Row(status: Status, attempts: nat, attemptedAt: Option<int>)
  type Rows = map<int, Row>

  // ---- Enriching one row ----

  // What the outside world answers while one row is enriched.
  datatype Fetch = Fetched | Gone | FetchError
  datatype World = World(hasDecoded: bool, blobFound: bool, hasUri: bool, targetFound: bool, fetch: Fetch,
                         decodes: bool, raises: bool, running: bool)

  datatype Result = Result(id: int, status: Status, increment: bool)

  // _enrich_one and the crash handler of _guarded; None when there is nothing to store.
  function Enrich(id: int, attempts: nat, w: World, maxAttempts: nat): Option<Result> {
    var spent := attempts + 1 >= maxAttempts;
    if !w.running then None
    else if w.raises then Some(Result(id, if spent then DecodeFailed else Pending, true))
    else if w.hasDecoded && w.blobFound then Some(Result(id, Decoded, false))
    else if !w.hasUri then Some(Result(id, NoData, false))
    else if !w.targetFound then Some(Result(id, Unavailable, false))
    else
      match w.fetch
      case Gone => Some(Result(id, Unavailable, false))
      case FetchError => Some(Result(id, if spent then FetchFailed else Pending, true))
      case Fetched =>
        if w.decodes then Some(Result(id, Decoded, false))
        else Some(Result(id, if spent then DecodeFailed else Pending, true))
  }

  // ---- The table operations ----

  predicate Selectable(r: Row, maxAttempts: nat, cutoff: Option<int>) {
    && r.status == Pending && r.attempts < maxAttempts
    && (cutoff.None? || r.attemptedAt.None? || r.attemptedAt.value < cutoff.value)
  }

  // UPDATE ... WHERE id = r.id, in its own savepoint; refused writes change nothing.
  function SaveOne(rows: Rows, r: Result, refused: set<int>, now: int): Rows {
    if r.id in refused || r.id !in rows then rows
    else
      rows[r.id := Row(r.status, rows[r.id].attempts + if r.increment then 1 else 0, Some(now))]
  }

  function Save(rows: Rows, results: seq<Result>, refused: set<int>, now: int): Rows {
    if results == [] then rows
    else SaveOne(Save(rows, results[..|results| - 1], refused, now), results[|results| - 1], refused, now)
  }

  function Finalize(rows: Rows, maxAttempts: nat): Rows {
    map i | i in rows ::
      if rows[i].status == Pending && rows[i].attempts >= maxAttempts then rows[i].(status := FetchFailed)
      else rows[i]
  }

  predicate Requeueable(r: Row, cutoff: int) {
    r.status == FetchFailed && (r.attemptedAt.None? || r.attemptedAt.value < cutoff)
  }

  function Requeue(rows: Rows, ids: set<int>): Rows {
    map i | i in rows :: if i in ids then rows[i].(status := Pending, attempts := 0) else rows[i]
  }

  // ---- The machine ----

  // picked: the snapshot being worked on; fails: failures recorded for a row since it was
  // inserted or last requeued.
  datatype State = State(rows: Rows, picked: map<int, nat>, fails: map<int, nat>)

  datatype Step =
    | Insert(id: int)
    | Expire(ids: set<int>)
    | Select(ids: set<int>, cutoff: Option<int>)
    | Persist(results: seq<Result>, refused: set<int>, now: int)
    | Restart
    | FinalizeAll
    | RequeueSome(ids: set<int>, olderThan: int)

  // Some course of events turns the row of the snapshot into r.
  ghost predicate Explained(r: Result, picked: map<int, nat>, maxAttempts: nat) {
    r.id in picked && exists w :: Enrich(r.id, picked[r.id], w, maxAttempts) == Some(r)
  }

  // Results come from rows of the snapshot, at most one each.
  ghost predicate FromSnapshot(results: seq<Result>, picked: map<int, nat>, maxAttempts: nat) {
    && (forall k | 0 <= k < |results| :: Explained(results[k], picked, maxAttempts))
    && (forall j, k | 0 <= j < k < |results| :: results[j].id != results[k].id)
  }

  ghost predicate Legal(s: State, e: Step, maxAttempts: nat) {
    match e
    case Insert(id) => id !in s.rows && id !in s.picked
    case Select(ids, cutoff) =>
      s.picked == map[] && forall i | i in ids :: i in s.rows && Selectable(s.rows[i], maxAttempts, cutoff)
    case Persist(results, _, _) => FromSnapshot(results, s.picked, maxAttempts)
    case FinalizeAll => s.picked == map[]
    case RequeueSome(ids, olderThan) =>
      s.picked == map[] && forall i | i in ids :: i in s.rows && Requeueable(s.rows[i], olderThan)
    case _ => true
  }

  // How many of the stored results are failures of row i.
  function FailuresOf(results: seq<Result>, refused: set<int>, i: int): nat {
    if results == [] then 0
    else
      var r := results[|results| - 1];
      FailuresOf(results[..|results| - 1], refused, i) + if r.id == i && r.increment && i !in refused then 1 else 0
  }

  function AddFailures(fails: map<int, nat>, results: seq<Result>, refused: set<int>): map<int, nat> {
    map i | i in fails :: fails[i] + FailuresOf(results, refused, i)
  }

  function Apply(s: State, e: Step, maxAttempts: nat): State {
    match e
    case Insert(id) =>
      State(s.rows[id := Row(Pending, 0, None)], s.picked, s.fails[id := 0])
    case Expire(ids) => State(s.rows - ids, s.picked, s.fails - ids)
    case Select(ids, _) => s.(picked := map i | i in ids && i in s.rows :: s.rows[i].attempts)
    case Persist(results, refused, now) =>
      State(Save(s.rows, results, refused, now), map[], AddFailures(s.fails, results, refused))
    case Restart => s.(picked := map[])
    case FinalizeAll => s.(rows := Finalize(s.rows, maxAttempts))
    case RequeueSome(ids, _) =>
      State(Requeue(s.rows, ids), s.picked, map i | i in s.fails :: if i in ids then 0 else s.fails[i])
  }

  // ---- The invariant ----

  ghost predicate RowInv(s: State, i: int, maxAttempts: nat)
    requires i in s.rows
  {
    && s.rows[i].attempts <= maxAttempts
    && (s.rows[i].status == Pending ==> s.rows[i].attempts < maxAttempts)
    && i in s.fails && s.fails[i] == s.rows[i].attempts
    && (i in s.picked ==> s.rows[i].status == Pending && s.rows[i].attempts == s.picked[i])
  }

  ghost predicate Inv(s: State, maxAttempts: nat) {
    && (forall i | i in s.rows :: RowInv(s, i, maxAttempts))
    && s.fails.Keys == s.rows.Keys
  }

  // A saved batch touches a row at most once, so each row ends as one SaveOne leaves it.
  lemma {:induction false} SaveRow(rows: Rows, results: seq<Result>, refused: set<int>, now: int, i: int)
    requires i in rows && forall j, k | 0 <= j < k < |results| :: results[j].id != results[k].id
    ensures Save(rows, results, refused, now).Keys == rows.Keys
    ensures var row := Save(rows, results, refused, now)[i];
            || row == rows[i]
            || exists k :: 0 <= k < |results| && results[k].id == i
                 && row == Row(results[k].status, rows[i].attempts + if results[k].increment then 1 else 0, Some(now))
    ensures (forall k | 0 <= k < |results| :: results[k].id != i) ==> Save(rows, results, refused, now)[i] == rows[i]
    decreases |results|
  {
    if results != [] {
      var n := |results| - 1;
      var init := results[..n];
      assert forall k | 0 <= k < n :: init[k] == results[k];
      SaveRow(rows, init, refused, now, i);
    }
  }

  lemma {:induction false} SaveKeys(rows: Rows, results: seq<Result>, refused: set<int>, now: int)
    ensures Save(rows, results, refused, now).Keys == rows.Keys
    decreases |results|
  {
    if results != [] { SaveKeys(rows, results[..|results| - 1], refused, now); }
  }

  // The stored attempt counter counts exactly the failures among the stored results.
  lemma {:induction false} SaveCountsFailures(rows: Rows, results: seq<Result>, refused: set<int>, now: int, i: int)
    requires i in rows
    ensures i in Save(rows, results, refused, now)
    ensures Save(rows, results, refused, now)[i].attempts == rows[i].attempts + FailuresOf(results, refused, i)
    decreases |results|
  {
    if results != [] { SaveCountsFailures(rows, results[..|results| - 1], refused, now, i); }
  }

  // The attempt went wrong in a way that is tried again.
  predicate Retryable(w: World) {
    || w.raises
    || (!(w.hasDecoded && w.blobFound) && w.hasUri && w.targetFound
        && (w.fetch == FetchError || (w.fetch == Fetched && !w.decodes)))
  }

  // Which outcome an enrichment has, outcome by outcome.
  lemma EnrichIs(id: int, attempts: nat, w: World, maxAttempts: nat)
    ensures Enrich(id, attempts, w, maxAttempts).None? <==> !w.running
    ensures w.running ==>
              var r := Enrich(id, attempts, w, maxAttempts).value;
              && r.id == id && (r.increment <==> Retryable(w))
              && (r.status == Pending <==> Retryable(w) && attempts + 1 < maxAttempts)
              && (r.status == FetchFailed <==>
                    Retryable(w) && attempts + 1 >= maxAttempts && !w.raises && w.fetch == FetchError)
              && (r.status == DecodeFailed <==>
                    Retryable(w) && attempts + 1 >= maxAttempts && (w.raises || w.fetch == Fetched))
              && (r.status == NoData <==> !w.raises && !(w.hasDecoded && w.blobFound) && !w.hasUri)
              && (r.status == Decoded <==>
                    !w.raises && ((w.hasDecoded && w.blobFound)
                                  || (w.hasUri && w.targetFound && w.fetch == Fetched && w.decodes)))
              && (r.status == Unavailable <==>
                    !w.raises && !(w.hasDecoded && w.blobFound) && w.hasUri && (!w.targetFound || w.fetch == Gone))
  {
  }

  // What one enrichment may do to the row it snapshotted.
  lemma EnrichBounded(id: int, attempts: nat, w: World, maxAttempts: nat)
    requires attempts < maxAttempts && Enrich(id, attempts, w, maxAttempts).Some?
    ensures var r := Enrich(id, attempts, w, maxAttempts).value;
            && (r.increment ==> (r.status == Pending <==> attempts + 1 < maxAttempts))
            && (!r.increment ==> Final(r.status))
  {
  }

  lemma PersistKeepsRow(s: State, results: seq<Result>, refused: set<int>, now: int, maxAttempts: nat, i: int)
    requires Inv(s, maxAttempts) && FromSnapshot(results, s.picked, maxAttempts) && i in s.rows
    ensures i in Apply(s, Persist(results, refused, now), maxAttempts).rows
    ensures RowInv(Apply(s, Persist(results, refused, now), maxAttempts), i, maxAttempts)
    ensures Final(s.rows[i].status) ==>
              Apply(s, Persist(results, refused, now), maxAttempts).rows[i] == s.rows[i]
  {
    SaveRow(s.rows, results, refused, now, i);
    SaveCountsFailures(s.rows, results, refused, now, i);
    assert RowInv(s, i, maxAttempts);
    var row := Save(s.rows, results, refused, now)[i];
    if row != s.rows[i] {
      var k :| 0 <= k < |results| && results[k].id == i
               && row == Row(results[k].status, s.rows[i].attempts + if results[k].increment then 1 else 0, Some(now));
      assert Explained(results[k], s.picked, maxAttempts);
      var w :| Enrich(results[k].id, s.picked[results[k].id], w, maxAttempts) == Some(results[k]);
      EnrichBounded(i, s.picked[i], w, maxAttempts);
    }
  }

  lemma InvStep(s: State, e: Step, maxAttempts: nat)
    requires maxAttempts > 0 && Inv(s, maxAttempts) && Legal(s, e, maxAttempts)
    ensures Inv(Apply(s, e, maxAttempts), maxAttempts)
  {
    var s' := Apply(s, e, maxAttempts);
    if e.Persist? { SaveKeys(s.rows, e.results, e.refused, e.now); }
    forall i | i in s'.rows
      ensures RowInv(s', i, maxAttempts)
    {
      if i in s.rows {
        assert RowInv(s, i, maxAttempts);
        if e.Persist? { PersistKeepsRow(s, e.results, e.refused, e.now, maxAttempts, i); }
      }
    }
  }

  // ---- Runs ----

  ghost predicate LegalRun(s: State, steps: seq<Step>, maxAttempts: nat)
    decreases |steps|
  {
    steps != [] ==>
      Legal(s, steps[0], maxAttempts) && LegalRun(Apply(s, steps[0], maxAttempts), steps[1..], maxAttempts)
  }

  function Run(s: State, steps: seq<Step>, maxAttempts: nat): State
    decreases |steps|
  {
    if steps == [] then s else Run(Apply(s, steps[0], maxAttempts), steps[1..], maxAttempts)
  }

  // A run goes on from where its first part ended.
  lemma {:induction false} RunExtends(s: State, steps: seq<Step>, e: Step, maxAttempts: nat)
    ensures Run(s, steps + [e], maxAttempts) == Apply(Run(s, steps, maxAttempts), e, maxAttempts)
    decreases |steps|
  {
    if steps == [] {
      assert [] + [e] == [e] && [e][1..] == [];
    } else {
      assert (steps + [e])[1..] == steps[1..] + [e] && (steps + [e])[0] == steps[0];
      RunExtends(Apply(s, steps[0], maxAttempts), steps[1..], e, maxAttempts);
    }
  }

  // In any state at all, the finalize step leaves no pending row that would never be selected.
  lemma StepFinalizes(s: State, maxAttempts: nat, i: int)
    requires i in s.rows
    ensures var r := Apply(s, FinalizeAll, maxAttempts);
            && i in r.rows && (r.rows[i].status == Pending ==> r.rows[i].attempts < maxAttempts)
            && (s.rows[i].status == Pending && s.rows[i].attempts >= maxAttempts ==> r.rows[i].status == FetchFailed)
  {
  }

  // Over every run, restarts and refused writes included: attempts never exceed the
  // maximum, a pending row always has an attempt left, and the failures recorded for a row
  // since it was last requeued are its attempts, so at most the maximum.
  lemma {:induction false} RetryInvariant(s: State, steps: seq<Step>, maxAttempts: nat)
    requires maxAttempts > 0 && Inv(s, maxAttempts) && LegalRun(s, steps, maxAttempts)
    ensures Inv(Run(s, steps, maxAttempts), maxAttempts)
    ensures forall i | i in Run(s, steps, maxAttempts).rows ::
              i in Run(s, steps, maxAttempts).fails && Run(s, steps, maxAttempts).fails[i] <= maxAttempts
    decreases |steps|
  {
    if steps != [] {
      InvStep(s, steps[0], maxAttempts);
      RetryInvariant(Apply(s, steps[0], maxAttempts), steps[1..], maxAttempts);
    } else {
      assert forall i | i in s.rows :: RowInv(s, i, maxAttempts);
    }
  }

  // Decoded, no_data, unavailable and decode_failed are never left: over any run the row
  // is unchanged or gone.
  lemma {:induction false} FinalForever(s: State, steps: seq<Step>, maxAttempts: nat, i: int)
    requires maxAttempts > 0 && Inv(s, maxAttempts) && LegalRun(s, steps, maxAttempts)
    requires i in s.rows && s.rows[i].status in {Decoded, NoData, Unavailable, DecodeFailed}
    requires forall k | 0 <= k < |steps| :: steps[k] != Insert(i)
    ensures i in Run(s, steps, maxAttempts).rows ==> Run(s, steps, maxAttempts).rows[i] == s.rows[i]
    decreases |steps|
  {
    if steps != [] {
      var next := Apply(s, steps[0], maxAttempts);
      InvStep(s, steps[0], maxAttempts);
      assert RowInv(s, i, maxAttempts);
      if steps[0].Persist? {
        PersistKeepsRow(s, steps[0].results, steps[0].refused, steps[0].now, maxAttempts, i);
      }
      if i in next.rows {
        FinalForever(next, steps[1..], maxAttempts, i);
      } else {
        GoneForever(next, steps[1..], maxAttempts, i);
      }
    }
  }

  lemma {:induction false} GoneForever(s: State, steps: seq<Step>, maxAttempts: nat, i: int)
    requires i !in s.rows && forall k | 0 <= k < |steps| :: steps[k] != Insert(i)
    ensures i !in Run(s, steps, maxAttempts).rows
    decreases |steps|
  {
    if steps != [] {
      if steps[0].Persist? { SaveKeys(s.rows, steps[0].results, steps[0].refused, steps[0].now); }
      GoneForever(Apply(s, steps[0], maxAttempts), steps[1..], maxAttempts, i);
    }
  }

  // From any table at all, one finalize leaves no pending row that the worker would never
  // select, and touches nothing else.
  lemma FinalizeClearsLimbo(rows: Rows, maxAttempts: nat)
    ensures var r := Finalize(rows, maxAttempts);
            && r.Keys == rows.Keys
            && (forall i | i in r && r[i].status == Pending :: Selectable(r[i], maxAttempts, None))
            && (forall i | i in r && r[i] != rows[i] ::
                  rows[i].status == Pending && rows[i].attempts >= maxAttempts && r[i].status == FetchFailed)
  {
  }

  // A row is selectable exactly when it is pending, has an attempt left, and was not attempted
  // since the cutoff; and it is requeued only if it failed to be fetched, before the cutoff.
  lemma SelectionIs(r: Row, maxAttempts: nat, cutoff: int)
    ensures Selectable(r, maxAttempts, Some(cutoff))
            <==> && r.status == Pending && maxAttempts > r.attempts
                 && !(r.attemptedAt.Some? && r.attemptedAt.value >= cutoff)
    ensures Selectable(r, maxAttempts, None) <==> r.status == Pending && maxAttempts > r.attempts
    ensures Requeueable(r, cutoff)
            <==> r.status == FetchFailed && !(r.attemptedAt.Some? && r.attemptedAt.value >= cutoff)
  {
  }

  // A new row waits for its first attempt.
  lemma InsertIs(s: State, id: int, maxAttempts: nat)
    ensures var r := Apply(s, Insert(id), maxAttempts);
            && id in r.rows && r.rows[id].status == Pending
            && r.rows[id].attempts == 0 && r.rows[id].attemptedAt == None
            && (forall i | i in s.rows && i != id :: i in r.rows && r.rows[i] == s.rows[i])
  {
  }

  // A requeue gives the chosen rows all their attempts back and touches no other.
  lemma RequeueIs(rows: Rows, ids: set<int>, i: int)
    requires i in rows
    ensures i in Requeue(rows, ids)
    ensures var r := Requeue(rows, ids)[i];
            if i in ids then r.status == Pending && r.attempts == 0 && r.attemptedAt == rows[i].attemptedAt
            else r == rows[i]
  {
  }

  // ---- The worker's batch ----

  // A row as the worker selected it.
  datatype Picked = Picked(id: int, attempts: nat)

  // The outcomes of one batch, in row order; rows with nothing to store are left out.
  function EnrichAll(rows: seq<Picked>, world: int -> World, maxAttempts: nat): seq<Result> {
    if rows == [] then []
    else
      var row, init := rows[|rows| - 1], EnrichAll(rows[..|rows| - 1], world, maxAttempts);
      match Enrich(row.id, row.attempts, world(row.id), maxAttempts)
      case None => init
      case Some(r) => init + [r]
  }

  ghost predicate SelectedFrom(rows: seq<Picked>, picked: map<int, nat>) {
    && (forall i | 0 <= i < |rows| :: rows[i].id in picked && picked[rows[i].id] == rows[i].attempts)
    && (forall i, j | 0 <= i < j < |rows| :: rows[i].id != rows[j].id)
  }

  ghost predicate IdsAmong(results: seq<Result>, rows: seq<Picked>) {
    forall k | 0 <= k < |results| :: HasId(rows, results[k].id)
  }

  ghost predicate HasId(rows: seq<Picked>, id: int) {
    exists i :: 0 <= i < |rows| && rows[i].id == id
  }

  lemma IdsAmongGrows(results: seq<Result>, init: seq<Picked>, row: Picked)
    requires IdsAmong(results, init)
    ensures IdsAmong(results, init + [row])
  {
    forall k | 0 <= k < |results|
      ensures HasId(init + [row], results[k].id)
    {
      assert HasId(init, results[k].id);
      var i :| 0 <= i < |init| && init[i].id == results[k].id;
      assert (init + [row])[i] == init[i];
    }
  }

  lemma SnapshotGrows(init: seq<Picked>, row: Picked, results: seq<Result>, r: Result, picked: map<int, nat>,
                      w: World, maxAttempts: nat)
    requires SelectedFrom(init + [row], picked) && IdsAmong(results, init)
    requires FromSnapshot(results, picked, maxAttempts)
    requires Enrich(row.id, row.attempts, w, maxAttempts) == Some(r)
    ensures FromSnapshot(results + [r], picked, maxAttempts) && IdsAmong(results + [r], init + [row])
  {
    var rows, all := init + [row], results + [r];
    assert r.id == row.id == rows[|init|].id && picked[row.id] == row.attempts;
    IdsAmongGrows(results, init, row);
    forall k | 0 <= k < |results|
      ensures results[k].id != r.id
    {
      assert HasId(init, results[k].id);
      var i :| 0 <= i < |init| && init[i].id == results[k].id;
      assert rows[i] == init[i];
    }
    assert HasId(rows, r.id);
    assert Explained(r, picked, maxAttempts);
    assert forall k | 0 <= k < |results| :: all[k] == results[k];
  }

  // The batch the worker stores is one the machine's Persist step allows.
  lemma {:induction false} BatchFromSnapshot(rows: seq<Picked>, picked: map<int, nat>, world: int -> World,
                                             maxAttempts: nat)
    requires SelectedFrom(rows, picked)
    ensures FromSnapshot(EnrichAll(rows, world, maxAttempts), picked, maxAttempts)
    ensures IdsAmong(EnrichAll(rows, world, maxAttempts), rows)
  {
    if rows != [] {
      var init, row := rows[..|rows| - 1], rows[|rows| - 1];
      assert rows == init + [row];
      BatchFromSnapshot(init, picked, world, maxAttempts);
      var results := EnrichAll(init, world, maxAttempts);
      match Enrich(row.id, row.attempts, world(row.id), maxAttempts)
      case None => IdsAmongGrows(results, init, row);
      case Some(r) => SnapshotGrows(init, row, results, r, picked, world(row.id), maxAttempts);
    }
  }

  function CountDecoded(results: seq<Result>): nat {
    if results == [] then 0
    else CountDecoded(results[..|results| - 1]) + if results[|results| - 1].status == Decoded then 1 else 0
  }

  function CountFailed(results: seq<Result>): nat {
    if results == [] then 0
    else CountFailed(results[..|results| - 1]) + if results[|results| - 1].increment then 1 else 0
  }

  lemma CountNext(results: seq<Result>, r: Result)
    ensures CountDecoded(results + [r]) == CountDecoded(results) + if r.status == Decoded then 1 else 0
    ensures CountFailed(results + [r]) == CountFailed(results) + if r.increment then 1 else 0
  {
    assert (results + [r])[..|results|] == results;
  }

  lemma EnrichNext(rows: seq<Picked>, world: int -> World, maxAttempts: nat, n: nat, next: nat)
    requires n < |rows| && next == n + 1
    ensures EnrichAll(rows[..next], world, maxAttempts)
            == var init := EnrichAll(rows[..n], world, maxAttempts);
               match Enrich(rows[n].id, rows[n].attempts, world(rows[n].id), maxAttempts)
               case None => init
               case Some(r) => init + [r]
  {
    assert rows[..next][..n] == rows[..n];
  }

  class CperWorker {
    const maxAttempts: nat
    var decoded: nat
    var failed: nat

    constructor (maxAttempts: nat)
      ensures this.maxAttempts == maxAttempts && decoded == 0 && failed == 0
    {
      this.maxAttempts, decoded, failed := maxAttempts, 0, 0;
    }

    // Runs the enrichments of one batch; the counters follow the outcomes.
    method EnrichBatch(rows: seq<Picked>, world: int -> World, ghost picked: map<int, nat>)
      returns (results: seq<Result>)
      requires SelectedFrom(rows, picked)
      modifies this
      ensures results == EnrichAll(rows, world, maxAttempts)
      ensures FromSnapshot(results, picked, maxAttempts)
      ensures decoded == old(decoded) + CountDecoded(results)
      ensures failed == old(failed) + CountFailed(results)
    {
      results := [];
      var n := 0;
      assert rows[..0] == [];
      while n < |rows|
        invariant 0 <= n <= |rows| && results == EnrichAll(rows[..n], world, maxAttempts)
        invariant decoded == old(decoded) + CountDecoded(results)
        invariant failed == old(failed) + CountFailed(results)
      {
        var outcome := EnrichOne(rows[n], world(rows[n].id));
        n := n + 1;
        EnrichNext(rows, world, maxAttempts, n - 1, n);
        if outcome.Some? {
          CountNext(results, outcome.value);
          results := results + [outcome.value];
        }
      }
      assert rows[..n] == rows;
      BatchFromSnapshot(rows, picked, world, maxAttempts);
    }

    // One row, with the crash handler around it.
    method EnrichOne(row: Picked, w: World) returns (outcome: Option<Result>)
      modifies this
      ensures outcome == Enrich(row.id, row.attempts, w, maxAttempts)
      ensures decoded == old(decoded) + if outcome.Some? && outcome.value.status == Decoded then 1 else 0
      ensures failed == old(failed) + if outcome.Some? && outcome.value.increment then 1 else 0
    {
      outcome := Enrich(row.id, row.attempts, w, maxAttempts);
      if outcome.Some? {
        if outcome.value.status == Decoded { decoded := decoded + 1; }
        if outcome.value.increment { failed := failed + 1; }
      }
    }
  }

  // ---- The repository's statements ----

  // Writes that were not refused, whether or not their row still exists.
  function CountSaved(results: seq<Result>, refused: set<int>): nat {
    if results == [] then 0
    else CountSaved(results[..|results| - 1], refused) + if results[|results| - 1].id in refused then 0 else 1
  }

  // The places in results that hold for keep.
  ghost function Where(results: seq<Result>, keep: Result -> bool): set<int> {
    set i | 0 <= i < |results| && keep(results[i])
  }

  lemma WhereGrows(results: seq<Result>, keep: Result -> bool)
    requires results != []
    ensures var n := |results| - 1;
            |Where(results, keep)| == |Where(results[..n], keep)| + if keep(results[n]) then 1 else 0
  {
    var n := |results| - 1;
    assert Where(results, keep)
        == if keep(results[n]) then Where(results[..n], keep) + {n} else Where(results[..n], keep);
  }

  // The counters count places: decoded results, results that use up an attempt, and results
  // whose write was not refused.
  lemma {:induction false} CountsAre(results: seq<Result>, refused: set<int>)
    ensures CountDecoded(results) == |Where(results, (r: Result) => r.status == Decoded)|
    ensures CountFailed(results) == |Where(results, (r: Result) => r.increment)|
    ensures CountSaved(results, refused) == |Where(results, (r: Result) => r.id !in refused)|
    decreases |results|
  {
    if results != [] {
      CountsAre(results[..|results| - 1], refused);
      WhereGrows(results, (r: Result) => r.status == Decoded);
      WhereGrows(results, (r: Result) => r.increment);
      WhereGrows(results, (r: Result) => r.id !in refused);
    }
  }

  // Ids of rows that are not what they were.
  ghost function Differing(rows: Rows, rows': Rows): set<int> {
    set i | i in rows && i in rows' && rows[i] != rows'[i]
  }

  class CperStore {
    var rows: Rows

    constructor ()
      ensures rows == map[]
    {
      rows := map[];
    }

    // Row by row, each in its own savepoint; returns how many were written.
    method SetCperResultsBatch(results: seq<Result>, refused: set<int>, now: int) returns (written: nat)
      modifies this
      ensures rows == Save(old(rows), results, refused, now)
      ensures written == CountSaved(results, refused)
    {
      written := 0;
      var k := 0;
      assert results[..0] == [];
      while k < |results|
        invariant 0 <= k <= |results| && written == CountSaved(results[..k], refused)
        invariant rows == Save(old(rows), results[..k], refused, now)
      {
        assert results[..k + 1][..k] == results[..k];
        if results[k].id !in refused {
          if results[k].id in rows {
            var r := rows[results[k].id];
            var attempts := if results[k].increment then r.attempts + 1 else r.attempts;
            rows := rows[results[k].id := Row(results[k].status, attempts, Some(now))];
          }
          written := written + 1;
        }
        k := k + 1;
      }
      assert results[..k] == results;
    }

    method FinalizeExhaustedCper(maxAttempts: nat) returns (n: nat)
      modifies this
      ensures rows == Finalize(old(rows), maxAttempts)
      ensures forall i | i in rows && rows[i].status == Pending :: Selectable(rows[i], maxAttempts, None)
      ensures n == |Differing(old(rows), rows)|
    {
      var exhausted := set i | i in rows && rows[i].status == Pending && rows[i].attempts >= maxAttempts;
      ghost var was := rows;
      rows := Finalize(rows, maxAttempts);
      assert exhausted == Differing(was, rows);
      n := |exhausted|;
    }
  }
}
