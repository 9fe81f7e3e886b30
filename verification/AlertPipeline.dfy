/** Live alerts from the limiter through the bounded queue and the retrying batch writer to
    the store (collector/src/alert_manager.py, _on_alert, _enqueue, _batch_processor_loop,
    _flush_batch).

    Producers run while the writer waits for an alert or for the store, so one round of the
    writer's loop is two steps, and `Pipe` records where every alert went. */
module AlertPipeline {
  import opened Common
  import RateLimiter

  datatype Alert = Alert(target: int, text: string)

  datatype Config = Config(maxPerMinute: int, maxQueue: nat, batchSize: nat)

  datatype Pipe = Pipe(
    windows: map<int, seq<int>>,   // the limiter
    queue: seq<Alert>,
    batch: seq<Alert>,             // held by the writer
    writing: bool,                 // between taking an alert and the end of the round
    offered: seq<Alert>,           // everything handed to the pipeline
    rateLimited: seq<Alert>,
    queueFull: seq<Alert>,
    overflow: seq<Alert>,          // trimmed from the batch while the store was failing
    stored: seq<Alert>,            // handed to the store
    lost: seq<Alert>,              // last writes of a shutdown that failed
    received: nat,                 // _alerts_received
    dropped: nat)                  // _alerts_dropped

  const EMPTY := Pipe(map[], [], [], false, [], [], [], [], [], [], 0, 0)

  // ---- Producers ----

  function Enqueue(p: Pipe, a: Alert, k: Config): Pipe {
    if |p.queue| < k.maxQueue then p.(queue := p.queue + [a], received := p.received + 1)
    else p.(queueFull := p.queueFull + [a], dropped := p.dropped + 1)
  }

  function OnAlert(p: Pipe, a: Alert, now: int, k: Config): Pipe {
    var call := RateLimiter.Call(a.target, now);
    var q := p.(offered := p.offered + [a], windows := RateLimiter.Step(p.windows, k.maxPerMinute, call));
    if RateLimiter.Decision(p.windows, k.maxPerMinute, call) then Enqueue(q, a, k)
    else q.(rateLimited := q.rateLimited + [a], dropped := q.dropped + 1)
  }

  function OnBaselineAlert(p: Pipe, a: Alert, k: Config): Pipe {
    Enqueue(p.(offered := p.offered + [a]), a, k)
  }

  // ---- The writer ----

  // One wait on the queue: an alert, or the one-second timeout.
  function Get(p: Pipe): Pipe {
    if p.queue == [] then p.(writing := true)
    else p.(batch := p.batch + [p.queue[0]], queue := p.queue[1..], writing := true)
  }

  function RetryCap(k: Config): nat {
    if k.batchSize * 5 > k.batchSize then k.batchSize * 5 else k.batchSize
  }

  // The rest of the round: write if the batch is full or its time has come; on failure keep
  // the batch and trim it to the newest alerts.
  function EndRound(p: Pipe, timeUp: bool, storeOk: bool, k: Config): Pipe {
    var q := p.(writing := false);
    if !(|p.batch| >= k.batchSize || (p.batch != [] && timeUp)) then q
    else if storeOk then q.(stored := q.stored + q.batch, batch := [])
    else
      var n := if |q.batch| > RetryCap(k) then |q.batch| - RetryCap(k) else 0;
      q.(batch := q.batch[n..], overflow := q.overflow + q.batch[..n], dropped := q.dropped + n)
  }

  // stop(): the cancelled loop writes its batch, then _flush_batch writes the queue; neither
  // result is looked at.
  function Stop(p: Pipe, batchOk: bool, queueOk: bool): Pipe {
    var q := if batchOk then p.(stored := p.stored + p.batch, batch := [], writing := false)
             else p.(lost := p.lost + p.batch, batch := [], writing := false);
    if queueOk then q.(stored := q.stored + q.queue, queue := []) else q.(lost := q.lost + q.queue, queue := [])
  }

  datatype Step =
    | Live(a: Alert, now: int)
    | Baseline(a: Alert)
    | Take
    | Finish(timeUp: bool, storeOk: bool)
    | Shutdown(batchOk: bool, queueOk: bool)

  predicate Legal(p: Pipe, e: Step) {
    match e
    case Take => !p.writing
    case Finish(_, _) => p.writing
    case _ => true
  }

  function Apply(p: Pipe, e: Step, k: Config): Pipe {
    match e
    case Live(a, now) => OnAlert(p, a, now, k)
    case Baseline(a) => OnBaselineAlert(p, a, k)
    case Take => Get(p)
    case Finish(timeUp, storeOk) => EndRound(p, timeUp, storeOk, k)
    case Shutdown(batchOk, queueOk) => Stop(p, batchOk, queueOk)
  }

  // ---- The invariant ----

  function Refused(p: Pipe): multiset<Alert> {
    multiset(p.rateLimited) + multiset(p.queueFull)
  }

  function Waiting(p: Pipe): multiset<Alert> {
    multiset(p.queue) + multiset(p.batch)
  }

  function Ended(p: Pipe): multiset<Alert> {
    multiset(p.overflow) + multiset(p.stored) + multiset(p.lost)
  }

  function Places(p: Pipe): multiset<Alert> {
    Refused(p) + Waiting(p) + Ended(p)
  }

  ghost predicate Conserved(p: Pipe) {
    multiset(p.offered) == Places(p)
  }

  ghost predicate Counted(p: Pipe) {
    && p.dropped == |p.rateLimited| + |p.queueFull| + |p.overflow|
    && p.received == |p.overflow| + |p.queue| + |p.batch| + |p.stored| + |p.lost|
  }

  ghost predicate Bounded(p: Pipe, k: Config) {
    && |p.queue| <= k.maxQueue
    && |p.batch| <= 5 * k.batchSize + if p.writing then 1 else 0
  }

  ghost predicate Inv(p: Pipe, k: Config) {
    Conserved(p) && Counted(p) && Bounded(p, k)
  }

  lemma EnqueueConserves(p: Pipe, a: Alert, k: Config)
    requires multiset(p.offered) == Places(p) + multiset{a}
    ensures Conserved(Enqueue(p, a, k))
  {
    var q := Enqueue(p, a, k);
    if |p.queue| < k.maxQueue {
      assert Waiting(q) == Waiting(p) + multiset{a} && Refused(q) == Refused(p) && Ended(q) == Ended(p);
    } else {
      assert Refused(q) == Refused(p) + multiset{a} && Waiting(q) == Waiting(p) && Ended(q) == Ended(p);
    }
  }

  lemma TakeConserves(p: Pipe)
    requires Conserved(p)
    ensures Conserved(Get(p))
  {
    if p.queue != [] { assert p.queue == [p.queue[0]] + p.queue[1..]; }
  }

  lemma FinishConserves(p: Pipe, timeUp: bool, storeOk: bool, k: Config)
    requires Conserved(p)
    ensures Conserved(EndRound(p, timeUp, storeOk, k))
  {
    var q := EndRound(p, timeUp, storeOk, k);
    var n := if |p.batch| > RetryCap(k) then |p.batch| - RetryCap(k) else 0;
    if !(|p.batch| >= k.batchSize || (p.batch != [] && timeUp)) {
      BatchMoves(p, q, [], false);
    } else if storeOk {
      BatchMoves(p, q, p.batch, true);
    } else {
      BatchMoves(p, q, p.batch[..n], false);
    }
  }

  // Moving the front of the batch to the overflow, or all of it to the store, loses nothing.
  lemma BatchMoves(p: Pipe, q: Pipe, x: seq<Alert>, toStore: bool)
    requires p.batch == x + q.batch && p.queue == q.queue && p.lost == q.lost
    requires p.rateLimited == q.rateLimited && p.queueFull == q.queueFull
    requires q.overflow == (if toStore then p.overflow else p.overflow + x)
    requires q.stored == (if toStore then p.stored + x else p.stored)
    ensures Places(q) == Places(p)
  {
    assert Waiting(p) == multiset(x) + Waiting(q);
    assert Ended(q) == Ended(p) + multiset(x);
  }

  lemma StopConserves(p: Pipe, batchOk: bool, queueOk: bool)
    requires Conserved(p)
    ensures Conserved(Stop(p, batchOk, queueOk))
  {
  }

  lemma OfferAdds(p: Pipe, a: Alert, windows: map<int, seq<int>>)
    requires Conserved(p)
    ensures var q := p.(offered := p.offered + [a], windows := windows);
            multiset(q.offered) == Places(q) + multiset{a}
  {
    var q := p.(offered := p.offered + [a], windows := windows);
    assert Refused(q) == Refused(p) && Waiting(q) == Waiting(p) && Ended(q) == Ended(p);
  }

  lemma LiveConserves(p: Pipe, a: Alert, now: int, k: Config)
    requires Conserved(p)
    ensures Conserved(OnAlert(p, a, now, k))
  {
    var call := RateLimiter.Call(a.target, now);
    var windows := RateLimiter.Step(p.windows, k.maxPerMinute, call);
    OfferAdds(p, a, windows);
    var q := p.(offered := p.offered + [a], windows := windows);
    if RateLimiter.Decision(p.windows, k.maxPerMinute, call) {
      EnqueueConserves(q, a, k);
    } else {
      var refused := OnAlert(p, a, now, k);
      assert Refused(refused) == Refused(q) + multiset{a};
      assert Waiting(refused) == Waiting(q) && Ended(refused) == Ended(q);
    }
  }

  lemma BaselineConserves(p: Pipe, a: Alert, k: Config)
    requires Conserved(p)
    ensures Conserved(OnBaselineAlert(p, a, k))
  {
    OfferAdds(p, a, p.windows);
    EnqueueConserves(p.(offered := p.offered + [a], windows := p.windows), a, k);
  }

  lemma StepConserves(p: Pipe, e: Step, k: Config)
    requires Conserved(p)
    ensures Conserved(Apply(p, e, k))
  {
    match e
    case Live(a, now) => LiveConserves(p, a, now, k);
    case Baseline(a) => BaselineConserves(p, a, k);
    case Take => TakeConserves(p);
    case Finish(timeUp, storeOk) => FinishConserves(p, timeUp, storeOk, k);
    case Shutdown(batchOk, queueOk) => StopConserves(p, batchOk, queueOk);
  }

  lemma StepCounts(p: Pipe, e: Step, k: Config)
    requires k.batchSize > 0 && Counted(p) && Bounded(p, k) && Legal(p, e)
    ensures Counted(Apply(p, e, k)) && Bounded(Apply(p, e, k), k)
  {
    match e
    case Live(a, now) =>
    case Baseline(a) =>
    case Take =>
    case Finish(timeUp, storeOk) => FinishCounts(p, timeUp, storeOk, k);
    case Shutdown(batchOk, queueOk) =>
  }

  lemma FinishCounts(p: Pipe, timeUp: bool, storeOk: bool, k: Config)
    requires k.batchSize > 0 && Counted(p) && Bounded(p, k)
    ensures Counted(EndRound(p, timeUp, storeOk, k)) && Bounded(EndRound(p, timeUp, storeOk, k), k)
  {
  }

  ghost predicate LegalRun(p: Pipe, steps: seq<Step>, k: Config)
    decreases |steps|
  {
    steps != [] ==> Legal(p, steps[0]) && LegalRun(Apply(p, steps[0], k), steps[1..], k)
  }

  function Run(p: Pipe, steps: seq<Step>, k: Config): Pipe
    decreases |steps|
  {
    if steps == [] then p else Run(Apply(p, steps[0], k), steps[1..], k)
  }

  // Over every interleaving and every pattern of store failures: each offered alert is in
  // exactly one place, the dropped counter is the sum of the three drop kinds, the queue
  // keeps its bound and the batch is at most five times the batch size at each loop head.
  // Alerts lost by a failing shutdown write are in no counter.
  lemma {:induction false} PipelineInvariant(p: Pipe, steps: seq<Step>, k: Config)
    requires k.batchSize > 0 && Inv(p, k) && LegalRun(p, steps, k)
    ensures Inv(Run(p, steps, k), k)
    ensures !Run(p, steps, k).writing ==> |Run(p, steps, k).batch| <= 5 * k.batchSize
    decreases |steps|
  {
    if steps != [] {
      StepConserves(p, steps[0], k);
      StepCounts(p, steps[0], k);
      PipelineInvariant(Apply(p, steps[0], k), steps[1..], k);
    }
  }

  // Where an offered alert goes: refused by the limiter, refused by a full queue, or queued.
  lemma OfferIs(p: Pipe, a: Alert, now: int, k: Config)
    ensures var q := Apply(p, Live(a, now), k);
            var allowed := RateLimiter.Decision(p.windows, k.maxPerMinute, RateLimiter.Call(a.target, now));
            && q.batch == p.batch && q.stored == p.stored && q.lost == p.lost && q.overflow == p.overflow
            && q.rateLimited == (if allowed then p.rateLimited else p.rateLimited + [a])
            && q.queueFull == (if allowed && |p.queue| >= k.maxQueue then p.queueFull + [a] else p.queueFull)
            && q.queue == (if allowed && |p.queue| < k.maxQueue then p.queue + [a] else p.queue)
    ensures var q := Apply(p, Baseline(a), k);
            && q.batch == p.batch && q.rateLimited == p.rateLimited && q.windows == p.windows
            && q.queue == (if |p.queue| < k.maxQueue then p.queue + [a] else p.queue)
            && q.queueFull == (if |p.queue| < k.maxQueue then p.queueFull else p.queueFull + [a])
  {
  }

  // A turn of the writer takes the oldest queued alert, if there is one, to the end of its batch.
  lemma TakeIs(p: Pipe, k: Config)
    ensures var q := Apply(p, Take, k);
            && q.writing && q.stored == p.stored
            && q.batch + q.queue == p.batch + p.queue
            && |q.batch| == |p.batch| + if |p.queue| > 0 then 1 else 0
  {
  }

  // A shutdown hands the batch and the queue to the store, and loses what it does not take.
  lemma StopIs(p: Pipe, batchOk: bool, queueOk: bool, k: Config)
    ensures var q := Apply(p, Shutdown(batchOk, queueOk), k);
            && q.batch == [] && q.queue == [] && q.received == p.received && q.dropped == p.dropped
            && q.stored == p.stored + (if batchOk then p.batch else []) + (if queueOk then p.queue else [])
            && q.lost == p.lost + (if batchOk then [] else p.batch) + (if queueOk then [] else p.queue)
  {
  }

  // A round hands its batch to the store exactly when it is full, or not empty and its time has
  // come. What the store takes is gone from the batch; if it fails, the batch is kept, but for
  // the oldest beyond five times the batch size.
  lemma RoundIs(p: Pipe, timeUp: bool, storeOk: bool, k: Config)
    ensures var q := Apply(p, Finish(timeUp, storeOk), k);
            && !q.writing && q.queue == p.queue && q.lost == p.lost && q.windows == p.windows
            && (if !(|p.batch| >= k.batchSize || (|p.batch| > 0 && timeUp)) then
                  q.batch == p.batch && q.stored == p.stored && q.dropped == p.dropped
                else if storeOk then
                  q.batch == [] && q.stored == p.stored + p.batch && q.dropped == p.dropped
                else
                  && q.stored == p.stored
                  && |q.batch| == (if |p.batch| <= 5 * k.batchSize then |p.batch| else 5 * k.batchSize)
                  && q.batch == p.batch[|p.batch| - |q.batch|..]
                  && q.dropped == p.dropped + |p.batch| - |q.batch|)
  {
  }

  // Nothing is trimmed that is newer than what is kept: the trim is a prefix of the batch.
  lemma TrimIsOldest(p: Pipe, timeUp: bool, k: Config)
    ensures var q := EndRound(p, timeUp, false, k);
            p.batch == q.overflow[|p.overflow|..] + q.batch
  {
  }

  // A shutdown with a failing write that had something to write.
  predicate LosingStop(p: Pipe, e: Step) {
    e.Shutdown? && ((!e.batchOk && p.batch != []) || (!e.queueOk && p.queue != []))
  }

  // Step i of the run is such a shutdown, in the state it meets.
  ghost predicate LosesAt(p: Pipe, steps: seq<Step>, k: Config, i: nat) {
    i < |steps| && LosingStop(Run(p, steps[..i], k), steps[i])
  }

  lemma StepLoses(p: Pipe, e: Step, k: Config)
    ensures |Apply(p, e, k).lost| >= |p.lost|
    ensures |Apply(p, e, k).lost| > |p.lost| <==> LosingStop(p, e)
  {
  }

  lemma LosesLater(p: Pipe, steps: seq<Step>, k: Config, i: nat)
    requires steps != []
    ensures LosesAt(p, steps, k, i + 1) <==> LosesAt(Apply(p, steps[0], k), steps[1..], k, i)
  {
    if i + 1 < |steps| {
      var prefix := steps[..i + 1];
      assert prefix[0] == steps[0] && prefix[1..] == steps[1..][..i];
    }
  }

  ghost predicate LosesSomewhere(p: Pipe, steps: seq<Step>, k: Config) {
    exists i: nat :: LosesAt(p, steps, k, i)
  }

  lemma LosesNowOrLater(p: Pipe, steps: seq<Step>, k: Config)
    requires steps != []
    ensures LosesSomewhere(p, steps, k)
            <==> LosingStop(p, steps[0]) || LosesSomewhere(Apply(p, steps[0], k), steps[1..], k)
  {
    assert steps[..0] == [];
    assert LosesAt(p, steps, k, 0) <==> LosingStop(p, steps[0]);
    if i: nat :| LosesAt(Apply(p, steps[0], k), steps[1..], k, i) {
      LosesLater(p, steps, k, i);
      assert LosesAt(p, steps, k, i + 1);
    }
    if j: nat :| LosesAt(p, steps, k, j) && j > 0 {
      LosesLater(p, steps, k, j - 1);
      assert LosesAt(Apply(p, steps[0], k), steps[1..], k, j - 1);
    }
  }

  // Alerts go missing, beyond the counted drops, in exactly those runs in which some shutdown
  // write fails that had something to write.
  lemma {:induction false} LostIffStopFails(p: Pipe, steps: seq<Step>, k: Config)
    ensures |Run(p, steps, k).lost| >= |p.lost|
    ensures |Run(p, steps, k).lost| > |p.lost| <==> LosesSomewhere(p, steps, k)
    decreases |steps|
  {
    if steps != [] {
      LostIffStopFails(Apply(p, steps[0], k), steps[1..], k);
      StepLoses(p, steps[0], k);
      LosesNowOrLater(p, steps, k);
    }
  }

  // One alert, accepted and still queued when the store refuses the last write: it is lost
  // and the counters show one alert received and none dropped.
  lemma LostUncounted(a: Alert, now: int, k: Config)
    requires k.maxPerMinute > 0 && k.maxQueue > 0
    ensures var p := Run(EMPTY, [Live(a, now), Shutdown(true, false)], k);
            p.lost == [a] && p.stored == [] && p.received == 1 && p.dropped == 0
  {
    var steps := [Live(a, now), Shutdown(true, false)];
    assert steps[1..] == [Shutdown(true, false)] && steps[1..][1..] == [];
    var q := Apply(EMPTY, steps[0], k);
    assert q.queue == [] + [a];
    assert Run(q, steps[1..], k) == Run(Apply(q, steps[1], k), [], k);
    assert Run(EMPTY, steps, k) == Run(q, steps[1..], k);
  }

  // ---- The manager's queue and loop ----

  class AlertManager {
    const config: Config
    const limiter: RateLimiter.Limiter
    var queue: seq<Alert>
    var batch: seq<Alert>
    var alertsReceived: nat
    var alertsDropped: nat
    ghost var pipe: Pipe

    ghost predicate Valid()
      reads this, limiter
    {
      && config.batchSize > 0 && limiter.maxAlerts == config.maxPerMinute
      && limiter.windows == pipe.windows
      && queue == pipe.queue && batch == pipe.batch
      && alertsReceived == pipe.received && alertsDropped == pipe.dropped
    }

    constructor (k: Config)
      requires k.batchSize > 0
      ensures Valid() && config == k && pipe == EMPTY && fresh(limiter)
    {
      config := k;
      limiter := new RateLimiter.Limiter(k.maxPerMinute);
      queue, batch, alertsReceived, alertsDropped := [], [], 0, 0;
      pipe := EMPTY;
    }

    method EnqueueAlert(a: Alert)
      modifies this`queue, this`alertsReceived, this`alertsDropped
      ensures if |old(queue)| < config.maxQueue
              then queue == old(queue) + [a] && alertsReceived == old(alertsReceived) + 1
                   && alertsDropped == old(alertsDropped)
              else queue == old(queue) && alertsDropped == old(alertsDropped) + 1
                   && alertsReceived == old(alertsReceived)
    {
      if |queue| < config.maxQueue {
        queue := queue + [a];
        alertsReceived := alertsReceived + 1;
      } else {
        alertsDropped := alertsDropped + 1;
      }
    }

    method HandleAlert(a: Alert, now: int)
      requires Valid()
      modifies this, limiter
      ensures Valid() && pipe == OnAlert(old(pipe), a, now, config)
    {
      var ok := limiter.Allow(a.target, now);
      if !ok {
        alertsDropped := alertsDropped + 1;
      } else {
        EnqueueAlert(a);
      }
      pipe := OnAlert(pipe, a, now, config);
    }

    // Alerts from a log pull bypass the limiter.
    method HandleBaselineAlert(a: Alert)
      requires Valid()
      modifies this
      ensures Valid() && pipe == OnBaselineAlert(old(pipe), a, config)
    {
      EnqueueAlert(a);
      pipe := OnBaselineAlert(pipe, a, config);
    }

    method TakeAlert()
      requires Valid()
      modifies this
      ensures Valid() && pipe == Get(old(pipe))
    {
      if queue != [] {
        batch, queue := batch + [queue[0]], queue[1..];
      }
      pipe := Get(pipe);
    }

    // storeOk is the store's answer, if it is asked.
    method FinishRound(timeUp: bool, storeOk: bool)
      requires Valid()
      modifies this
      ensures Valid() && pipe == EndRound(old(pipe), timeUp, storeOk, config)
    {
      var shouldWrite := |batch| >= config.batchSize || (batch != [] && timeUp);
      if shouldWrite {
        if storeOk {
          batch := [];
        } else {
          var cap := RetryCap(config);
          if |batch| > cap {
            var overflow := |batch| - cap;
            batch := batch[overflow..];
            alertsDropped := alertsDropped + overflow;
          }
        }
      }
      pipe := EndRound(pipe, timeUp, storeOk, config);
    }
  }
}
