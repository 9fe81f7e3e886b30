/** The exporter's bounded buffer and its flush (collector/src/exporters/influxdb.py).

    Producers call `write` at any time, also while a flush is waiting for the network, so
    a flush is two atomic steps, taking the buffer and settling it, with any number of
    writes in between. `Exporter` is the state with a full history of every point. */
module InfluxExporter {
  import opened Common
  import opened InfluxBisect

  const RECONNECT_THRESHOLD: nat := 3

  datatype Exporter = Exporter(
    accepted: seq<Point>,   // every point write() ever took, in arrival order
    buffer: seq<Point>,
    inFlight: seq<Point>,   // taken by the running flush
    written: seq<Point>,
    rejected: seq<Point>,
    dropped: seq<Point>,
    flushing: bool,
    connected: bool,
    failures: nat)          // consecutive flushes in which nothing got through

  datatype Config = Config(batchSize: nat, maxBuffer: nat)

  ghost predicate ValidConfig(k: Config) {
    k.batchSize > 0 && k.maxBuffer > 0
  }

  // How the write of one batch ended; a raised batch is re-queued whole.
  datatype Result = Raised | Done(o: Outcome)

  // ---- Splitting and collecting ----

  function Batches(points: seq<Point>, size: nat): (r: seq<seq<Point>>)
    requires size > 0
    ensures forall b | b in r :: b != []
    decreases |points|
  {
    if points == [] then []
    else if |points| <= size then [points]
    else [points[..size]] + Batches(points[size..], size)
  }

  function Concat(bs: seq<seq<Point>>): seq<Point> {
    if bs == [] then [] else bs[0] + Concat(bs[1..])
  }

  lemma {:induction false} BatchesConcat(points: seq<Point>, size: nat)
    requires size > 0
    ensures Concat(Batches(points, size)) == points
    decreases |points|
  {
    if |points| > size {
      var first, later := points[..size], points[size..];
      BatchesConcat(later, size);
      ConcatCons(first, Batches(later, size));
      assert points == first + later;
    } else if points != [] {
      ConcatCons(points, []);
      assert [points] + [] == [points] && points + [] == points;
    }
  }

  lemma ConcatCons(first: seq<Point>, later: seq<seq<Point>>)
    ensures Concat([first] + later) == first + Concat(later)
  {
    assert ([first] + later)[1..] == later;
  }

  function RetryOf(rs: seq<Result>, bs: seq<seq<Point>>): seq<Point>
    requires |rs| == |bs|
  {
    if rs == [] then []
    else (if rs[0].Raised? then bs[0] else rs[0].o.retry) + RetryOf(rs[1..], bs[1..])
  }

  function WrittenOf(rs: seq<Result>): seq<Point> {
    if rs == [] then [] else (if rs[0].Raised? then [] else rs[0].o.written) + WrittenOf(rs[1..])
  }

  function RejectedOf(rs: seq<Result>): seq<Point> {
    if rs == [] then [] else (if rs[0].Raised? then [] else rs[0].o.rejected) + RejectedOf(rs[1..])
  }

  ghost predicate Answers(rs: seq<Result>, bs: seq<seq<Point>>) {
    |rs| == |bs| && forall i | 0 <= i < |rs| && rs[i].Done? :: Accounts(bs[i], rs[i].o)
  }

  // Over a whole flush the three fates again partition the points, and the retried ones
  // keep their order.
  lemma {:induction false} FlushAccounts(rs: seq<Result>, bs: seq<seq<Point>>)
    requires Answers(rs, bs)
    ensures multiset(Concat(bs)) == multiset(RetryOf(rs, bs)) + multiset(WrittenOf(rs)) + multiset(RejectedOf(rs))
    ensures Sublist(RetryOf(rs, bs), Concat(bs))
  {
    if rs == [] {
      EmptySublist<Point>([]);
    } else {
      var o := if rs[0].Raised? then Outcome(bs[0], [], [], 0) else rs[0].o;
      if rs[0].Raised? { AccountsWhole(bs[0], 0); }
      assert Accounts(bs[0], o);
      assert Answers(rs[1..], bs[1..]);
      FlushAccounts(rs[1..], bs[1..]);
      FlushOneMore(o, bs[0], RetryOf(rs[1..], bs[1..]), WrittenOf(rs[1..]), RejectedOf(rs[1..]), Concat(bs[1..]));
    }
  }

  lemma FlushOneMore(o: Outcome, batch: seq<Point>, retry: seq<Point>, written: seq<Point>, rejected: seq<Point>,
                     points: seq<Point>)
    requires Accounts(batch, o) && Sublist(retry, points)
    requires multiset(points) == multiset(retry) + multiset(written) + multiset(rejected)
    ensures Sublist(o.retry + retry, batch + points)
    ensures multiset(batch + points)
            == multiset(o.retry + retry) + multiset(o.written + written) + multiset(o.rejected + rejected)
  {
    SublistConcat(o.retry, batch, retry, points);
  }

  // ---- Steps ----

  function Number(lines: seq<string>, start: nat): seq<Point> {
    seq(|lines|, i requires 0 <= i < |lines| => Point(start + i, lines[i]))
  }

  // Drop from the front, keep the newest.
  function Excess(points: seq<Point>, max: nat): nat {
    if |points| > max then |points| - max else 0
  }

  function WithBuffer(e: Exporter, all: seq<Point>, max: nat): Exporter {
    var n := Excess(all, max);
    e.(buffer := all[n..], dropped := e.dropped + all[..n])
  }

  function Write(e: Exporter, lines: seq<string>, k: Config): Exporter {
    var points := Number(lines, |e.accepted|);
    WithBuffer(e.(accepted := e.accepted + points), e.buffer + points, k.maxBuffer)
  }

  function ReAdd(e: Exporter, points: seq<Point>, k: Config): Exporter {
    WithBuffer(e, points + e.buffer, k.maxBuffer)
  }

  function Take(e: Exporter): Exporter {
    if e.buffer == [] then e else e.(inFlight := e.buffer, buffer := [], flushing := true)
  }

  function NextFailures(failures: nat, anyWritten: bool, anyRetry: bool): nat {
    if anyWritten then 0 else if anyRetry then failures + 1 else failures
  }

  // The reconnect check that ends every connected flush.
  function CheckConnection(e: Exporter): Exporter {
    if e.failures >= RECONNECT_THRESHOLD then e.(connected := false, failures := 0) else e
  }

  function Settle(e: Exporter, rs: seq<Result>, k: Config): Exporter
    requires k.batchSize > 0 && |rs| == |Batches(e.inFlight, k.batchSize)|
  {
    var retry := RetryOf(rs, Batches(e.inFlight, k.batchSize));
    var settled := e.(inFlight := [], flushing := false,
      written := e.written + WrittenOf(rs), rejected := e.rejected + RejectedOf(rs),
      failures := NextFailures(e.failures, WrittenOf(rs) != [], retry != []));
    CheckConnection(ReAdd(settled, retry, k))
  }

  function NotConnected(e: Exporter, k: Config): Exporter {
    ReAdd(e.(inFlight := [], flushing := false), e.inFlight, k)
  }

  datatype Step =
    | Produce(lines: seq<string>)
    | StartFlush
    | FlushOffline
    | FinishFlush(results: seq<Result>)
    | Reconnect(ok: bool)

  // One flush at a time; its results are whatever the batch writes reported.
  ghost predicate Legal(e: Exporter, st: Step, k: Config)
    requires ValidConfig(k)
  {
    match st
    case Produce(_) => true
    case StartFlush => !e.flushing
    case FlushOffline => e.flushing
    case FinishFlush(rs) => e.flushing && Answers(rs, Batches(e.inFlight, k.batchSize))
    case Reconnect(_) => true
  }

  function Apply(e: Exporter, st: Step, k: Config): Exporter
    requires ValidConfig(k) && Legal(e, st, k)
  {
    match st
    case Produce(lines) => Write(e, lines, k)
    case StartFlush => Take(e)
    case FlushOffline => NotConnected(e, k)
    case FinishFlush(rs) => Settle(e, rs, k)
    case Reconnect(ok) => e.(connected := ok)
  }

  // ---- The invariant ----

  ghost predicate Ordered(s: seq<Point>) {
    forall i, j | 0 <= i < j < |s| :: s[i].arrival < s[j].arrival
  }

  ghost predicate Before(s: seq<Point>, n: nat) {
    forall i | 0 <= i < |s| :: s[i].arrival < n
  }

  function Places(e: Exporter): multiset<Point> {
    multiset(e.buffer) + multiset(e.inFlight) + multiset(e.written) + multiset(e.rejected) + multiset(e.dropped)
  }

  // Every accepted point is in exactly one place.
  ghost predicate Conserved(e: Exporter) {
    multiset(e.accepted) == Places(e)
  }

  // Points still to be sent are in arrival order, in flight before buffered.
  ghost predicate InArrivalOrder(e: Exporter) {
    && Ordered(e.inFlight + e.buffer)
    && Before(e.inFlight + e.buffer, |e.accepted|)
  }

  ghost predicate Inv(e: Exporter, k: Config) {
    && Conserved(e)
    && InArrivalOrder(e)
    && |e.buffer| <= k.maxBuffer
    && (!e.flushing ==> e.inFlight == [])
    && e.failures < RECONNECT_THRESHOLD
  }

  lemma SublistOrdered(a: seq<Point>, b: seq<Point>, n: nat)
    requires Sublist(a, b) && Ordered(b) && Before(b, n)
    ensures Ordered(a) && Before(a, n)
  {
    var f :| Embeds(f, a, b);
    assert forall i | 0 <= i < |a| :: a[i] == b[f[i]];
  }

  // Trimming keeps the newest points: everything dropped is older than everything kept,
  // nothing else changes place, and the bound holds.
  lemma TrimKeepsNewest(e: Exporter, all: seq<Point>, max: nat)
    requires Ordered(all)
    ensures var r := WithBuffer(e, all, max);
            && |r.buffer| <= max
            && Ordered(r.buffer)
            && multiset(r.buffer) + multiset(r.dropped) == multiset(all) + multiset(e.dropped)
            && (forall p, q | p in r.dropped[|e.dropped|..] && q in r.buffer :: p.arrival < q.arrival)
            && (|all| <= max ==> r.buffer == all && r.dropped == e.dropped)
  {
    var n := Excess(all, max);
    assert all == all[..n] + all[n..];
  }

  lemma SuffixSublist(s: seq<Point>, n: nat)
    requires n <= |s|
    ensures Sublist(s[n..], s)
  {
    assert Embeds(seq(|s| - n, i => i + n), s[n..], s);
  }

  // Dropping the front of the buffer keeps what is still to be sent in order.
  lemma OrderedAfterDrop(x: seq<Point>, all: seq<Point>, n: nat, bound: nat)
    requires n <= |all| && Ordered(x + all) && Before(x + all, bound)
    ensures Ordered(x + all[n..]) && Before(x + all[n..], bound)
  {
    SublistSelf(x);
    SuffixSublist(all, n);
    SublistConcat(x, x, all[n..], all);
    SublistOrdered(x + all[n..], x + all, bound);
  }

  lemma OrderedAfterArrival(flow: seq<Point>, lines: seq<string>, n: nat)
    requires Ordered(flow) && Before(flow, n)
    ensures Ordered(flow + Number(lines, n)) && Before(flow + Number(lines, n), n + |lines|)
  {
  }

  lemma OrderedTail(x: seq<Point>, y: seq<Point>)
    requires Ordered(x + y)
    ensures Ordered(y)
  {
    assert forall i | 0 <= i < |y| :: (x + y)[|x| + i] == y[i];
  }

  lemma Regroup<T>(b: multiset<T>, d: multiset<T>, b': multiset<T>, d': multiset<T>, f: multiset<T>,
                   w: multiset<T>, r: multiset<T>, x: multiset<T>)
    requires b' + d' == b + x + d
    ensures b' + f + w + r + d' == b + f + w + r + d + x
  {
    assert b' + f + w + r + d' == (b' + d') + f + w + r;
  }

  // Replacing the buffer by `all` conserves points if `all` is the buffer plus what came in.
  lemma TrimConserves(e: Exporter, all: seq<Point>, extra: multiset<Point>, max: nat)
    requires Ordered(all) && multiset(all) == multiset(e.buffer) + extra
    requires multiset(e.accepted) == Places(e) + extra
    ensures Conserved(WithBuffer(e, all, max))
  {
    TrimKeepsNewest(e, all, max);
    var r := WithBuffer(e, all, max);
    Regroup(multiset(e.buffer), multiset(e.dropped), multiset(r.buffer), multiset(r.dropped),
            multiset(e.inFlight), multiset(e.written), multiset(e.rejected), extra);
  }

  lemma WriteKeepsInv(e: Exporter, lines: seq<string>, k: Config)
    requires Inv(e, k)
    ensures Inv(Write(e, lines, k), k)
  {
    var points := Number(lines, |e.accepted|);
    var all := e.buffer + points;
    var grown := e.(accepted := e.accepted + points);
    ArrivalsInOrder(e, lines);
    OrderedTail(e.inFlight, all);
    ArrivalsCounted(e, points);
    TrimConserves(grown, all, multiset(points), k.maxBuffer);
    OrderedAfterDrop(e.inFlight, all, Excess(all, k.maxBuffer), |grown.accepted|);
  }

  lemma ArrivalsInOrder(e: Exporter, lines: seq<string>)
    requires InArrivalOrder(e)
    ensures var points := Number(lines, |e.accepted|);
            && Ordered(e.inFlight + (e.buffer + points))
            && Before(e.inFlight + (e.buffer + points), |e.accepted + points|)
  {
    var points := Number(lines, |e.accepted|);
    OrderedAfterArrival(e.inFlight + e.buffer, lines, |e.accepted|);
    assert e.inFlight + (e.buffer + points) == e.inFlight + e.buffer + points;
  }

  lemma ArrivalsCounted(e: Exporter, points: seq<Point>)
    requires Conserved(e)
    ensures var grown := e.(accepted := e.accepted + points);
            multiset(grown.accepted) == Places(grown) + multiset(points)
  {
    assert Places(e.(accepted := e.accepted + points)) == Places(e);
  }

  lemma ReAddConserves(e: Exporter, points: seq<Point>, max: nat)
    requires e.inFlight == [] && Ordered(points + e.buffer) && Conserved(e.(inFlight := points))
    ensures Conserved(WithBuffer(e, points + e.buffer, max))
  {
    assert multiset(points + e.buffer) == multiset(e.buffer) + multiset(points);
    TrimConserves(e, points + e.buffer, multiset(points), max);
  }

  lemma TrimInOrder(e: Exporter, all: seq<Point>, max: nat)
    requires e.inFlight == [] && Ordered(all) && Before(all, |e.accepted|)
    ensures InArrivalOrder(WithBuffer(e, all, max))
  {
    var n := Excess(all, max);
    assert [] + all[n..] == all[n..];
  }

  // Re-adding points that were in flight, in order, ahead of what arrived since.
  lemma ReAddKeepsInv(e: Exporter, points: seq<Point>, k: Config)
    requires e.inFlight == [] && !e.flushing && e.failures < RECONNECT_THRESHOLD
    requires Ordered(points + e.buffer) && Before(points + e.buffer, |e.accepted|)
    requires Conserved(e.(inFlight := points))
    ensures Inv(ReAdd(e, points, k), k)
  {
    ReAddConserves(e, points, k.maxBuffer);
    TrimInOrder(e, points + e.buffer, k.maxBuffer);
  }

  function Settled(e: Exporter, rs: seq<Result>): Exporter {
    e.(inFlight := [], flushing := false, failures := 0,
       written := e.written + WrittenOf(rs), rejected := e.rejected + RejectedOf(rs))
  }

  lemma SettledConserves(e: Exporter, rs: seq<Result>, bs: seq<seq<Point>>)
    requires Answers(rs, bs) && e.inFlight == Concat(bs) && Conserved(e)
    ensures Conserved(Settled(e, rs).(inFlight := RetryOf(rs, bs)))
  {
    FlushAccounts(rs, bs);
  }

  lemma RetryInOrder(e: Exporter, rs: seq<Result>, bs: seq<seq<Point>>)
    requires Answers(rs, bs) && e.inFlight == Concat(bs) && InArrivalOrder(e)
    ensures Ordered(RetryOf(rs, bs) + e.buffer) && Before(RetryOf(rs, bs) + e.buffer, |e.accepted|)
  {
    FlushAccounts(rs, bs);
    SublistSelf(e.buffer);
    SublistConcat(RetryOf(rs, bs), e.inFlight, e.buffer, e.buffer);
    SublistOrdered(RetryOf(rs, bs) + e.buffer, e.inFlight + e.buffer, |e.accepted|);
  }

  // The failure count and the connection play no part in where the points are.
  lemma CountKeepsInv(r: Exporter, failures: nat, k: Config)
    requires Inv(r, k) && failures <= RECONNECT_THRESHOLD
    ensures Inv(CheckConnection(r.(failures := failures)), k)
  {
    var q := CheckConnection(r.(failures := failures));
    assert q.buffer == r.buffer && q.inFlight == r.inFlight && q.accepted == r.accepted;
    assert Places(q) == Places(r);
  }

  lemma SettledKeepsInv(e: Exporter, rs: seq<Result>, bs: seq<seq<Point>>, k: Config)
    requires Answers(rs, bs) && e.inFlight == Concat(bs) && Inv(e, k)
    ensures Inv(ReAdd(Settled(e, rs), RetryOf(rs, bs), k), k)
  {
    SettledConserves(e, rs, bs);
    RetryInOrder(e, rs, bs);
    ReAddKeepsInv(Settled(e, rs), RetryOf(rs, bs), k);
  }

  lemma SettleKeepsInv(e: Exporter, rs: seq<Result>, k: Config)
    requires ValidConfig(k) && Inv(e, k) && Legal(e, FinishFlush(rs), k)
    ensures Inv(Settle(e, rs, k), k)
  {
    var bs := Batches(e.inFlight, k.batchSize);
    BatchesConcat(e.inFlight, k.batchSize);
    SettledKeepsInv(e, rs, bs, k);
    var f := NextFailures(e.failures, WrittenOf(rs) != [], RetryOf(rs, bs) != []);
    CountKeepsInv(ReAdd(Settled(e, rs), RetryOf(rs, bs), k), f, k);
  }

  lemma OfflineKeepsInv(e: Exporter, k: Config)
    requires Inv(e, k)
    ensures Inv(NotConnected(e, k), k)
  {
    var s := e.(inFlight := [], flushing := false);
    assert s.(inFlight := e.inFlight) == e.(flushing := false);
    ReAddKeepsInv(s, e.inFlight, k);
  }

  lemma InvStep(e: Exporter, st: Step, k: Config)
    requires ValidConfig(k) && Inv(e, k) && Legal(e, st, k)
    ensures Inv(Apply(e, st, k), k)
  {
    match st
    case Produce(lines) => WriteKeepsInv(e, lines, k);
    case StartFlush =>
      if e.buffer != [] { assert e.buffer + [] == e.inFlight + e.buffer; }
    case FlushOffline =>
      OfflineKeepsInv(e, k);
    case FinishFlush(rs) => SettleKeepsInv(e, rs, k);
    case Reconnect(_) =>
  }

  // ---- Every interleaving ----

  ghost predicate LegalRun(e: Exporter, steps: seq<Step>, k: Config)
    requires ValidConfig(k)
    decreases |steps|
  {
    steps != [] ==> Legal(e, steps[0], k) && LegalRun(Apply(e, steps[0], k), steps[1..], k)
  }

  ghost function Run(e: Exporter, steps: seq<Step>, k: Config): Exporter
    requires ValidConfig(k) && LegalRun(e, steps, k)
    decreases |steps|
  {
    if steps == [] then e else Run(Apply(e, steps[0], k), steps[1..], k)
  }

  const EMPTY := Exporter([], [], [], [], [], [], false, true, 0)

  // Conservation, bounded buffer and arrival order hold after every interleaving of
  // producers with flushes, whatever the server answers.
  lemma {:induction false} ExporterInvariant(e: Exporter, steps: seq<Step>, k: Config)
    requires ValidConfig(k) && Inv(e, k) && LegalRun(e, steps, k)
    ensures Inv(Run(e, steps, k), k)
    decreases |steps|
  {
    if steps != [] {
      InvStep(e, steps[0], k);
      ExporterInvariant(Apply(e, steps[0], k), steps[1..], k);
    }
  }

  // Accepted points are numbered in order, so no two are the same.
  ghost predicate Numbered(e: Exporter) {
    forall i | 0 <= i < |e.accepted| :: e.accepted[i].arrival == i
  }

  lemma {:induction false} AcceptedNumbered(e: Exporter, steps: seq<Step>, k: Config)
    requires ValidConfig(k) && Numbered(e) && LegalRun(e, steps, k)
    ensures Numbered(Run(e, steps, k))
    decreases |steps|
  {
    if steps != [] {
      AcceptedNumbered(Apply(e, steps[0], k), steps[1..], k);
    }
  }

  // p is in at most one of the five places, and there at most once.
  ghost predicate AtMostOnce(e: Exporter, p: Point) {
    multiset(e.buffer)[p] + multiset(e.inFlight)[p] + multiset(e.written)[p] + multiset(e.rejected)[p]
    + multiset(e.dropped)[p] <= 1
  }

  lemma PlacesDistinct(e: Exporter)
    requires Conserved(e) && Numbered(e)
    ensures forall p :: AtMostOnce(e, p)
  {
    assert Distinct(e.accepted);
    DistinctCounts(e.accepted);
    forall p
      ensures AtMostOnce(e, p)
    {
      assert multiset(e.accepted)[p] <= 1;
      assert Places(e)[p] <= 1;
    }
  }

  // In every run from the empty exporter no point is written twice, and what is written, what
  // is rejected and what is dropped have no point in common.
  lemma EachPointOnce(steps: seq<Step>, k: Config)
    requires ValidConfig(k) && LegalRun(EMPTY, steps, k)
    ensures var e := Run(EMPTY, steps, k);
            && Distinct(e.written)
            && Elements(e.written) !! Elements(e.rejected) && Elements(e.written) !! Elements(e.dropped)
            && Elements(e.rejected) !! Elements(e.dropped)
  {
    var e := Run(EMPTY, steps, k);
    ExporterInvariant(EMPTY, steps, k);
    AcceptedNumbered(EMPTY, steps, k);
    PlacesDistinct(e);
    DistinctCounts(e.written);
    forall p
      ensures multiset(e.written)[p] <= 1
      ensures !(p in e.written && p in e.rejected) && !(p in e.written && p in e.dropped)
      ensures !(p in e.rejected && p in e.dropped)
    {
      assert AtMostOnce(e, p);
      assert p in e.written ==> multiset(e.written)[p] >= 1;
      assert p in e.rejected ==> multiset(e.rejected)[p] >= 1;
      assert p in e.dropped ==> multiset(e.dropped)[p] >= 1;
    }
  }

  // ---- What a flush takes and leaves ----

  // A flush takes everything that is buffered, and nothing happens if there is nothing.
  lemma TakeIs(e: Exporter)
    ensures var r := Take(e);
            && r.accepted == e.accepted && r.written == e.written && r.rejected == e.rejected && r.dropped == e.dropped
            && r.connected == e.connected && r.failures == e.failures
            && (if e.buffer == [] then r == e else r.inFlight == e.buffer && r.buffer == [] && r.flushing)
  {
  }

  // A producer's lines are accepted in order as the newest points.
  lemma ProduceIs(e: Exporter, lines: seq<string>, k: Config)
    requires ValidConfig(k)
    ensures var r := Apply(e, Produce(lines), k);
            && |r.accepted| == |e.accepted| + |lines| && r.accepted[..|e.accepted|] == e.accepted
            && (forall i | 0 <= i < |lines| :: r.accepted[|e.accepted| + i].line == lines[i])
            && r.inFlight == e.inFlight && r.flushing == e.flushing
  {
    var points := Number(lines, |e.accepted|);
    var r := Apply(e, Produce(lines), k);
    assert r.accepted == e.accepted + points;
    forall i | 0 <= i < |lines|
      ensures r.accepted[|e.accepted| + i].line == lines[i]
    {
      assert r.accepted[|e.accepted| + i] == points[i];
    }
  }

  // A flush takes the buffer; one without a connection puts its points back, before those that
  // came meanwhile, and keeps the newest.
  lemma OfflineIs(e: Exporter, k: Config)
    requires ValidConfig(k)
    ensures !e.flushing ==> Apply(e, StartFlush, k) == Take(e)
    ensures e.flushing ==>
              var r, all := Apply(e, FlushOffline, k), e.inFlight + e.buffer;
              && r.inFlight == [] && !r.flushing && r.connected == e.connected
              && |r.buffer| == (if |all| <= k.maxBuffer then |all| else k.maxBuffer)
              && r.buffer == all[|all| - |r.buffer|..]
  {
  }

  // The fate of each batch: raised, it is to be sent again whole; else each point is where its
  // outcome says.
  lemma {:induction false} FatesOf(rs: seq<Result>, bs: seq<seq<Point>>, i: nat, p: Point)
    requires |rs| == |bs| && i < |rs|
    ensures rs[i].Raised? && p in bs[i] ==> p in RetryOf(rs, bs)
    ensures rs[i].Done? && p in rs[i].o.retry ==> p in RetryOf(rs, bs)
    ensures rs[i].Done? && p in rs[i].o.written ==> p in WrittenOf(rs)
    ensures rs[i].Done? && p in rs[i].o.rejected ==> p in RejectedOf(rs)
  {
    if i > 0 {
      assert rs[1..][i - 1] == rs[i] && bs[1..][i - 1] == bs[i];
      FatesOf(rs[1..], bs[1..], i - 1, p);
    }
  }

  // After the flush a point is where its batch's outcome says: written, rejected, or, if it is
  // to be sent again, back in the buffer or dropped for want of room.
  lemma SettleIs(e: Exporter, rs: seq<Result>, k: Config, i: nat, p: Point)
    requires k.batchSize > 0 && |rs| == |Batches(e.inFlight, k.batchSize)| && i < |rs|
    ensures var r := Settle(e, rs, k);
            && r.inFlight == [] && !r.flushing && r.accepted == e.accepted
            && (rs[i].Done? && p in rs[i].o.written ==> p in r.written)
            && (rs[i].Done? && p in rs[i].o.rejected ==> p in r.rejected)
            && (rs[i].Done? && p in rs[i].o.retry ==> p in r.buffer || p in r.dropped)
            && (rs[i].Raised? && p in Batches(e.inFlight, k.batchSize)[i] ==> p in r.buffer || p in r.dropped)
  {
    var bs := Batches(e.inFlight, k.batchSize);
    FatesOf(rs, bs, i, p);
    if p in RetryOf(rs, bs) { ReAddPlaces(Settled(e, rs), RetryOf(rs, bs), k, p); }
  }

  lemma ReAddPlaces(e: Exporter, points: seq<Point>, k: Config, p: Point)
    requires p in points
    ensures p in ReAdd(e, points, k).buffer || p in ReAdd(e, points, k).dropped
  {
    var all := points + e.buffer;
    var n := Excess(all, k.maxBuffer);
    assert p in all;
    assert all == all[..n] + all[n..];
  }

  // ---- Failed flushes and the forced reconnect ----

  // What a flush over the network came to: some point was written; or none was and some are to
  // be sent again; or neither.
  datatype Kind = Wrote | Failed | Neither

  function KindOf(rs: seq<Result>, bs: seq<seq<Point>>): Kind
    requires |rs| == |bs|
  {
    if WrittenOf(rs) != [] then Wrote else if RetryOf(rs, bs) != [] then Failed else Neither
  }

  // The third failed flush in a row forces a reset; otherwise a flush leaves the connection
  // alone, and only a write or a reset takes the count back.
  lemma FlushAndConnection(e: Exporter, rs: seq<Result>, k: Config)
    requires ValidConfig(k) && Inv(e, k) && Legal(e, FinishFlush(rs), k)
    ensures FlushLeaves(e, Settle(e, rs, k), KindOf(rs, Batches(e.inFlight, k.batchSize)))
  {
  }

  ghost predicate FlushLeaves(e: Exporter, r: Exporter, kind: Kind) {
    match kind
    case Wrote => r.failures == 0 && r.connected == e.connected
    case Neither => r.failures == e.failures && r.connected == e.connected
    case Failed =>
      if e.failures == 2 then r.failures == 0 && !r.connected
      else r.failures == e.failures + 1 && r.connected == e.connected
  }

  // The flushes of a run that reached the network.
  function Flushes(e: Exporter, steps: seq<Step>, k: Config): seq<Kind>
    requires ValidConfig(k) && LegalRun(e, steps, k)
    decreases |steps|
  {
    if steps == [] then []
    else
      var first := if steps[0].FinishFlush? then [KindOf(steps[0].results, Batches(e.inFlight, k.batchSize))] else [];
      first + Flushes(Apply(e, steps[0], k), steps[1..], k)
  }

  // After these flushes: failed flushes since the last that wrote a point or forced a reset,
  // and whether any forced one. Before them there were n.
  datatype Tally = Tally(failed: nat, reset: bool)

  function TallyOf(kinds: seq<Kind>, n: nat): Tally {
    if kinds == [] then Tally(n, false)
    else
      match kinds[0]
      case Wrote => TallyOf(kinds[1..], 0)
      case Neither => TallyOf(kinds[1..], n)
      case Failed => if n == 2 then Tally(TallyOf(kinds[1..], 0).failed, true) else TallyOf(kinds[1..], n + 1)
  }

  // After these flushes from e the exporter is f: the count is theirs, and if nobody
  // reconnected, it is connected if it was and no flush forced a reset.
  ghost predicate Tallied(e: Exporter, f: Exporter, kinds: seq<Kind>, quiet: bool) {
    && f.failures == TallyOf(kinds, e.failures).failed
    && (quiet ==> (f.connected <==> e.connected && !TallyOf(kinds, e.failures).reset))
  }

  lemma TalliedFirst(e: Exporter, r: Exporter, f: Exporter, kind: Kind, rest: seq<Kind>, quiet: bool)
    requires FlushLeaves(e, r, kind) && Tallied(r, f, rest, quiet)
    ensures Tallied(e, f, [kind] + rest, quiet)
  {
    TallyFirst(kind, rest, e.failures);
  }

  lemma TallyFirst(kind: Kind, rest: seq<Kind>, n: nat)
    ensures TallyOf([kind] + rest, n)
            == match kind
               case Wrote => TallyOf(rest, 0)
               case Neither => TallyOf(rest, n)
               case Failed => if n == 2 then Tally(TallyOf(rest, 0).failed, true) else TallyOf(rest, n + 1)
  {
    assert ([kind] + rest)[0] == kind && ([kind] + rest)[1..] == rest;
  }

  lemma TalliedOther(e: Exporter, st: Step, k: Config, f: Exporter, rest: seq<Kind>, quiet: bool)
    requires ValidConfig(k) && Legal(e, st, k) && !st.FinishFlush? && Tallied(Apply(e, st, k), f, rest, quiet)
    requires quiet ==> !st.Reconnect?
    ensures Tallied(e, f, [] + rest, quiet)
  {
    assert [] + rest == rest;
  }

  ghost predicate NoReconnect(steps: seq<Step>) {
    forall i | 0 <= i < |steps| :: !steps[i].Reconnect?
  }

  // Over every run the count is the number of failed flushes since the last that wrote a point
  // or forced a reset, whatever producers and offline flushes come between; and until somebody
  // reconnects, the exporter stays connected exactly as long as no third failure in a row
  // forced a reset.
  lemma {:induction false} FailuresCountFlushes(e: Exporter, steps: seq<Step>, k: Config, quiet: bool)
    requires ValidConfig(k) && Inv(e, k) && LegalRun(e, steps, k) && (quiet ==> NoReconnect(steps))
    ensures Tallied(e, Run(e, steps, k), Flushes(e, steps, k), quiet)
    decreases |steps|
  {
    if steps != [] {
      var next, rest := Apply(e, steps[0], k), steps[1..];
      InvStep(e, steps[0], k);
      assert quiet ==> NoReconnect(rest) && !steps[0].Reconnect?;
      FailuresCountFlushes(next, rest, k, quiet);
      if steps[0].FinishFlush? {
        FlushAndConnection(e, steps[0].results, k);
        TalliedFirst(e, next, Run(next, rest, k), KindOf(steps[0].results, Batches(e.inFlight, k.batchSize)),
                     Flushes(next, rest, k), quiet);
      } else {
        TalliedOther(e, steps[0], k, Run(next, rest, k), Flushes(next, rest, k), quiet);
      }
    }
  }

  // ---- The exporter object ----

  // One batch faces its own arbitrary server, or raises before it writes anything.
  function ResultOf(server: Option<Server>, batch: seq<Point>): Result {
    if server.None? then Raised else Done(InfluxBisect.WriteOrBisect(server.value, 0, batch))
  }

  // What the batch writes of one flush report.
  function ResultsOf(servers: seq<Option<Server>>, bs: seq<seq<Point>>): seq<Result>
    requires |servers| == |bs|
    ensures |ResultsOf(servers, bs)| == |bs|
  {
    if bs == [] then []
    else [ResultOf(servers[0], bs[0])] + ResultsOf(servers[1..], bs[1..])
  }

  lemma {:induction false} ResultsAnswer(servers: seq<Option<Server>>, bs: seq<seq<Point>>)
    requires |servers| == |bs|
    ensures Answers(ResultsOf(servers, bs), bs)
  {
    if bs != [] {
      if servers[0].Some? { NothingLost(servers[0].value, 0, bs[0]); }
      ResultsAnswer(servers[1..], bs[1..]);
      var rs := ResultsOf(servers, bs);
      assert rs[1..] == ResultsOf(servers[1..], bs[1..]);
      forall i | 0 <= i < |rs|
        ensures rs[i].Done? ==> Accounts(bs[i], rs[i].o)
      {
        if i > 0 { assert rs[i] == rs[1..][i - 1] && bs[i] == bs[1..][i - 1]; }
      }
    }
  }

  class InfluxDBExporter {
    const config: Config
    var buffer: seq<Point>
    var inFlight: seq<Point>
    var flushing: bool
    var connected: bool
    var droppedPoints: nat
    var rejectedPoints: nat
    var totalPointsWritten: nat
    var consecutiveBatchFailures: nat
    var arrivals: nat       // numbers the points; only the model needs it
    ghost var log: Exporter

    // The object's fields are the present part of the history, its counters the lengths.
    // Each method below is one step of the history, so InvStep applies to each of them.
    ghost predicate Valid()
      reads this
    {
      && ValidConfig(config) && |buffer| <= config.maxBuffer
      && buffer == log.buffer && inFlight == log.inFlight && flushing == log.flushing
      && connected == log.connected && consecutiveBatchFailures == log.failures
      && droppedPoints == |log.dropped| && rejectedPoints == |log.rejected|
      && totalPointsWritten == |log.written| && arrivals == |log.accepted|
    }

    constructor (k: Config)
      requires ValidConfig(k)
      ensures Valid() && log == EMPTY && config == k
    {
      config := k;
      buffer, inFlight, flushing, connected := [], [], false, true;
      droppedPoints, rejectedPoints, totalPointsWritten, consecutiveBatchFailures := 0, 0, 0, 0;
      arrivals := 0;
      log := EMPTY;
    }

    // Cap the buffer at its maximum, dropping from the front.
    method SetBuffer(all: seq<Point>)
      modifies this`buffer, this`droppedPoints
      ensures var n := Excess(all, config.maxBuffer);
              buffer == all[n..] && droppedPoints == old(droppedPoints) + n
    {
      if |all| > config.maxBuffer {
        var overflow := |all| - config.maxBuffer;
        droppedPoints := droppedPoints + overflow;
        buffer := all[overflow..];
      } else {
        buffer := all;
      }
    }

    // Returns whether the flush loop is to be woken.
    method WriteLines(lines: seq<string>) returns (signal: bool)
      requires Valid()
      modifies this
      ensures Valid() && log == Write(old(log), lines, config)
      ensures signal <==> |buffer| >= config.batchSize
    {
      var points := Number(lines, arrivals);
      arrivals := arrivals + |points|;
      SetBuffer(buffer + points);
      log := Write(log, lines, config);
      signal := |buffer| >= config.batchSize;
    }

    method TakeBuffer() returns (any: bool)
      requires Valid() && !flushing
      modifies this
      ensures Valid() && log == Take(old(log)) && any == flushing
    {
      if buffer == [] { return false; }
      inFlight, buffer, flushing := buffer, [], true;
      log := Take(log);
      return true;
    }

    method FlushOffline()
      requires Valid() && flushing
      modifies this
      ensures Valid() && log == NotConnected(old(log), config)
    {
      SetBuffer(inFlight + buffer);
      inFlight, flushing := [], false;
      log := NotConnected(log, config);
    }

    method WriteOrBisect(server: Server, n: nat, batch: seq<Point>)
      returns (retry: seq<Point>, written: nat, calls: nat)
      modifies this`rejectedPoints
      ensures var o := InfluxBisect.WriteOrBisect(server, n, batch);
              && retry == o.retry && written == |o.written| && calls == o.calls
              && rejectedPoints == old(rejectedPoints) + |o.rejected|
      decreases |batch|, 1
    {
      if batch == [] { return [], 0, 0; }
      match server(n, batch)
      case Accepted => return [], |batch|, 1;
      case Transient => return batch, 0, 1;
      case Rejected =>
        retry, written, calls := IsolateUnprocessable(server, n + 1, batch);
        calls := 1 + calls;
    }

    method IsolateUnprocessable(server: Server, n: nat, batch: seq<Point>)
      returns (retry: seq<Point>, written: nat, calls: nat)
      requires batch != []
      modifies this`rejectedPoints
      ensures var o := Isolate(server, n, batch);
              && retry == o.retry && written == |o.written| && calls == o.calls
              && rejectedPoints == old(rejectedPoints) + |o.rejected|
      decreases |batch|, 0
    {
      if |batch| == 1 {
        rejectedPoints := rejectedPoints + 1;
        return [], 0, 0;
      }
      var mid := |batch| / 2;
      var leftRetry, leftWritten, leftCalls := WriteOrBisect(server, n, batch[..mid]);
      var rightRetry, rightWritten, rightCalls := WriteOrBisect(server, n + leftCalls, batch[mid..]);
      return leftRetry + rightRetry, leftWritten + rightWritten, leftCalls + rightCalls;
    }

    // Write every batch and tally the results.
    method WriteBatches(servers: seq<Option<Server>>, batches: seq<seq<Point>>)
      returns (failedPoints: seq<Point>, successfulPoints: nat)
      requires |servers| == |batches|
      modifies this`rejectedPoints
      ensures var rs := ResultsOf(servers, batches);
              && failedPoints == RetryOf(rs, batches) && successfulPoints == |WrittenOf(rs)|
              && rejectedPoints == old(rejectedPoints) + |RejectedOf(rs)|
      decreases |batches|
    {
      if batches == [] { return [], 0; }
      var retry, written := batches[0], 0;
      if servers[0].Some? {
        var calls;
        retry, written, calls := WriteOrBisect(servers[0].value, 0, batches[0]);
      }
      var laterRetry, laterWritten := WriteBatches(servers[1..], batches[1..]);
      ghost var rs := ResultsOf(servers, batches);
      assert rs[1..] == ResultsOf(servers[1..], batches[1..]);
      return retry + laterRetry, written + laterWritten;
    }

    // Counters, re-queueing and the reconnect check after the batches have been written.
    method Tally(failedPoints: seq<Point>, successfulPoints: nat)
      requires |buffer| <= config.maxBuffer
      modifies this`buffer, this`droppedPoints, this`totalPointsWritten, this`consecutiveBatchFailures, this`connected
      ensures var all := failedPoints + old(buffer);
              var n := Excess(all, config.maxBuffer);
              buffer == all[n..] && droppedPoints == old(droppedPoints) + n
      ensures totalPointsWritten == old(totalPointsWritten) + successfulPoints
      ensures var f := NextFailures(old(consecutiveBatchFailures), successfulPoints > 0, failedPoints != []);
              if f >= RECONNECT_THRESHOLD then !connected && consecutiveBatchFailures == 0
              else connected == old(connected) && consecutiveBatchFailures == f
    {
      if successfulPoints > 0 {
        consecutiveBatchFailures := 0;
        totalPointsWritten := totalPointsWritten + successfulPoints;
      }
      if failedPoints != [] {
        if successfulPoints == 0 { consecutiveBatchFailures := consecutiveBatchFailures + 1; }
        SetBuffer(failedPoints + buffer);
      } else {
        assert failedPoints + buffer == buffer;
      }
      if consecutiveBatchFailures >= RECONNECT_THRESHOLD {
        connected, consecutiveBatchFailures := false, 0;
      }
    }

    method SettleFlush(servers: seq<Option<Server>>)
      requires Valid() && flushing && |servers| == |Batches(inFlight, config.batchSize)|
      modifies this
      ensures Valid()
      ensures var rs := ResultsOf(servers, Batches(old(log).inFlight, config.batchSize));
              |rs| == |servers| && log == Settle(old(log), rs, config)
    {
      var batches := Batches(inFlight, config.batchSize);
      ghost var rs := ResultsOf(servers, batches);
      var failedPoints, successfulPoints := WriteBatches(servers, batches);
      Tally(failedPoints, successfulPoints);
      inFlight, flushing := [], false;
      log := Settle(log, rs, config);
    }
  }
}
