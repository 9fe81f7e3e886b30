/** Writing one batch to InfluxDB, with bisection of rejected batches
    (collector/src/exporters/influxdb.py, _write_or_bisect and _isolate_unprocessable).

    The server is an arbitrary function of the call number and the batch, so it may
    answer the same batch differently every time. A reply is all-or-nothing. */
module InfluxBisect {
  import opened Common

  datatype Point = Point(arrival: nat, line: string)

  // A timeout or any error other than a 4xx payload rejection is transient.
  datatype Reply = Accepted | Transient | Rejected
  type Server = (nat, seq<Point>) -> Reply

  // What became of a batch: points to re-queue, points stored, points dropped as
  // unprocessable, and the number of write calls made.
  datatype Outcome = Outcome(retry: seq<Point>, written: seq<Point>, rejected: seq<Point>, calls: nat)

  function WriteOrBisect(server: Server, n: nat, batch: seq<Point>): Outcome
    decreases |batch|, 1
  {
    if batch == [] then Outcome([], [], [], 0)
    else
      match server(n, batch)
      case Accepted => Outcome([], batch, [], 1)
      case Transient => Outcome(batch, [], [], 1)
      case Rejected =>
        var rest := Isolate(server, n + 1, batch);
        rest.(calls := 1 + rest.calls)
  }

  function Isolate(server: Server, n: nat, batch: seq<Point>): Outcome
    requires batch != []
    decreases |batch|, 0
  {
    if |batch| == 1 then Outcome([], [], batch, 0)
    else
      var mid := |batch| / 2;
      var left := WriteOrBisect(server, n, batch[..mid]);
      var right := WriteOrBisect(server, n + left.calls, batch[mid..]);
      Both(left, right)
  }

  function Both(left: Outcome, right: Outcome): Outcome {
    Outcome(left.retry + right.retry, left.written + right.written, left.rejected + right.rejected,
            left.calls + right.calls)
  }

  // ---- Every point is accounted for, in order ----

  // f says where in b each element of a sits, from left to right.
  ghost predicate Embeds<T>(f: seq<int>, a: seq<T>, b: seq<T>) {
    && |f| == |a|
    && (forall i | 0 <= i < |f| :: 0 <= f[i] < |b| && b[f[i]] == a[i])
    && (forall i, j | 0 <= i < j < |f| :: f[i] < f[j])
  }

  // The elements of a, in order, within b.
  ghost predicate Sublist<T>(a: seq<T>, b: seq<T>) {
    exists f :: Embeds(f, a, b)
  }

  lemma EmptySublist<T>(b: seq<T>)
    ensures Sublist([], b)
  {
    assert Embeds([], [], b);
  }

  lemma SublistSelf<T>(a: seq<T>)
    ensures Sublist(a, a)
  {
    assert Embeds(seq(|a|, i => i), a, a);
  }

  lemma SublistConcat<T>(a: seq<T>, x: seq<T>, b: seq<T>, y: seq<T>)
    requires Sublist(a, x) && Sublist(b, y)
    ensures Sublist(a + b, x + y)
  {
    var f :| Embeds(f, a, x);
    var g :| Embeds(g, b, y);
    var h := seq(|g|, i requires 0 <= i < |g| => g[i] + |x|);
    assert Embeds(f + h, a + b, x + y);
  }

  function Fates(o: Outcome): multiset<Point> {
    multiset(o.retry) + multiset(o.written) + multiset(o.rejected)
  }

  // Retry, written and rejected points partition the batch, and each keeps its order.
  ghost predicate Accounts(batch: seq<Point>, o: Outcome) {
    && multiset(batch) == Fates(o)
    && Sublist(o.retry, batch) && Sublist(o.written, batch) && Sublist(o.rejected, batch)
  }

  lemma FatesBoth(left: Outcome, right: Outcome)
    ensures Fates(Both(left, right)) == Fates(left) + Fates(right)
  {
  }

  lemma AccountsBoth(x: seq<Point>, left: Outcome, y: seq<Point>, right: Outcome)
    requires Accounts(x, left) && Accounts(y, right)
    ensures Accounts(x + y, Both(left, right))
  {
    FatesBoth(left, right);
    SublistConcat(left.retry, x, right.retry, y);
    SublistConcat(left.written, x, right.written, y);
    SublistConcat(left.rejected, x, right.rejected, y);
  }

  lemma AccountsWhole(batch: seq<Point>, k: nat)
    ensures Accounts(batch, Outcome(batch, [], [], k))
    ensures Accounts(batch, Outcome([], batch, [], k))
    ensures Accounts(batch, Outcome([], [], batch, k))
  {
    SublistSelf(batch);
    EmptySublist(batch);
  }

  lemma {:induction false} NothingLost(server: Server, n: nat, batch: seq<Point>)
    ensures Accounts(batch, WriteOrBisect(server, n, batch))
    decreases |batch|, 1
  {
    if batch == [] {
      EmptySublist(batch);
    } else if server(n, batch) == Rejected {
      IsolateAccounts(server, n + 1, batch);
      var rest := Isolate(server, n + 1, batch);
      assert WriteOrBisect(server, n, batch) == rest.(calls := 1 + rest.calls);
    } else {
      AccountsWhole(batch, 1);
    }
  }

  lemma {:induction false} IsolateAccounts(server: Server, n: nat, batch: seq<Point>)
    requires batch != []
    ensures Accounts(batch, Isolate(server, n, batch))
    decreases |batch|, 0
  {
    if |batch| == 1 {
      AccountsWhole(batch, 0);
    } else {
      var x, y, next := IsolateSplits(server, n, batch);
      NothingLost(server, n, x);
      NothingLost(server, next, y);
      AccountsBoth(x, WriteOrBisect(server, n, x), y, WriteOrBisect(server, next, y));
    }
  }

  // Isolation of a longer batch is its two halves, the second from call number `next` on.
  lemma IsolateSplits(server: Server, n: nat, batch: seq<Point>) returns (x: seq<Point>, y: seq<Point>, next: nat)
    requires |batch| > 1
    ensures batch == x + y && 0 < |x| == |batch| / 2 && |y| < |batch|
    ensures Isolate(server, n, batch) == Both(WriteOrBisect(server, n, x), WriteOrBisect(server, next, y))
  {
    var mid := |batch| / 2;
    x, y := batch[..mid], batch[mid..];
    next := n + WriteOrBisect(server, n, x).calls;
  }

  // The answer to the first write decides: stored, or to be sent again, or isolated further,
  // and a single rejected point is dropped.
  lemma ReplyDecides(server: Server, n: nat, batch: seq<Point>)
    requires batch != []
    ensures var o := WriteOrBisect(server, n, batch);
            match server(n, batch)
            case Accepted => o.written == batch && o.retry == [] && o.rejected == []
            case Transient => o.retry == batch && o.written == [] && o.rejected == []
            case Rejected => |batch| == 1 ==> o.rejected == batch && o.retry == [] && o.written == []
  {
  }

  // Whatever the server answers, n points take at most 2n - 1 calls, and none only if there are
  // no points.
  lemma {:induction false} CallsAtMost(server: Server, n: nat, batch: seq<Point>)
    ensures var calls := WriteOrBisect(server, n, batch).calls;
            if batch == [] then calls == 0 else 1 <= calls <= 2 * |batch| - 1
    decreases |batch|
  {
    if batch != [] && server(n, batch) == Rejected {
      var next := RejectedFirst(server, n, batch);
      if |batch| > 1 {
        var x, y, later := IsolateSplits(server, next, batch);
        CallsAtMost(server, next, x);
        CallsAtMost(server, later, y);
      }
    }
  }

  // ---- A server that rejects exactly the batches holding a bad point ----

  function Filter(f: Point -> bool, s: seq<Point>): seq<Point> {
    if s == [] then [] else (if f(s[0]) then [s[0]] else []) + Filter(f, s[1..])
  }

  lemma {:induction false} FilterConcat(f: Point -> bool, a: seq<Point>, b: seq<Point>)
    ensures Filter(f, a + b) == Filter(f, a) + Filter(f, b)
  {
    if a == [] {
      assert a + b == b;
    } else {
      assert (a + b)[1..] == a[1..] + b && (a + b)[0] == a[0];
      FilterConcat(f, a[1..], b);
      var first := if f(a[0]) then [a[0]] else [];
      assert first + (Filter(f, a[1..]) + Filter(f, b)) == (first + Filter(f, a[1..])) + Filter(f, b);
    }
  }

  lemma {:induction false} FilterAll(f: Point -> bool, s: seq<Point>)
    ensures (forall p | p in s :: f(p)) ==> Filter(f, s) == s
    ensures (forall p | p in s :: !f(p)) ==> Filter(f, s) == []
  {
    if s != [] {
      FilterAll(f, s[1..]);
      assert s == [s[0]] + s[1..];
    }
  }

  function Not(bad: Point -> bool): Point -> bool {
    p => !bad(p)
  }

  ghost predicate RejectsExactly(server: Server, bad: Point -> bool) {
    forall n, batch :: server(n, batch) == if exists p :: p in batch && bad(p) then Rejected else Accepted
  }

  function CeilLog2(n: nat): nat {
    if n <= 1 then 0 else 1 + CeilLog2((n + 1) / 2)
  }

  function Pow2(k: nat): nat {
    if k == 0 then 1 else 2 * Pow2(k - 1)
  }

  // CeilLog2(n) is the least k with n <= 2^k.
  lemma {:induction false} CeilLog2IsLeast(n: nat)
    ensures n <= Pow2(CeilLog2(n))
    ensures CeilLog2(n) > 0 ==> Pow2(CeilLog2(n) - 1) < n
  {
    if n > 1 {
      CeilLog2IsLeast((n + 1) / 2);
    }
  }

  lemma {:induction false} CeilLog2Mono(m: nat, n: nat)
    requires m <= n
    ensures CeilLog2(m) <= CeilLog2(n)
  {
    if m > 1 { CeilLog2Mono((m + 1) / 2, (n + 1) / 2); }
  }

  // What exact isolation means for a batch with b bad points.
  ghost predicate Exact(bad: Point -> bool, batch: seq<Point>, o: Outcome) {
    && o.retry == []
    && o.written == Filter(Not(bad), batch)
    && o.rejected == Filter(bad, batch)
  }

  function CallBound(bad: Point -> bool, batch: seq<Point>): nat {
    1 + 2 * |Filter(bad, batch)| * CeilLog2(|batch|)
  }

  lemma ExactBoth(bad: Point -> bool, x: seq<Point>, left: Outcome, y: seq<Point>, right: Outcome)
    requires Exact(bad, x, left) && Exact(bad, y, right)
    ensures Exact(bad, x + y, Both(left, right))
  {
    FilterConcat(bad, x, y);
    FilterConcat(Not(bad), x, y);
  }

  // 1 + 2 b1 l1 + 1 + 2 b2 l2 <= 2 (b1 + b2) l  when l1, l2 < l and some point is bad.
  lemma SplitCost(b1: nat, b2: nat, l1: nat, l2: nat, l: nat)
    requires b1 + b2 > 0 && l1 < l && l2 < l
    ensures 1 + 2 * b1 * l1 + 1 + 2 * b2 * l2 <= 2 * (b1 + b2) * l
  {
    MulMono(b1, l1, l - 1);
    MulMono(b2, l2, l - 1);
    calc {
      2 * b1 * (l - 1) + 2 * b2 * (l - 1);
      2 * ((b1 + b2) * (l - 1));
      2 * ((b1 + b2) * l - (b1 + b2));
    }
  }

  lemma MulMono(b: nat, x: nat, y: nat)
    requires x <= y
    ensures b * x <= b * y
  {
  }

  // The good points are written once each and in order, only the bad ones are dropped,
  // and it takes at most 1 + 2 b ceil(log2 n) calls.
  lemma {:induction false} BisectionIsExactAndCheap(server: Server, bad: Point -> bool, n: nat, batch: seq<Point>)
    requires RejectsExactly(server, bad)
    ensures Exact(bad, batch, WriteOrBisect(server, n, batch))
    ensures WriteOrBisect(server, n, batch).calls <= CallBound(bad, batch)
    decreases |batch|
  {
    if p :| p in batch && bad(p) {
      assert server(n, batch) == Rejected;
      var next := RejectedFirst(server, n, batch);
      if |batch| == 1 {
        SingleExact(bad, batch, p);
      } else {
        IsolateExact(server, bad, next, batch, p);
      }
    } else {
      AllGoodExact(server, bad, n, batch);
    }
  }

  // What follows a rejected write is the isolation of its batch.
  lemma RejectedFirst(server: Server, n: nat, batch: seq<Point>) returns (next: nat)
    requires batch != [] && server(n, batch) == Rejected
    ensures var rest := Isolate(server, next, batch);
            WriteOrBisect(server, n, batch) == rest.(calls := 1 + rest.calls)
  {
    next := n + 1;
  }

  lemma SingleExact(bad: Point -> bool, batch: seq<Point>, p: Point)
    requires |batch| == 1 && p in batch && bad(p)
    ensures Exact(bad, batch, Outcome([], [], batch, 1))
  {
    assert batch == [p];
    FilterAll(bad, batch);
    FilterAll(Not(bad), batch);
  }

  lemma AllGoodExact(server: Server, bad: Point -> bool, n: nat, batch: seq<Point>)
    requires RejectsExactly(server, bad) && forall p | p in batch :: !bad(p)
    ensures Exact(bad, batch, WriteOrBisect(server, n, batch))
    ensures WriteOrBisect(server, n, batch).calls <= 1
  {
    FilterAll(bad, batch);
    FilterAll(Not(bad), batch);
  }

  lemma {:induction false} IsolateExact(server: Server, bad: Point -> bool, n: nat, batch: seq<Point>, p: Point)
    requires RejectsExactly(server, bad) && |batch| > 1 && p in batch && bad(p)
    ensures Exact(bad, batch, Isolate(server, n, batch))
    ensures 1 + Isolate(server, n, batch).calls <= CallBound(bad, batch)
    decreases |batch|, 0
  {
    var x, y, next := IsolateSplits(server, n, batch);
    BisectionIsExactAndCheap(server, bad, n, x);
    BisectionIsExactAndCheap(server, bad, next, y);
    ExactBoth(bad, x, WriteOrBisect(server, n, x), y, WriteOrBisect(server, next, y));
    HalvesCost(bad, batch, x, y, p);
  }

  // The bounds of the two halves of a rejected batch add up to the bound of the whole.
  lemma HalvesCost(bad: Point -> bool, batch: seq<Point>, x: seq<Point>, y: seq<Point>, p: Point)
    requires |batch| > 1 && |x| == |batch| / 2 && batch == x + y && p in batch && bad(p)
    ensures 1 + CallBound(bad, x) + CallBound(bad, y) <= CallBound(bad, batch)
  {
    FilterConcat(bad, x, y);
    BadCounted(bad, batch, p);
    CeilLog2Mono(|x|, |y|);
    SplitCost(|Filter(bad, x)|, |Filter(bad, y)|, CeilLog2(|x|), CeilLog2(|y|), CeilLog2(|batch|));
  }

  lemma {:induction false} BadCounted(bad: Point -> bool, s: seq<Point>, p: Point)
    requires p in s && bad(p)
    ensures |Filter(bad, s)| > 0
  {
    if !bad(s[0]) {
      BadCounted(bad, s[1..], p);
    }
  }
}
