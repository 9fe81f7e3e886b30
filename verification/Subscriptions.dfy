/** Reconciling alert subscriptions with the targets (collector/src/alert_manager.py,
    _refresh_subscriptions, _start_*_subscription, _verify_webhook_subscriptions).

    Target ids are a primary key, so the wanted configuration is a map from id to
    fingerprint. What each start or verification attempt comes to is arbitrary. */
module Subscriptions {
  import opened Common

  datatype Kind = Sse | Webhook

  // failed: permanently failed ids and when to retry them, None for never.
  datatype State = State(
    sse: set<int>,
    webhook: set<int>,
    types: map<int, Kind>,
    prints: map<int, string>,
    failed: map<int, Option<int>>,
    verified: map<int, int>)

  const EMPTY := State({}, {}, map[], map[], map[], map[])

  // How one start attempt ends.
  datatype Start = Nothing | StartedSse | StartedWebhook | PermanentlyFailed

  // How one verification ends.
  datatype Check = Alive | Gone | Raised

  type Wanted = map<int, string>

  function Subscribed(s: State): set<int> {
    s.sse + s.webhook
  }

  function RetryAt(now: int, retryAfter: nat): Option<int> {
    if retryAfter > 0 then Some(now + retryAfter) else None
  }

  // SSE subscribers whose stream failed for good move to the failed set.
  function Harvest(s: State, dead: set<int>, now: int, retryAfter: nat): State {
    var gone := s.sse * dead;
    s.(sse := s.sse - gone, types := s.types - gone,
       failed := map t | t in s.failed.Keys + gone ::
                   if t in s.failed then s.failed[t] else RetryAt(now, retryAfter))
  }

  function Changed(s: State, want: Wanted): set<int> {
    set t | t in Subscribed(s) && t in want && !(t in s.prints && s.prints[t] == want[t])
  }

  // Failed targets whose configuration differs from the one they last subscribed with.
  function Fixed(s: State, want: Wanted): set<int> {
    set t | t in s.failed && t in want && t in s.prints && s.prints[t] != want[t]
  }

  function ToRemove(s: State, want: Wanted): set<int> {
    (Subscribed(s) - want.Keys) + Changed(s, want)
  }

  function Forget(s: State, out: set<int>): State {
    s.(sse := s.sse - out, webhook := s.webhook - out, types := s.types - out, prints := s.prints - out,
       failed := s.failed - out)
  }

  function Removed(s: State, want: Wanted): State {
    Forget(s.(failed := s.failed - Fixed(s, want)), ToRemove(s, want))
  }

  function Due(s: State, now: int, retryAfter: nat): set<int> {
    set t | t in s.failed && retryAfter > 0 && s.failed[t].Some? && s.failed[t].value <= now
  }

  function AfterCooldown(s: State, now: int, retryAfter: nat): State {
    s.(failed := s.failed - Due(s, now, retryAfter))
  }

  // The ids a refresh attempts to start. h is the state after the harvest.
  function ToStart(h: State, want: Wanted, now: int, retryAfter: nat): set<int> {
    var c := AfterCooldown(Removed(h, want), now, retryAfter);
    ((want.Keys - Subscribed(h)) + Changed(h, want)) - c.failed.Keys
  }

  // One start attempt and the fingerprint recorded after it.
  function StartOne(s: State, t: int, fp: string, o: Start, now: int, retryAfter: nat): State {
    match o
    case Nothing => Recorded(s, t, fp)
    case StartedSse => Recorded(s.(sse := s.sse + {t}, types := s.types[t := Sse]), t, fp)
    case StartedWebhook => Recorded(s.(webhook := s.webhook + {t}, types := s.types[t := Webhook]), t, fp)
    case PermanentlyFailed => Recorded(s.(failed := s.failed[t := RetryAt(now, retryAfter)]), t, fp)
  }

  function Recorded(s: State, t: int, fp: string): State {
    if t in Subscribed(s) then s.(prints := s.prints[t := fp]) else s
  }

  // Attempts in the order given; only ids in `ids` are attempted.
  function StartAll(s: State, order: seq<int>, ids: set<int>, want: Wanted, start: int -> Start, now: int,
                    retryAfter: nat): State
    requires forall t | t in ids :: t in want
  {
    if order == [] then s
    else
      var t := order[|order| - 1];
      var init := StartAll(s, order[..|order| - 1], ids, want, start, now, retryAfter);
      if t in ids then StartOne(init, t, want[t], start(t), now, retryAfter) else init
  }

  function DueForCheck(s: State, now: int, interval: nat): set<int> {
    set t | t in s.webhook && t in s.verified && now - s.verified[t] >= interval
  }

  function GoneAmong(due: set<int>, check: int -> Check): set<int> {
    set t | t in due && check(t) == Gone
  }

  // Of the webhooks in due, those found gone are dropped and those that answered are
  // stamped; webhooks never stamped before are seeded.
  function Checked(s: State, due: set<int>, check: int -> Check, now: int): State {
    var gone := GoneAmong(due, check);
    s.(webhook := s.webhook - gone, types := s.types - gone, prints := s.prints - gone,
       verified := map t | t in s.verified.Keys + s.webhook && t !in gone ::
                     if t in s.verified && !(t in due && check(t) == Alive) then s.verified[t] else now)
  }

  function Verify(s: State, check: int -> Check, now: int, interval: nat): State {
    Checked(s, DueForCheck(s, now, interval), check, now)
  }

  // One refresh: what it finds, when (by the wall clock and by the monotonic clock), and how
  // each attempt ends.
  datatype Round = Round(want: Wanted, order: seq<int>, dead: set<int>, start: int -> Start, check: int -> Check,
                         now: int, mono: int)

  datatype Config = Config(retryAfter: nat, interval: nat)

  // The targets are listed once each.
  ghost predicate Lists(order: seq<int>, want: Wanted) {
    Elements(order) == want.Keys && forall i, j | 0 <= i < j < |order| :: order[i] != order[j]
  }

  function Refresh(s: State, r: Round, k: Config): State {
    var h := Harvest(s, r.dead, r.now, k.retryAfter);
    var c := AfterCooldown(Removed(h, r.want), r.now, k.retryAfter);
    var ids := ToStart(h, r.want, r.now, k.retryAfter);
    Verify(StartAll(c, r.order, ids, r.want, r.start, r.now, k.retryAfter), r.check, r.mono, k.interval)
  }

  // ---- The invariant ----

  // The three id sets are disjoint and the type map tags exactly the subscribed ids.
  ghost predicate Consistent(s: State) {
    && s.sse !! s.webhook && Subscribed(s) !! s.failed.Keys
    && s.types.Keys == Subscribed(s)
    && (forall t | t in s.sse :: s.types[t] == Sse)
    && (forall t | t in s.webhook :: s.types[t] == Webhook)
  }

  // Every subscription is for a wanted target and was made with its current configuration.
  ghost predicate Synced(s: State, want: Wanted) {
    forall t | t in Subscribed(s) :: t in want && t in s.prints && s.prints[t] == want[t]
  }

  lemma RemovedOk(h: State, want: Wanted)
    requires Consistent(h)
    ensures Consistent(Removed(h, want)) && Synced(Removed(h, want), want)
    ensures Subscribed(Removed(h, want)) == Subscribed(h) - ToRemove(h, want)
  {
  }

  lemma CooldownOk(s: State, want: Wanted, now: int, retryAfter: nat)
    requires Consistent(s) && Synced(s, want)
    ensures Consistent(AfterCooldown(s, now, retryAfter)) && Synced(AfterCooldown(s, now, retryAfter), want)
    ensures Subscribed(AfterCooldown(s, now, retryAfter)) == Subscribed(s)
  {
  }

  lemma StartOneOk(s: State, t: int, want: Wanted, o: Start, now: int, retryAfter: nat)
    requires Consistent(s) && Synced(s, want) && t in want && t !in Subscribed(s) && t !in s.failed
    ensures var s' := StartOne(s, t, want[t], o, now, retryAfter);
            && Consistent(s') && Synced(s', want)
            && (forall u | u != t ::
                  (u in Subscribed(s') <==> u in Subscribed(s)) && (u in s'.failed <==> u in s.failed))
  {
  }

  lemma {:induction false} StartAllOk(s: State, order: seq<int>, ids: set<int>, want: Wanted, start: int -> Start,
                                      now: int, retryAfter: nat)
    requires Consistent(s) && Synced(s, want)
    requires forall t | t in ids :: t in want && t !in Subscribed(s) && t !in s.failed
    requires forall i, j | 0 <= i < j < |order| :: order[i] != order[j]
    ensures var s' := StartAll(s, order, ids, want, start, now, retryAfter);
            && Consistent(s') && Synced(s', want)
            && (forall u | u in ids && u !in order :: u !in Subscribed(s') && u !in s'.failed)
    decreases |order|
  {
    if order != [] {
      var n := |order| - 1;
      var t, init := order[n], order[..n];
      StartAllOk(s, init, ids, want, start, now, retryAfter);
      assert forall i | 0 <= i < n :: init[i] == order[i] && order[i] != order[n];
      assert t !in init;
      var mid := StartAll(s, init, ids, want, start, now, retryAfter);
      if t in ids {
        StartOneOk(mid, t, want, start(t), now, retryAfter);
      }
      forall u | u in ids && u !in order
        ensures u !in init && u != t
      {
        assert order[n] == t;
      }
    }
  }

  lemma VerifyOk(s: State, want: Wanted, check: int -> Check, now: int, interval: nat)
    requires Consistent(s) && Synced(s, want)
    ensures Consistent(Verify(s, check, now, interval)) && Synced(Verify(s, check, now, interval), want)
  {
  }

  lemma HarvestOk(s: State, dead: set<int>, now: int, retryAfter: nat)
    requires Consistent(s)
    ensures Consistent(Harvest(s, dead, now, retryAfter))
  {
  }

  // One refresh, whatever the attempts come to, keeps the bookkeeping consistent and leaves
  // only subscriptions of wanted targets under their current configuration.
  lemma RefreshOk(s: State, r: Round, k: Config)
    requires Consistent(s) && Lists(r.order, r.want)
    ensures Consistent(Refresh(s, r, k)) && Synced(Refresh(s, r, k), r.want)
  {
    var h := Harvest(s, r.dead, r.now, k.retryAfter);
    HarvestOk(s, r.dead, r.now, k.retryAfter);
    RemovedOk(h, r.want);
    CooldownOk(Removed(h, r.want), r.want, r.now, k.retryAfter);
    var c := AfterCooldown(Removed(h, r.want), r.now, k.retryAfter);
    var ids := ToStart(h, r.want, r.now, k.retryAfter);
    StartAllOk(c, r.order, ids, r.want, r.start, r.now, k.retryAfter);
    VerifyOk(StartAll(c, r.order, ids, r.want, r.start, r.now, k.retryAfter), r.want, r.check, r.mono, k.interval);
  }

  // ---- What a refresh does to one target ----

  // The ids a refresh tries to start.
  function Attempted(s: State, r: Round, k: Config): set<int> {
    ToStart(Harvest(s, r.dead, r.now, k.retryAfter), r.want, r.now, k.retryAfter)
  }

  // Subscribed when the refresh begins, and its stream has not failed for good.
  predicate Holding(s: State, r: Round, t: int) {
    (t in s.sse && t !in r.dead) || t in s.webhook
  }

  // The configuration it subscribed with is the wanted one.
  predicate Unchanged(s: State, r: Round, t: int) {
    t in s.prints && t in r.want && s.prints[t] == r.want[t]
  }

  // Marked as failed, now or before, and nothing has cleared the mark: its configuration is
  // not known to have changed, and no cooldown has passed.
  predicate StillFailed(s: State, r: Round, k: Config, t: int) {
    && (t in s.failed || (t in s.sse && t in r.dead))
    && !(t in s.prints && t in r.want && s.prints[t] != r.want[t])
    && !(k.retryAfter > 0 && t in s.failed && s.failed[t].Some? && s.failed[t].value <= r.now)
  }

  // The ids attempted are the wanted ones that are new or changed and not still failed.
  lemma AttemptedIff(s: State, r: Round, k: Config, t: int)
    requires Consistent(s)
    ensures t in Attempted(s, r, k)
            <==> t in r.want && !(Holding(s, r, t) && Unchanged(s, r, t)) && !StillFailed(s, r, k, t)
  {
    HarvestIs(s, r, k, t);
    HarvestOk(s, r.dead, r.now, k.retryAfter);
    ReadyIs(s, r, k, t);
  }

  // A check that finds the webhook of t gone.
  predicate FoundGone(s: State, r: Round, k: Config, t: int) {
    t in s.verified && r.mono - s.verified[t] >= k.interval && r.check(t) == Gone
  }

  // Where t is to be found, and how it is tagged.
  ghost predicate IsSse(s: State, want: Wanted, t: int) {
    && t in s.sse && t !in s.webhook && t !in s.failed && t in s.types && s.types[t] == Sse
    && t in want && t in s.prints && s.prints[t] == want[t]
  }

  ghost predicate IsWebhook(s: State, want: Wanted, t: int) {
    && t in s.webhook && t !in s.sse && t !in s.failed && t in s.types && s.types[t] == Webhook
    && t in want && t in s.prints && s.prints[t] == want[t]
  }

  predicate IsNowhere(s: State, t: int) {
    t !in s.sse && t !in s.webhook && t !in s.failed && t !in s.types
  }

  predicate IsFailed(s: State, t: int) {
    t in s.failed && t !in s.sse && t !in s.webhook
  }

  // Starting the others does not touch t.
  ghost predicate SameFor(s: State, s': State, t: int) {
    && (t in s.sse <==> t in s'.sse) && (t in s.webhook <==> t in s'.webhook)
    && (t in s.types <==> t in s'.types) && (t in s.types ==> s.types[t] == s'.types[t])
    && (t in s.prints <==> t in s'.prints) && (t in s.prints ==> s.prints[t] == s'.prints[t])
    && (t in s.failed <==> t in s'.failed) && (t in s.failed ==> s.failed[t] == s'.failed[t])
    && s'.verified == s.verified
  }

  lemma OtherStarts(s: State, u: int, fp: string, o: Start, now: int, retryAfter: nat, t: int)
    requires u != t
    ensures SameFor(s, StartOne(s, u, fp, o, now, retryAfter), t)
  {
  }

  lemma SameForBoth(s: State, m: State, s': State, t: int)
    requires SameFor(s, m, t) && SameFor(m, s', t)
    ensures SameFor(s, s', t)
  {
  }

  lemma {:induction false} OthersStart(s: State, order: seq<int>, ids: set<int>, want: Wanted, start: int -> Start,
                                       now: int, retryAfter: nat, t: int)
    requires (forall u | u in ids :: u in want) && (t !in ids || t !in order)
    ensures SameFor(s, StartAll(s, order, ids, want, start, now, retryAfter), t)
    decreases |order|
  {
    if order != [] {
      var init, u := order[..|order| - 1], order[|order| - 1];
      assert u in order && forall v | v in init :: v in order;
      OthersStart(s, init, ids, want, start, now, retryAfter, t);
      if u in ids {
        var mid := StartAll(s, init, ids, want, start, now, retryAfter);
        OtherStarts(mid, u, want[u], start(u), now, retryAfter, t);
        SameForBoth(s, mid, StartOne(mid, u, want[u], start(u), now, retryAfter), t);
      }
    }
  }

  // One start leaves t as its outcome says.
  ghost predicate StartedAs(s: State, want: Wanted, t: int, o: Start, now: int, retryAfter: nat) {
    match o
    case StartedSse => IsSse(s, want, t)
    case StartedWebhook => IsWebhook(s, want, t)
    case PermanentlyFailed =>
      IsFailed(s, t) && s.failed[t] == if retryAfter > 0 then Some(now + retryAfter) else None
    case Nothing => IsNowhere(s, t)
  }

  lemma StartOneIs(s: State, t: int, want: Wanted, o: Start, now: int, retryAfter: nat)
    requires IsNowhere(s, t) && t in want
    ensures StartedAs(StartOne(s, t, want[t], o, now, retryAfter), want, t, o, now, retryAfter)
  {
  }

  lemma SameStart(s: State, s': State, want: Wanted, t: int, o: Start, now: int, retryAfter: nat)
    requires StartedAs(s, want, t, o, now, retryAfter) && SameFor(s, s', t)
    ensures StartedAs(s', want, t, o, now, retryAfter)
  {
  }

  lemma NotInInit(order: seq<int>, t: int)
    requires order != [] && Distinct(order) && t in order
    ensures Distinct(order[..|order| - 1]) && (t in order[..|order| - 1] <==> t != order[|order| - 1])
  {
  }

  lemma {:induction false} StartAllIs(s: State, order: seq<int>, ids: set<int>, want: Wanted, start: int -> Start,
                                      now: int, retryAfter: nat, t: int)
    requires (forall u | u in ids :: u in want) && t in ids && t in order && Distinct(order) && IsNowhere(s, t)
    ensures StartedAs(StartAll(s, order, ids, want, start, now, retryAfter), want, t, start(t), now, retryAfter)
    decreases |order|
  {
    var init, u := order[..|order| - 1], order[|order| - 1];
    var mid := StartAll(s, init, ids, want, start, now, retryAfter);
    if u == t {
      NotInInit(order, t);
      OthersStart(s, init, ids, want, start, now, retryAfter, t);
      StartOneIs(mid, t, want, start(t), now, retryAfter);
    } else {
      NotInInit(order, t);
      StartAllIs(s, init, ids, want, start, now, retryAfter, t);
      if u in ids {
        OtherStarts(mid, u, want[u], start(u), now, retryAfter, t);
        SameStart(mid, StartOne(mid, u, want[u], start(u), now, retryAfter), want, t, start(t), now, retryAfter);
      }
    }
  }

  // The state in which the starts of a refresh begin, and the one they leave.
  function Ready(s: State, r: Round, k: Config): State {
    AfterCooldown(Removed(Harvest(s, r.dead, r.now, k.retryAfter), r.want), r.now, k.retryAfter)
  }

  function Begun(s: State, r: Round, k: Config): State {
    StartAll(Ready(s, r, k), r.order, Attempted(s, r, k), r.want, r.start, r.now, k.retryAfter)
  }

  // Checking webhooks only takes away those found gone.
  lemma CheckedIs(s: State, r: Round, k: Config, t: int)
    requires Consistent(s)
    ensures var c := Verify(s, r.check, r.mono, k.interval);
            && (t in c.sse <==> t in s.sse) && (t in c.failed <==> t in s.failed)
            && (t in c.failed ==> c.failed[t] == s.failed[t])
            && (if t in s.webhook && FoundGone(s, r, k, t) then t !in c.webhook && t !in c.types && t !in c.prints
                else (t in c.webhook <==> t in s.webhook)
                     && (t in c.types <==> t in s.types) && (t in s.types ==> c.types[t] == s.types[t])
                     && (t in c.prints <==> t in s.prints) && (t in s.prints ==> c.prints[t] == s.prints[t]))
  {
  }

  // The stamps of the checks: a webhook is stamped when it is first seen and whenever it
  // answers a check that was due; one found gone loses its stamp; nothing else changes.
  lemma StampsAre(s: State, check: int -> Check, now: int, interval: nat, t: int)
    ensures var stamps := Verify(s, check, now, interval).verified;
            if t !in s.webhook then (t in stamps <==> t in s.verified) && (t in stamps ==> stamps[t] == s.verified[t])
            else if t !in s.verified then t in stamps && stamps[t] == now
            else if now - s.verified[t] < interval then t in stamps && stamps[t] == s.verified[t]
            else match check(t)
                 case Alive => t in stamps && stamps[t] == now
                 case Raised => t in stamps && stamps[t] == s.verified[t]
                 case Gone => t !in stamps
  {
  }

  // An attempted target ends as its start says, except that a webhook may at once be found gone.
  lemma AttemptedEndsAs(s: State, r: Round, k: Config, t: int)
    requires Consistent(s) && Lists(r.order, r.want) && t in Attempted(s, r, k)
    ensures var e := Refresh(s, r, k);
            if r.start(t) == StartedWebhook && FoundGone(s, r, k, t) then IsNowhere(e, t)
            else StartedAs(e, r.want, t, r.start(t), r.now, k.retryAfter)
  {
    AttemptedNowhere(s, r, k, t);
    assert t in Elements(r.order);
    StartAllIs(Ready(s, r, k), r.order, Attempted(s, r, k), r.want, r.start, r.now, k.retryAfter, t);
    BegunOk(s, r, k);
    CheckedIs(Begun(s, r, k), r, k, t);
  }

  lemma AttemptedNowhere(s: State, r: Round, k: Config, t: int)
    requires Consistent(s) && t in Attempted(s, r, k)
    ensures IsNowhere(Ready(s, r, k), t)
  {
    var h := Harvest(s, r.dead, r.now, k.retryAfter);
    HarvestOk(s, r.dead, r.now, k.retryAfter);
    RemovedOk(h, r.want);
  }

  lemma BegunOk(s: State, r: Round, k: Config)
    requires Consistent(s) && Lists(r.order, r.want)
    ensures Consistent(Begun(s, r, k)) && Begun(s, r, k).verified == s.verified
  {
    var h := Harvest(s, r.dead, r.now, k.retryAfter);
    HarvestOk(s, r.dead, r.now, k.retryAfter);
    RemovedOk(h, r.want);
    CooldownOk(Removed(h, r.want), r.want, r.now, k.retryAfter);
    StartAllOk(Ready(s, r, k), r.order, Attempted(s, r, k), r.want, r.start, r.now, k.retryAfter);
    StartAllVerified(Ready(s, r, k), r.order, Attempted(s, r, k), r.want, r.start, r.now, k.retryAfter);
  }

  lemma {:induction false} StartAllVerified(s: State, order: seq<int>, ids: set<int>, want: Wanted,
                                            start: int -> Start, now: int, retryAfter: nat)
    requires forall u | u in ids :: u in want
    ensures StartAll(s, order, ids, want, start, now, retryAfter).verified == s.verified
    decreases |order|
  {
    if order != [] { StartAllVerified(s, order[..|order| - 1], ids, want, start, now, retryAfter); }
  }

  // A target that is not attempted keeps a subscription that is alive, wanted and unchanged, and
  // loses any other; and it ends as failed exactly when it is still failed.
  lemma OthersEndAs(s: State, r: Round, k: Config, t: int)
    requires Consistent(s) && Lists(r.order, r.want) && t !in Attempted(s, r, k)
    ensures var e := Refresh(s, r, k);
            && (t in e.sse <==> t in s.sse && t !in r.dead && Unchanged(s, r, t))
            && (t in e.webhook <==> t in s.webhook && Unchanged(s, r, t) && !FoundGone(s, r, k, t))
            && (t in e.failed <==> StillFailed(s, r, k, t))
  {
    OthersStart(Ready(s, r, k), r.order, Attempted(s, r, k), r.want, r.start, r.now, k.retryAfter, t);
    BegunOk(s, r, k);
    CheckedIs(Begun(s, r, k), r, k, t);
    ReadyIs(s, r, k, t);
  }

  lemma HarvestIs(s: State, r: Round, k: Config, t: int)
    requires Consistent(s)
    ensures var h := Harvest(s, r.dead, r.now, k.retryAfter);
            && (t in h.sse <==> t in s.sse && t !in r.dead) && h.webhook == s.webhook && h.prints == s.prints
            && (t in h.failed <==> t in s.failed || (t in s.sse && t in r.dead))
            && (t in s.failed ==> h.failed[t] == s.failed[t])
            && (t in h.failed && t !in s.failed ==> h.failed[t] == RetryAt(r.now, k.retryAfter))
  {
  }

  lemma RemovedIs(h: State, want: Wanted, t: int)
    requires Consistent(h)
    ensures var m, kept := Removed(h, want), t in h.prints && t in want && h.prints[t] == want[t];
            && (t in m.sse <==> t in h.sse && kept) && (t in m.webhook <==> t in h.webhook && kept)
            && (t in m.failed <==> t in h.failed && !(t in h.prints && t in want && h.prints[t] != want[t]))
            && (t in m.failed ==> m.failed[t] == h.failed[t])
  {
  }

  lemma ReadyIs(s: State, r: Round, k: Config, t: int)
    requires Consistent(s)
    ensures var c := Ready(s, r, k);
            && (t in c.sse <==> t in s.sse && t !in r.dead && Unchanged(s, r, t))
            && (t in c.webhook <==> t in s.webhook && Unchanged(s, r, t))
            && (t in c.failed <==> StillFailed(s, r, k, t))
  {
    HarvestIs(s, r, k, t);
    HarvestOk(s, r.dead, r.now, k.retryAfter);
    RemovedIs(Harvest(s, r.dead, r.now, k.retryAfter), r.want, t);
  }

  function Run(s: State, rounds: seq<Round>, k: Config): State
    decreases |rounds|
  {
    if rounds == [] then s
    else Refresh(Run(s, rounds[..|rounds| - 1], k), rounds[|rounds| - 1], k)
  }

  ghost predicate AllListed(rounds: seq<Round>) {
    forall i | 0 <= i < |rounds| :: Lists(rounds[i].order, rounds[i].want)
  }

  // After any number of refreshes the bookkeeping is consistent and in step with the
  // targets the last one saw.
  lemma {:induction false} ConsistentForever(s: State, rounds: seq<Round>, k: Config)
    requires Consistent(s) && AllListed(rounds)
    ensures Consistent(Run(s, rounds, k))
    ensures rounds != [] ==> Synced(Run(s, rounds, k), rounds[|rounds| - 1].want)
    decreases |rounds|
  {
    if rounds != [] {
      var init, last := rounds[..|rounds| - 1], rounds[|rounds| - 1];
      ConsistentForever(s, init, k);
      RefreshOk(Run(s, init, k), last, k);
    }
  }

  // ---- When a permanently failed target is tried again ----

  // A target that had failed before the refresh is attempted again exactly when it is still
  // wanted and either its configuration differs from the one it last subscribed with, or
  // retries are enabled and its cooldown has passed.
  lemma RetriedIff(s: State, r: Round, k: Config, t: int)
    requires Consistent(s) && t in s.failed
    ensures t in Attempted(s, r, k)
            <==> && t in r.want
                 && (|| (t in s.prints && s.prints[t] != r.want[t])
                     || (k.retryAfter > 0 && s.failed[t].Some? && s.failed[t].value <= r.now))
  {
    var h := Harvest(s, r.dead, r.now, k.retryAfter);
    assert t in h.failed && h.failed[t] == s.failed[t] && t !in Subscribed(h);
    var c := AfterCooldown(Removed(h, r.want), r.now, k.retryAfter);
    assert t in Removed(h, r.want).failed <==> t !in Fixed(h, r.want);
  }

  ghost predicate Stuck(s: State, t: int) {
    t in s.failed && t !in s.prints && t !in Subscribed(s)
  }

  lemma {:induction false} StartAllSkips(s: State, order: seq<int>, ids: set<int>, want: Wanted, start: int -> Start,
                                         now: int, retryAfter: nat, t: int)
    requires (forall u | u in ids :: u in want) && t !in ids && Stuck(s, t)
    ensures Stuck(StartAll(s, order, ids, want, start, now, retryAfter), t)
    decreases |order|
  {
    if order != [] {
      StartAllSkips(s, order[..|order| - 1], ids, want, start, now, retryAfter, t);
    }
  }

  lemma {:induction false} StuckForever(s: State, rounds: seq<Round>, k: Config, t: int)
    requires k.retryAfter == 0 && Consistent(s) && Stuck(s, t)
    requires AllListed(rounds)
    ensures Consistent(Run(s, rounds, k)) && Stuck(Run(s, rounds, k), t)
    decreases |rounds|
  {
    if rounds != [] {
      var init, last := rounds[..|rounds| - 1], rounds[|rounds| - 1];
      StuckForever(s, init, k, t);
      ConsistentForever(s, rounds, k);
      NotRetried(Run(s, init, k), last, k, t);
    }
  }

  // With retries disabled, a target that failed permanently before it ever subscribed is
  // never tried again, in no refresh of any later run: not after a configuration change, and
  // not after it was disabled or removed and then wanted again, whatever the log announces.
  lemma NeverRetried(s: State, rounds: seq<Round>, k: Config, t: int)
    requires k.retryAfter == 0 && Consistent(s) && Stuck(s, t)
    requires AllListed(rounds)
    ensures forall i | 0 <= i < |rounds| :: t !in Attempted(Run(s, rounds[..i], k), rounds[i], k)
  {
    forall i | 0 <= i < |rounds|
      ensures t !in Attempted(Run(s, rounds[..i], k), rounds[i], k)
    {
      assert AllListed(rounds[..i]);
      StuckForever(s, rounds[..i], k, t);
      RetriedIff(Run(s, rounds[..i], k), rounds[i], k, t);
    }
  }

  // A refresh that wants these targets, whose starts all end in the same way.
  function Wants(want: Wanted, order: seq<int>, outcome: Start, now: int): Round {
    Round(want, order, {}, (_: int) => outcome, (_: int) => Alive, now, now)
  }

  // The first attempt of a fresh manager fails permanently, and the target is stuck.
  lemma FirstFailureSticks(t: int, fp: string, now: int, interval: nat)
    ensures var r := Wants(map[t := fp], [t], PermanentlyFailed, now);
            var k := Config(0, interval);
            && Lists(r.order, r.want) && t in Attempted(EMPTY, r, k)
            && Consistent(Refresh(EMPTY, r, k)) && Stuck(Refresh(EMPTY, r, k), t)
  {
    var r, k := Wants(map[t := fp], [t], PermanentlyFailed, now), Config(0, interval);
    RefreshOk(EMPTY, r, k);
    assert [t][..0] == [];
    var h := Harvest(EMPTY, {}, now, 0);
    assert h == EMPTY;
    var c := AfterCooldown(Removed(h, r.want), now, 0);
    assert c == EMPTY;
    var ids := ToStart(h, r.want, now, 0);
    assert t in ids;
    assert StartAll(c, [t], ids, r.want, r.start, now, 0) == StartOne(EMPTY, t, fp, PermanentlyFailed, now, 0);
  }

  lemma RunTwo(s: State, a: Round, b: Round, k: Config)
    ensures Run(s, [a, b], k) == Refresh(Refresh(s, a, k), b, k)
  {
    assert [a, b][..1] == [a] && [a][..0] == [];
    assert Run(s, [a], k) == Refresh(Run(s, [], k), a, k);
  }

  lemma NotAttemptedAfter(s: State, first: Round, gone: Round, again: Round, k: Config, t: int)
    requires k.retryAfter == 0 && Lists(gone.order, gone.want)
    requires Consistent(Refresh(s, first, k)) && Stuck(Refresh(s, first, k), t)
    ensures t !in Attempted(Run(s, [first, gone], k), again, k)
  {
    RunTwo(s, first, gone, k);
    RefreshOk(Refresh(s, first, k), gone, k);
    NotRetried(Refresh(s, first, k), gone, k, t);
    RetriedIff(Run(s, [first, gone], k), again, k, t);
  }

  // Then the target is removed, and added again with another configuration, and the refresh
  // that finds it again does not attempt it.
  lemma ReAddedNotAttempted(t: int, fp: string, fp': string, now: int, interval: nat)
    ensures var k := Config(0, interval);
            var rounds := [Wants(map[t := fp], [t], PermanentlyFailed, now), Wants(map[], [], StartedSse, now)];
            var again := Wants(map[t := fp'], [t], StartedSse, now);
            t in again.want && t !in Attempted(Run(EMPTY, rounds, k), again, k)
  {
    FirstFailureSticks(t, fp, now, interval);
    NotAttemptedAfter(EMPTY, Wants(map[t := fp], [t], PermanentlyFailed, now), Wants(map[], [], StartedSse, now),
                      Wants(map[t := fp'], [t], StartedSse, now), Config(0, interval), t);
  }

  lemma NotRetried(s: State, r: Round, k: Config, t: int)
    requires k.retryAfter == 0 && Consistent(s) && Stuck(s, t)
    ensures Stuck(Refresh(s, r, k), t)
  {
    var h := Harvest(s, r.dead, r.now, k.retryAfter);
    RetriedIff(s, r, k, t);
    var c := AfterCooldown(Removed(h, r.want), r.now, k.retryAfter);
    assert Stuck(c, t);
    StartAllSkips(c, r.order, ToStart(h, r.want, r.now, k.retryAfter), r.want, r.start, r.now, k.retryAfter, t);
  }

  // ---- The manager's own fields, updated in place ----

  lemma HarvestStep(was: State, all: set<int>, todo: set<int>, t: int, now: int, retryAfter: nat)
    requires t in todo && todo <= all && all <= was.sse
    ensures var s := Harvest(was, all - todo, now, retryAfter);
            Harvest(was, all - (todo - {t}), now, retryAfter)
            == s.(sse := s.sse - {t}, types := s.types - {t},
                  failed := if t in s.failed then s.failed else s.failed[t := RetryAt(now, retryAfter)])
  {
    assert was.sse * (all - (todo - {t})) == was.sse * (all - todo) + {t};
  }

  lemma ForgetMore(was: State, done: set<int>, t: int)
    ensures Forget(was, done + {t}) == Forget(Forget(was, done), {t})
  {
    assert was.sse - (done + {t}) == was.sse - done - {t};
    assert was.webhook - (done + {t}) == was.webhook - done - {t};
    assert was.types - (done + {t}) == was.types - done - {t};
    assert was.prints - (done + {t}) == was.prints - done - {t};
    assert was.failed - (done + {t}) == was.failed - done - {t};
  }

  lemma CheckedStep(was: State, done: set<int>, t: int, check: int -> Check, now: int)
    requires t !in done && t in was.webhook && t in was.verified
    ensures var s := Checked(was, done, check, now);
            Checked(was, done + {t}, check, now)
            == match check(t)
               case Alive => s.(verified := s.verified[t := now])
               case Gone => s.(webhook := s.webhook - {t}, types := s.types - {t}, prints := s.prints - {t},
                               verified := s.verified - {t})
               case Raised => s
  {
    GoneGrows(done, t, check);
  }

  lemma GoneGrows(done: set<int>, t: int, check: int -> Check)
    ensures GoneAmong(done + {t}, check)
            == if check(t) == Gone then GoneAmong(done, check) + {t} else GoneAmong(done, check)
  {
  }

  class SubscriptionManager {
    var sse: set<int>
    var webhook: set<int>
    var types: map<int, Kind>
    var prints: map<int, string>
    var failed: map<int, Option<int>>
    var verified: map<int, int>
    const config: Config

    ghost function View(): State
      reads this
    {
      State(sse, webhook, types, prints, failed, verified)
    }

    constructor (config: Config)
      ensures View() == EMPTY && Consistent(View()) && this.config == config
    {
      sse, webhook, types, prints, failed, verified := {}, {}, map[], map[], map[], map[];
      this.config := config;
    }

    // The whole refresh. Its effect is the function the theorems above are about, so the
    // bookkeeping stays consistent and in step with the wanted targets.
    method RefreshSubscriptions(r: Round)
      requires Consistent(View()) && Lists(r.order, r.want)
      modifies this
      ensures View() == Refresh(old(View()), r, config)
      ensures Consistent(View()) && Synced(View(), r.want)
    {
      HarvestFailed(r.dead, r.now);
      var adding := StopStale(r.want, r.now);
      StartSubscriptions(r, adding);
      VerifyWebhooks(r.check, r.mono);
      RefreshOk(old(View()), r, config);
    }

    // Stops what is no longer wanted or has changed, clears failures that were repaired or
    // whose cooldown has passed, and returns the ids to start.
    method StopStale(want: Wanted, now: int) returns (adding: set<int>)
      modifies this
      ensures View() == AfterCooldown(Removed(old(View()), want), now, config.retryAfter)
      ensures adding == ToStart(old(View()), want, now, config.retryAfter)
      ensures forall t | t in adding :: t in want
    {
      ghost var h := View();
      var current := sse + webhook;
      var changed := set t | t in current && t in want && !(t in prints && prints[t] == want[t]);
      assert current == Subscribed(h);
      assert forall t :: t in changed <==> t in Changed(h, want);
      var repaired := set t | t in failed && t in want && t in prints && prints[t] != want[t];
      assert repaired == Fixed(h, want);
      failed := failed - repaired;
      StopAll((current - want.Keys) + changed);
      assert View() == Removed(h, want);
      ClearDue(now);
      adding := ((want.Keys - current) + changed) - failed.Keys;
    }

    method ClearDue(now: int)
      modifies this`failed
      ensures View() == AfterCooldown(old(View()), now, config.retryAfter)
    {
      ghost var was := View();
      if config.retryAfter > 0 {
        var due := set t | t in failed && failed[t].Some? && failed[t].value <= now;
        assert due == Due(was, now, config.retryAfter);
        failed := failed - due;
      } else {
        assert Due(was, now, config.retryAfter) == {};
        assert failed - {} == failed;
      }
    }

    method HarvestFailed(dead: set<int>, now: int)
      modifies this
      ensures View() == Harvest(old(View()), dead, now, config.retryAfter)
    {
      ghost var was := View();
      ghost var all := sse * dead;
      var todo := sse * dead;
      assert View() == Harvest(was, all - todo, now, config.retryAfter);
      while todo != {}
        invariant todo <= all
        invariant View() == Harvest(was, all - todo, now, config.retryAfter)
      {
        ghost var some := Pick(todo);
        var t :| t in todo;
        ghost var left := todo;
        sse, types := sse - {t}, types - {t};
        if t !in failed {
          failed := failed[t := RetryAt(now, config.retryAfter)];
        }
        todo := todo - {t};
        HarvestStep(was, all, left, t, now, config.retryAfter);
      }
      assert was.sse * (all - todo) == was.sse * dead;
    }

    method StopAll(out: set<int>)
      modifies this
      ensures View() == Forget(old(View()), out)
    {
      ghost var was := View();
      var todo := out;
      assert View() == Forget(was, out - todo);
      while todo != {}
        invariant todo <= out
        invariant View() == Forget(was, out - todo)
      {
        ghost var some := Pick(todo);
        var t :| t in todo;
        ForgetMore(was, out - todo, t);
        assert out - (todo - {t}) == (out - todo) + {t};
        sse, webhook := sse - {t}, webhook - {t};
        types, prints, failed := types - {t}, prints - {t}, failed - {t};
        todo := todo - {t};
      }
      assert out - todo == out;
    }

    method StartSubscriptions(r: Round, adding: set<int>)
      requires forall t | t in adding :: t in r.want
      modifies this
      ensures View() == StartAll(old(View()), r.order, adding, r.want, r.start, r.now, config.retryAfter)
    {
      ghost var was := View();
      for i := 0 to |r.order|
        invariant View() == StartAll(was, r.order[..i], adding, r.want, r.start, r.now, config.retryAfter)
      {
        var t := r.order[i];
        assert r.order[..i + 1][..i] == r.order[..i];
        if t in adding {
          match r.start(t) {
            case Nothing =>
            case StartedSse => sse, types := sse + {t}, types[t := Sse];
            case StartedWebhook => webhook, types := webhook + {t}, types[t := Webhook];
            case PermanentlyFailed => failed := failed[t := RetryAt(r.now, config.retryAfter)];
          }
          if t in sse || t in webhook {
            prints := prints[t := r.want[t]];
          }
        }
      }
      assert r.order[..|r.order|] == r.order;
    }

    // Stamps webhooks seen for the first time; returns those due for a check.
    method SeedWebhooks(check: int -> Check, now: int) returns (due: set<int>)
      modifies this`verified
      ensures due == DueForCheck(old(View()), now, config.interval)
      ensures View() == Checked(old(View()), {}, check, now)
    {
      due := set t | t in webhook && t in verified && now - verified[t] >= config.interval;
      verified := map t | t in verified.Keys + webhook :: if t in verified then verified[t] else now;
      assert View() == Checked(old(View()), {}, check, now);
    }

    method VerifyWebhooks(check: int -> Check, now: int)
      modifies this
      ensures View() == Verify(old(View()), check, now, config.interval)
    {
      ghost var was := View();
      var due := SeedWebhooks(check, now);
      var todo := due;
      assert due - todo == {};
      while todo != {}
        invariant todo <= due
        invariant View() == Checked(was, due - todo, check, now)
      {
        ghost var some := Pick(todo);
        var t :| t in todo;
        CheckedStep(was, due - todo, t, check, now);
        assert due - (todo - {t}) == due - todo + {t};
        match check(t) {
          case Alive => verified := verified[t := now];
          case Gone =>
            webhook, types, prints, verified := webhook - {t}, types - {t}, prints - {t}, verified - {t};
          case Raised =>
        }
        todo := todo - {t};
      }
      assert due - todo == due;
    }
  }
}
