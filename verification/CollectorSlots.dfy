/** Stable ordinals for collector processes (collector/src/database/repository.py,
    collector-slot functions; collector/src/shard_manager.py, slot renewal).

    The table maps an ordinal to the token of the process holding it. A token is unique
    in the table, as the schema's unique column demands. */
module CollectorSlots {
  import opened Common

  type Token = string
  datatype Slot = Slot(token: Token, renewed: int)
  type Slots = map<nat, Slot>

  // Rows renewed before this are stale.
  function StaleBefore(now: int, ttl: nat): int {
    now - ttl
  }

  // DELETE ... WHERE updated_at < cut
  function Reaped(s: Slots, cut: int): Slots {
    map o | o in s && s[o].renewed >= cut :: s[o]
  }

  ghost predicate UniqueTokens(s: Slots) {
    forall o, p | o in s && p in s && s[o].token == s[p].token :: o == p
  }

  predicate Holds(s: Slots, o: nat, token: Token) {
    o in s && s[o].token == token
  }

  predicate HoldsAny(s: Slots, token: Token) {
    exists o :: o in s && s[o].token == token
  }

  function OrdinalOf(s: Slots, token: Token): (o: nat)
    requires UniqueTokens(s) && HoldsAny(s, token)
    ensures Holds(s, o, token)
  {
    var o :| o in s && s[o].token == token;
    o
  }

  predicate IsLeastFree(s: Slots, o: nat) {
    o !in s && forall k: nat | k < o :: k in s
  }

  function FromOn(taken: set<nat>, o: nat): set<nat> {
    set k | k in taken && k >= o
  }

  lemma OneFewer(taken: set<nat>, o: nat)
    requires o in taken
    ensures |FromOn(taken, o + 1)| < |FromOn(taken, o)|
  {
    assert FromOn(taken, o + 1) == FromOn(taken, o) - {o};
  }

  function LeastFreeFrom(s: Slots, o: nat): (r: nat)
    requires forall k: nat | k < o :: k in s
    ensures IsLeastFree(s, r)
    decreases |FromOn(s.Keys, o)|
  {
    if o in s then
      OneFewer(s.Keys, o);
      LeastFreeFrom(s, o + 1)
    else o
  }

  lemma LeastFreeUnique(s: Slots, o: nat, p: nat)
    requires IsLeastFree(s, o) && IsLeastFree(s, p)
    ensures o == p
  {
  }

  method LowestFree(taken: set<nat>) returns (ordinal: nat)
    ensures ordinal !in taken && forall k: nat | k < ordinal :: k in taken
  {
    ordinal := 0;
    while ordinal in taken
      invariant forall k: nat | k < ordinal :: k in taken
      decreases |FromOn(taken, ordinal)|
    {
      OneFewer(taken, ordinal);
      ordinal := ordinal + 1;
    }
  }

  // The ordinal a claim hands out: the token's own if it still has one, else the lowest free.
  function ClaimOrdinal(s: Slots, token: Token): (o: nat)
    requires UniqueTokens(s)
    ensures if HoldsAny(s, token) then Holds(s, o, token) else IsLeastFree(s, o)
  {
    if HoldsAny(s, token) then OrdinalOf(s, token) else LeastFreeFrom(s, 0)
  }

  function AfterClaim(s: Slots, token: Token, now: int, cut: int): Slots
    requires UniqueTokens(s)
  {
    var r := Reaped(s, cut);
    r[ClaimOrdinal(r, token) := Slot(token, now)]
  }

  // True and False of renew_collector_slot, and the database refusing a second row for
  // the same token (the transaction is rolled back and the caller carries on).
  datatype Renewal = Held | Lost | Raised

  function RenewOutcome(s: Slots, token: Token, o: nat, cut: int): Renewal {
    var r := Reaped(s, cut);
    if o in r then (if r[o].token == token then Held else Lost)
    else if HoldsAny(r, token) then Raised
    else Held
  }

  function AfterRenew(s: Slots, token: Token, o: nat, now: int, cut: int): Slots {
    match RenewOutcome(s, token, o, cut)
    case Held => Reaped(s, cut)[o := Slot(token, now)]
    case Lost => Reaped(s, cut)
    case Raised => s
  }

  function AfterRelease(s: Slots, token: Token): Slots {
    map o | o in s && s[o].token != token :: s[o]
  }

  // ---- Processes and what they believe ----

  // A process that has claimed or renewed remembers its ordinal and when it last did.
  datatype Belief = Belief(ordinal: nat, at: int)

  datatype World = World(slots: Slots, beliefs: map<Token, Belief>, clock: int)

  datatype Event =
    | Claim(token: Token, now: int)
    | Renew(token: Token, ordinal: nat, now: int)
    | Release(token: Token)
    | Crash(token: Token)

  function Apply(w: World, e: Event, ttl: nat): World
    requires UniqueTokens(w.slots)
  {
    match e
    case Claim(token, now) =>
      var o := ClaimOrdinal(Reaped(w.slots, StaleBefore(now, ttl)), token);
      World(AfterClaim(w.slots, token, now, StaleBefore(now, ttl)), w.beliefs[token := Belief(o, now)], now)
    case Renew(token, o, now) =>
      var slots := AfterRenew(w.slots, token, o, now, StaleBefore(now, ttl));
      (match RenewOutcome(w.slots, token, o, StaleBefore(now, ttl))
       case Held => World(slots, w.beliefs[token := Belief(o, now)], now)
       case Lost => World(slots, w.beliefs - {token}, now)
       case Raised => World(slots, w.beliefs, now))
    case Release(token) => World(AfterRelease(w.slots, token), w.beliefs - {token}, w.clock)
    case Crash(token) => w.(beliefs := w.beliefs - {token})
  }

  // A belief no older than the TTL is backed by the row of its ordinal.
  ghost predicate Backed(w: World, ttl: nat, token: Token) {
    token in w.beliefs && w.beliefs[token].at >= StaleBefore(w.clock, ttl) ==>
      var b := w.beliefs[token];
      b.ordinal in w.slots && w.slots[b.ordinal] == Slot(token, b.at)
  }

  ghost predicate Inv(w: World, ttl: nat) {
    UniqueTokens(w.slots) && forall token | token in w.beliefs :: Backed(w, ttl, token)
  }

  predicate InOrder(w: World, e: Event) {
    e.Claim? || e.Renew? ==> w.clock <= e.now
  }

  lemma UniqueAfter(w: World, e: Event, ttl: nat)
    requires UniqueTokens(w.slots)
    ensures UniqueTokens(Apply(w, e, ttl).slots)
  {
  }

  lemma InvStep(w: World, e: Event, ttl: nat)
    requires Inv(w, ttl) && InOrder(w, e)
    ensures Inv(Apply(w, e, ttl), ttl)
  {
    UniqueAfter(w, e, ttl);
    var w' := Apply(w, e, ttl);
    forall token | token in w'.beliefs
      ensures Backed(w', ttl, token)
    {
      if token in w.beliefs { assert Backed(w, ttl, token); }
    }
  }

  ghost predicate ValidRun(w: World, events: seq<Event>, ttl: nat)
    requires UniqueTokens(w.slots)
    decreases |events|
  {
    events != [] ==>
    InOrder(w, events[0]) && (UniqueAfter(w, events[0], ttl); ValidRun(Apply(w, events[0], ttl), events[1..], ttl))
  }

  function Run(w: World, events: seq<Event>, ttl: nat): World
    requires UniqueTokens(w.slots)
    decreases |events|
  {
    if events == [] then w
    else
      UniqueAfter(w, events[0], ttl);
      Run(Apply(w, events[0], ttl), events[1..], ttl)
  }

  // A run goes on from where its first part ended.
  lemma {:induction false} RunExtends(w: World, events: seq<Event>, e: Event, ttl: nat)
    requires UniqueTokens(w.slots)
    ensures UniqueTokens(Run(w, events, ttl).slots)
    ensures Run(w, events + [e], ttl) == Apply(Run(w, events, ttl), e, ttl)
    decreases |events|
  {
    if events == [] {
      assert [] + [e] == [e] && [e][1..] == [];
      UniqueAfter(w, e, ttl);
    } else {
      UniqueAfter(w, events[0], ttl);
      assert (events + [e])[1..] == events[1..] + [e] && (events + [e])[0] == events[0];
      RunExtends(Apply(w, events[0], ttl), events[1..], e, ttl);
    }
  }

  // A release frees the process's ordinal for the next claim, and touches no other row.
  lemma ReleaseFrees(w: World, token: Token, ttl: nat, o: nat)
    requires UniqueTokens(w.slots)
    ensures var r := Apply(w, Release(token), ttl);
            && token !in r.beliefs
            && (o in r.slots <==> o in w.slots && w.slots[o].token != token)
            && (o in r.slots ==> r.slots[o] == w.slots[o])
  {
  }

  lemma {:induction false} InvRun(w: World, events: seq<Event>, ttl: nat)
    requires Inv(w, ttl) && ValidRun(w, events, ttl)
    ensures Inv(Run(w, events, ttl), ttl) && w.clock <= Run(w, events, ttl).clock
    decreases |events|
  {
    if events != [] {
      InvStep(w, events[0], ttl);
      InvRun(Apply(w, events[0], ttl), events[1..], ttl);
    }
  }

  function Empty(start: int): World {
    World(map[], map[], start)
  }

  // At time now, the process last claimed or renewed within the TTL and has not left.
  predicate Current(w: World, ttl: nat, now: int, p: Token) {
    w.clock <= now && p in w.beliefs && now - w.beliefs[p].at <= ttl
  }

  // Mutual exclusion over every run from an empty table: no two current processes share
  // an ordinal.
  lemma MutualExclusion(events: seq<Event>, ttl: nat, start: int, now: int, p: Token, q: Token)
    requires ValidRun(Empty(start), events, ttl)
    ensures var w := Run(Empty(start), events, ttl);
            Current(w, ttl, now, p) && Current(w, ttl, now, q) && p != q ==>
              w.beliefs[p].ordinal != w.beliefs[q].ordinal
  {
    var w := Run(Empty(start), events, ttl);
    InvRun(Empty(start), events, ttl);
    assert Backed(w, ttl, p) && Backed(w, ttl, q);
  }

  // A process that renews its ordinal within the TTL is never told that it lost it.
  lemma TimelyRenewalHolds(w: World, ttl: nat, token: Token, now: int)
    requires Inv(w, ttl) && Current(w, ttl, now, token)
    ensures RenewOutcome(w.slots, token, w.beliefs[token].ordinal, StaleBefore(now, ttl)) == Held
  {
    assert Backed(w, ttl, token);
  }

  // The TTL, written out: a claim leaves every row that was renewed at most a TTL ago where it
  // is, except its own, and removes every older one, except where it settles itself.
  lemma ClaimKeepsFresh(s: Slots, token: Token, now: int, ttl: nat, o: nat)
    requires UniqueTokens(s) && o in s && s[o].token != token
    ensures var r := AfterClaim(s, token, now, StaleBefore(now, ttl));
            if s[o].renewed >= now - ttl then o in r && r[o] == s[o]
            else o !in r || r[o] == Slot(token, now)
  {
  }

  // The claimed row is the caller's, as of now, and every other row was there before.
  lemma ClaimTakesOne(s: Slots, token: Token, now: int, ttl: nat)
    requires UniqueTokens(s)
    ensures var o := ClaimOrdinal(Reaped(s, StaleBefore(now, ttl)), token);
            var r := AfterClaim(s, token, now, StaleBefore(now, ttl));
            && o in r && r[o] == Slot(token, now)
            && (forall p | p in r && p != o :: p in s && r[p] == s[p] && s[p].token != token)
            && (forall p | p in s && s[p].token == token && s[p].renewed >= now - ttl :: p == o)
            && (forall p: nat | p < o && (forall q | q in s && s[q].token == token :: s[q].renewed < now - ttl) ::
                  p in s && s[p].renewed >= now - ttl)
  {
  }

  // The same of a renewal that is not refused; and it holds unless a peer's row on the ordinal
  // was renewed at most a TTL ago.
  lemma RenewKeepsFresh(s: Slots, token: Token, mine: nat, now: int, ttl: nat, o: nat)
    requires RenewOutcome(s, token, mine, StaleBefore(now, ttl)) != Raised
    requires o in s && s[o].token != token
    ensures var r := AfterRenew(s, token, mine, now, StaleBefore(now, ttl));
            if s[o].renewed >= now - ttl then o in r && r[o] == s[o]
            else o !in r || (o == mine && r[o] == Slot(token, now))
  {
  }

  lemma RenewOutcomeIs(s: Slots, token: Token, mine: nat, now: int, ttl: nat)
    ensures var outcome := RenewOutcome(s, token, mine, StaleBefore(now, ttl));
            && (outcome == Lost <==> mine in s && s[mine].token != token && s[mine].renewed >= now - ttl)
            && (outcome == Raised <==> (mine !in s || s[mine].renewed < now - ttl)
                                       && exists o :: o in s && s[o].token == token && s[o].renewed >= now - ttl)
            && (outcome == Held ==> var r := AfterRenew(s, token, mine, now, StaleBefore(now, ttl));
                                    mine in r && r[mine] == Slot(token, now))
            && (outcome == Raised ==> AfterRenew(s, token, mine, now, StaleBefore(now, ttl)) == s)
  {
    var cut := StaleBefore(now, ttl);
    if HoldsAny(Reaped(s, cut), token) {
      var o :| o in Reaped(s, cut) && Reaped(s, cut)[o].token == token;
      assert o in s && s[o].token == token && s[o].renewed >= now - ttl;
    }
    if o :| o in s && s[o].token == token && s[o].renewed >= now - ttl {
      assert o in Reaped(s, cut) && Reaped(s, cut)[o].token == token;
    }
  }

  // Identity loss is reported exactly when a peer holds the ordinal with a fresh row.
  lemma LostIffPeerFresh(s: Slots, token: Token, o: nat, cut: int)
    ensures RenewOutcome(s, token, o, cut) == Lost <==> o in s && s[o].token != token && s[o].renewed >= cut
  {
  }

  // ---- The repository's table ----

  class SlotTable {
    var slots: Slots

    constructor ()
      ensures slots == map[]
    {
      slots := map[];
    }

    method ClaimCollectorSlot(token: Token, now: int, ttl: nat) returns (ordinal: nat)
      requires UniqueTokens(slots)
      modifies this
      ensures UniqueTokens(slots)
      ensures ordinal == ClaimOrdinal(Reaped(old(slots), StaleBefore(now, ttl)), token)
      ensures slots == AfterClaim(old(slots), token, now, StaleBefore(now, ttl))
    {
      slots := Reaped(slots, StaleBefore(now, ttl));
      if HoldsAny(slots, token) {
        ordinal := OrdinalOf(slots, token);
        slots := slots[ordinal := Slot(token, now)];
        return;
      }
      ordinal := LowestFree(slots.Keys);
      LeastFreeUnique(slots, ordinal, LeastFreeFrom(slots, 0));
      slots := slots[ordinal := Slot(token, now)];
    }

    // None stands for the exception of the unique-token column.
    method RenewCollectorSlot(token: Token, ordinal: nat, now: int, ttl: nat) returns (held: Option<bool>)
      requires UniqueTokens(slots)
      modifies this
      ensures UniqueTokens(slots)
      ensures slots == AfterRenew(old(slots), token, ordinal, now, StaleBefore(now, ttl))
      ensures held == match RenewOutcome(old(slots), token, ordinal, StaleBefore(now, ttl))
                      case Held => Some(true)
                      case Lost => Some(false)
                      case Raised => None
    {
      var before := slots;
      slots := Reaped(slots, StaleBefore(now, ttl));
      if ordinal !in slots {
        if HoldsAny(slots, token) {
          slots := before;
          return None;
        }
        slots := slots[ordinal := Slot(token, now)];
        return Some(true);
      }
      if slots[ordinal].token == token {
        slots := slots[ordinal := Slot(token, now)];
        return Some(true);
      }
      return Some(false);
    }

    method ReleaseCollectorSlot(token: Token)
      modifies this
      ensures slots == AfterRelease(old(slots), token)
      ensures !HoldsAny(slots, token)
    {
      slots := AfterRelease(slots, token);
    }
  }
}
