/** Settling the bets of an event that has just been completed with a result:
    a fold over the stored bets that drives every pending bet of the event
    through its own settling update, independently of the others. */
module Settlement {
  import opened Wrappers
  import Events
  import opened Bets
  import opened Notifications
  import opened BetLifecycle
  import opened Storage

  /** A bet the completion of event `eventId` must settle: one of its bets
      still pending. Canceled and already completed bets are left alone. */
  predicate Settleable(eventId: nat, b: Bet)
  {
    b.attrs.eventId == eventId && b.attrs.status == Some(Pending)
  }

  /** One bet's part in the settlement: a settleable bet whose settled form
      passes validation is updated and emits its update entries; a bet whose
      settled form fails validation is skipped, as is every other bet. */
  function SettleOne(events: map<nat, Events.EventAttrs>, userIds: set<nat>, eventId: nat, b: Bet): (Bet, Log)
  {
    if Settleable(eventId, b) && WellFormed(events.Keys, userIds, Complete(b).attrs) then
      (Complete(b), UpdateEntries(events, b.attrs, Complete(b)))
    else
      (b, [])
  }

  /** A bet's part in the settlement is the bet update the settling code
      performs on it: when its completed form is valid, updating the stored
      bet to completed gives the same store change and the same entries;
      when it is not, that update is refused and the settlement skips it. */
  lemma SettleOneIsASettlingUpdate(s: Store, log: Log, eventId: nat, i: nat)
    requires IdsIncreasing(s.bets) && i < |s.bets| && eventId in s.events
    requires Settleable(eventId, s.bets[i])
    ensures var (b, entries) := SettleOne(s.events, s.userIds, eventId, s.bets[i]);
            var r := UpdateBet(s, log, s.bets[i].id, Complete(s.bets[i]).attrs);
            if WellFormed(s.events.Keys, s.userIds, Complete(s.bets[i]).attrs)
            then r == Success(Step(s.(bets := s.bets[i := b]), log + entries))
            else r.Failure? && b == s.bets[i] && entries == []
  {
    IndexOfFindsUniqueId(s.bets, i);
  }

  /** The payouts a settlement owes, as an independent reference: one
      `(user, amount * odds)` per settleable, valid, winning bet, in store order. */
  function OwedPayouts(events: map<nat, Events.EventAttrs>, userIds: set<nat>, eventId: nat,
                       bets: seq<Bet>): seq<(nat, real)>
    requires eventId in events
  {
    if bets == [] then []
    else
      var b := bets[0];
      var owed := Settleable(eventId, b) && WellFormed(events.Keys, userIds, Complete(b).attrs)
                  && Won(b.attrs, events[eventId]);
      (if owed then [(b.attrs.userId, Winnings(b.attrs))] else [])
      + OwedPayouts(events, userIds, eventId, bets[1..])
  }

  /** The bets a settlement settles, as an independent reference: the
      completed form of each settleable bet whose completed form is valid,
      in store order. */
  function SettledBets(events: map<nat, Events.EventAttrs>, userIds: set<nat>, eventId: nat,
                       bets: seq<Bet>): seq<Bet>
  {
    if bets == [] then []
    else
      var b := bets[0];
      (if Settleable(eventId, b) && WellFormed(events.Keys, userIds, Complete(b).attrs) then [Complete(b)] else [])
      + SettledBets(events, userIds, eventId, bets[1..])
  }

  /** The fold: settles every bet of the list in order and collects the entries. */
  function SettleBets(events: map<nat, Events.EventAttrs>, userIds: set<nat>, eventId: nat,
                      bets: seq<Bet>): (r: (seq<Bet>, Log))
    requires eventId in events
    ensures |r.0| == |bets|
    ensures forall i :: 0 <= i < |bets| ==> r.0[i].id == bets[i].id
    ensures forall i :: 0 <= i < |bets| && !Settleable(eventId, bets[i]) ==> r.0[i] == bets[i]
    ensures forall i :: 0 <= i < |bets| && Settleable(eventId, bets[i]) ==>
              r.0[i] == if WellFormed(events.Keys, userIds, Complete(bets[i]).attrs)
                        then Complete(bets[i]) else bets[i]
    ensures PayoutsPaired(r.1)
    ensures forall k :: 0 <= k < |r.1| ==> BetUpdateEntry(r.1[k])
    decreases |bets|
  {
    if bets == [] then ([], [])
    else
      var (b, entries) := SettleOne(events, userIds, eventId, bets[0]);
      var (rest, more) := SettleBets(events, userIds, eventId, bets[1..]);
      PayoutsPairedAppend(entries, more);
      assert forall k :: |entries| <= k < |entries + more| ==> (entries + more)[k] == more[k - |entries|];
      var settled := [b] + rest;
      assert settled[0] == b;
      assert forall i :: 1 <= i < |bets| ==> settled[i] == rest[i - 1] && bets[i] == bets[1..][i - 1];
      (settled, entries + more)
  }

  /** One bet's part of the settlement submits exactly the payout owed for
      it: one when it is settleable, valid once completed, and won. */
  lemma SettleOnePaysWhatIsOwed(events: map<nat, Events.EventAttrs>, userIds: set<nat>, eventId: nat, c: Bet)
    requires eventId in events
    ensures Payouts(SettleOne(events, userIds, eventId, c).1)
              == if Settleable(eventId, c) && WellFormed(events.Keys, userIds, Complete(c).attrs)
                    && Won(c.attrs, events[eventId])
                 then [(c.attrs.userId, Winnings(c.attrs))] else []
  {
    var entries := SettleOne(events, userIds, eventId, c).1;
    if Settleable(eventId, c) && WellFormed(events.Keys, userIds, Complete(c).attrs) {
      assert entries == UpdateEntries(events, c.attrs, Complete(c));
      assert PaysOut(events, c.attrs, Complete(c).attrs) == Won(c.attrs, events[eventId]);
      assert Winnings(Complete(c).attrs) == Winnings(c.attrs);
    } else {
      assert entries == [];
    }
  }

  /** The payout jobs a settlement submits are exactly the payouts owed,
      one per settleable, valid, winning bet, in store order. */
  lemma {:induction false} SettlementPaysExactlyWhatIsOwed(events: map<nat, Events.EventAttrs>, userIds: set<nat>,
                                                           eventId: nat, bets: seq<Bet>)
    requires eventId in events
    ensures Payouts(SettleBets(events, userIds, eventId, bets).1) == OwedPayouts(events, userIds, eventId, bets)
  {
    if bets != [] {
      var entries := SettleOne(events, userIds, eventId, bets[0]).1;
      var more := SettleBets(events, userIds, eventId, bets[1..]).1;
      assert SettleBets(events, userIds, eventId, bets).1 == entries + more;
      SettlementPaysExactlyWhatIsOwed(events, userIds, eventId, bets[1..]);
      PayoutsAppend(entries, more);
      SettleOnePaysWhatIsOwed(events, userIds, eventId, bets[0]);
    }
  }

  /** Each bet's part of the settlement publishes a `bet_winning_updated`
      notice exactly for the payout job it submits, so the notices of a
      whole settlement list the same values as its payouts. */
  lemma {:induction false} SettlementNoticesMatchPayouts(events: map<nat, Events.EventAttrs>, userIds: set<nat>,
                                                         eventId: nat, bets: seq<Bet>)
    requires eventId in events
    ensures var log := SettleBets(events, userIds, eventId, bets).1;
            WinningNotices(log) == Payouts(log)
  {
    if bets != [] {
      var entries := SettleOne(events, userIds, eventId, bets[0]).1;
      var more := SettleBets(events, userIds, eventId, bets[1..]).1;
      assert SettleBets(events, userIds, eventId, bets).1 == entries + more;
      SettlementNoticesMatchPayouts(events, userIds, eventId, bets[1..]);
      PayoutsAppend(entries, more);
      WinningNoticesAppend(entries, more);
    }
  }

  /** The `bet_winning_updated` notices a settlement publishes are exactly
      the payouts owed: a losing, canceled or already settled bet gets none. */
  lemma SettlementNoticesExactlyWhatIsOwed(events: map<nat, Events.EventAttrs>, userIds: set<nat>,
                                           eventId: nat, bets: seq<Bet>)
    requires eventId in events
    ensures WinningNotices(SettleBets(events, userIds, eventId, bets).1) == OwedPayouts(events, userIds, eventId, bets)
  {
    SettlementNoticesMatchPayouts(events, userIds, eventId, bets);
    SettlementPaysExactlyWhatIsOwed(events, userIds, eventId, bets);
  }

  /** A settlement publishes one `bet_updated` per bet it settles, carrying
      the settled record, in store order, and none for any other bet. */
  lemma {:induction false} SettlementAnnouncesEachSettledBet(events: map<nat, Events.EventAttrs>, userIds: set<nat>,
                                                             eventId: nat, bets: seq<Bet>)
    requires eventId in events
    ensures UpdatedBets(SettleBets(events, userIds, eventId, bets).1) == SettledBets(events, userIds, eventId, bets)
  {
    if bets != [] {
      var c := bets[0];
      var entries := SettleOne(events, userIds, eventId, c).1;
      var more := SettleBets(events, userIds, eventId, bets[1..]).1;
      assert SettleBets(events, userIds, eventId, bets).1 == entries + more;
      SettlementAnnouncesEachSettledBet(events, userIds, eventId, bets[1..]);
      UpdatedBetsAppend(entries, more);
    }
  }

  /** When every bet is valid, no bet of the event is left pending. */
  lemma SettlementLeavesNothingPending(events: map<nat, Events.EventAttrs>, userIds: set<nat>,
                                       eventId: nat, bets: seq<Bet>)
    requires eventId in events
    requires forall i :: 0 <= i < |bets| ==> WellFormed(events.Keys, userIds, bets[i].attrs)
    ensures var settled := SettleBets(events, userIds, eventId, bets).0;
            forall i :: 0 <= i < |bets| ==>
              && !Settleable(eventId, settled[i])
              && (Settleable(eventId, bets[i]) ==> settled[i] == Complete(bets[i]))
  {
    var settled := SettleBets(events, userIds, eventId, bets).0;
    forall i | 0 <= i < |bets|
      ensures !Settleable(eventId, settled[i])
      ensures Settleable(eventId, bets[i]) ==> settled[i] == Complete(bets[i])
    {
      if Settleable(eventId, bets[i]) {
        assert WellFormed(events.Keys, userIds, Complete(bets[i]).attrs);
      }
    }
  }

  /** Settling twice settles nothing more: the second pass changes no bet and
      emits no entry, so no payout is ever submitted twice. */
  lemma {:induction false} SettlementIsIdempotent(events: map<nat, Events.EventAttrs>, userIds: set<nat>,
                                                  eventId: nat, bets: seq<Bet>)
    requires eventId in events
    ensures var once := SettleBets(events, userIds, eventId, bets).0;
            SettleBets(events, userIds, eventId, once) == (once, [])
  {
    if bets != [] {
      var once := SettleBets(events, userIds, eventId, bets).0;
      SettlementIsIdempotent(events, userIds, eventId, bets[1..]);
      assert once[1..] == SettleBets(events, userIds, eventId, bets[1..]).0;
      assert SettleOne(events, userIds, eventId, once[0]) == (once[0], []);
    }
  }
}
