/** Creating, updating and destroying a bet, with the notifications and the
    payout job each one emits. */
module BetLifecycle {
  import opened Wrappers
  import Events
  import opened Bets
  import opened Notifications
  import opened Storage

  /** An update that moves a bet into the settled status. */
  predicate SettlingTransition(before: BetAttrs, after: BetAttrs)
  {
    before.status != Some(Bets.Completed) && after.status == Some(Bets.Completed)
  }

  /** A settling update of a bet that won: it is the one that pays out. */
  predicate PaysOut(events: map<nat, Events.EventAttrs>, before: BetAttrs, after: BetAttrs)
    requires after.eventId in events
  {
    SettlingTransition(before, after) && Won(after, events[after.eventId])
  }

  /** The entries a successful bet update appends: `bet_updated` with the
      updated record; and, when the update settles a winning bet,
      `bet_winning_updated` with the user and the winnings followed by one
      payout job with the same two values. Any other update, including one
      that settles a losing bet, appends `bet_updated` alone. */
  function UpdateEntries(events: map<nat, Events.EventAttrs>, before: BetAttrs, after: Bet): (r: Log)
    requires after.attrs.eventId in events && after.attrs.amount.Some? && after.attrs.odds.Some?
    ensures |r| >= 1 && r[0] == Publish(BetUpdated, BetRecord(after))
    ensures PayoutsPaired(r)
    ensures PaysOut(events, before, after.attrs) ==>
              r[1..] == [Publish(BetWinningUpdated, Winning(after.attrs.userId, Winnings(after.attrs))),
                         PayoutJob(after.attrs.userId, Winnings(after.attrs))]
    ensures !PaysOut(events, before, after.attrs) ==> |r| == 1
    ensures Payouts(r) == if PaysOut(events, before, after.attrs)
                          then [(after.attrs.userId, Winnings(after.attrs))] else []
    ensures WinningNotices(r) == Payouts(r)
    ensures UpdatedBets(r) == [after]
    ensures forall k :: 0 <= k < |r| ==> BetUpdateEntry(r[k])
  {
    var updated := [Publish(BetUpdated, BetRecord(after))];
    assert UpdatedBets(updated) == [after] by {
      assert updated[1..] == [];
    }
    assert WinningNotices(updated) == [] by {
      assert updated[1..] == [];
    }
    if PaysOut(events, before, after.attrs) then
      var w := Winnings(after.attrs);
      var paid := [Publish(BetWinningUpdated, Winning(after.attrs.userId, w)), PayoutJob(after.attrs.userId, w)];
      assert paid[1..][1..] == [];
      assert Payouts(paid[1..]) == [(after.attrs.userId, w)];
      assert WinningNotices(paid[1..]) == [];
      assert WinningNotices(paid) == [(after.attrs.userId, w)];
      assert UpdatedBets(paid[1..]) == [];
      assert UpdatedBets(paid) == [];
      PayoutsAppend(updated, paid);
      WinningNoticesAppend(updated, paid);
      UpdatedBetsAppend(updated, paid);
      updated + paid
    else
      updated
  }

  /** Saving a new bet: validated, stored under the next id, announced with
      `bet_created` carrying the record. A refused save changes nothing. */
  function CreateBet(s: Store, log: Log, a: BetAttrs): (r: Result<Step, Failure>)
    ensures r.Success? <==> WellFormed(s.events.Keys, s.userIds, a)
    ensures r.Failure? ==> r.error.RecordInvalid? && r.error.errors != []
    ensures r.Success? ==>
              && r.value.log == log + [Publish(BetCreated, BetRecord(Bet(s.nextBetId, a)))]
              && r.value.store.bets == s.bets + [Bet(s.nextBetId, a)]
              && r.value.store == s.(bets := r.value.store.bets, nextBetId := s.nextBetId + 1)
  {
    var errors := Errors(s.events.Keys, s.userIds, a);
    if errors != [] then Failure(RecordInvalid(errors))
    else
      var b := Bet(s.nextBetId, a);
      Success(Step(s.(bets := s.bets + [b], nextBetId := s.nextBetId + 1),
                   log + [Publish(BetCreated, BetRecord(b))]))
  }

  /** A bet built without a status, with a positive stake and odds, by an
      existing user on an existing event, saves as pending and is announced. */
  lemma InitializedBetSaves(s: Store, log: Log, userId: nat, eventId: nat,
                            amount: real, odds: real, predictedOutcome: string)
    requires userId in s.userIds && eventId in s.events && amount > 0.0 && odds > 0.0
    ensures var a := Initialize(userId, eventId, Some(amount), Some(odds), predictedOutcome, None);
            var r := CreateBet(s, log, a);
            && r.Success?
            && r.value.store.bets == s.bets + [Bet(s.nextBetId, a)]
            && a.status == Some(Pending)
            && r.value.log == log + [Publish(BetCreated, BetRecord(Bet(s.nextBetId, a)))]
  {
  }

  /** Updating a stored bet's attributes. A missing id or an invalid result
      is refused with no change. Otherwise the bet is replaced in place and
      the log gains `bet_updated` with the new record, then — only if the
      update settles a winning bet — the winning notice and its payout job. */
  function UpdateBet(s: Store, log: Log, id: nat, a: BetAttrs): (r: Result<Step, Failure>)
    ensures r == Failure(RecordNotFound) <==> forall i :: 0 <= i < |s.bets| ==> s.bets[i].id != id
    ensures r.Failure? <==>
              (forall i :: 0 <= i < |s.bets| ==> s.bets[i].id != id) || !WellFormed(s.events.Keys, s.userIds, a)
    ensures r.Success? ==>
              && |log| < |r.value.log| && r.value.log[..|log|] == log
              && r.value.log[|log|] == Publish(BetUpdated, BetRecord(Bet(id, a)))
              && PayoutsPaired(r.value.log[|log|..])
              && r.value.store == s.(bets := r.value.store.bets)
              && |r.value.store.bets| == |s.bets|
    ensures r.Success? && IdsIncreasing(s.bets) ==>
              forall i :: 0 <= i < |s.bets| ==>
                r.value.store.bets[i] == if s.bets[i].id == id then Bet(id, a) else s.bets[i]
    ensures r.Success? && IdsIncreasing(s.bets) ==>
              forall i :: 0 <= i < |s.bets| && s.bets[i].id == id ==>
                a.eventId in s.events && a.amount.Some? && a.odds.Some? &&
                r.value.log == log + UpdateEntries(s.events, s.bets[i].attrs, Bet(id, a))
  {
    match IndexOf(s.bets, id)
    case None => Failure(RecordNotFound)
    case Some(k) =>
      var errors := Errors(s.events.Keys, s.userIds, a);
      if errors != [] then Failure(RecordInvalid(errors))
      else
        var b := Bet(id, a);
        var entries := UpdateEntries(s.events, s.bets[k].attrs, b);
        assert (log + entries)[|log|..] == entries;
        assert IdsIncreasing(s.bets) ==> forall i :: 0 <= i < |s.bets| && s.bets[i].id == id ==> i == k;
        Success(Step(s.(bets := s.bets[k := b]), log + entries))
  }

  /** Destroying a stored bet: removed from the store, announced with
      `bet_deleted` carrying only its id. */
  function DestroyBet(s: Store, log: Log, id: nat): (r: Result<Step, Failure>)
    ensures r.Failure? <==> forall i :: 0 <= i < |s.bets| ==> s.bets[i].id != id
    ensures r.Failure? ==> r.error == RecordNotFound
    ensures r.Success? ==>
              && r.value.log == log + [Publish(BetDeleted, IdOnly(id))]
              && r.value.store == s.(bets := r.value.store.bets)
              && |r.value.store.bets| + 1 == |s.bets|
              && (forall b :: b in r.value.store.bets ==> b in s.bets)
    ensures r.Success? && IdsIncreasing(s.bets) ==>
              forall b :: b in r.value.store.bets <==> b in s.bets && b.id != id
  {
    match IndexOf(s.bets, id)
    case None => Failure(RecordNotFound)
    case Some(k) =>
      var rest := s.bets[..k] + s.bets[k + 1..];
      assert forall b :: b in rest ==> b in s.bets;
      assert forall j :: 0 <= j < |s.bets| && j != k ==> s.bets[j] in rest by {
        forall j | 0 <= j < |s.bets| && j != k ensures s.bets[j] in rest {
          if j < k { assert rest[j] == s.bets[j]; } else { assert rest[j - 1] == s.bets[j]; }
        }
      }
      Success(Step(s.(bets := rest), log + [Publish(BetDeleted, IdOnly(id))]))
  }

  /** Completing a pending or canceled bet that won stores it as completed and
      appends exactly `bet_updated`, then `bet_winning_updated` with the user
      and `amount * odds`, then one payout job with the same two values. */
  lemma WinningSettlementPaysOnce(s: Store, log: Log, i: nat)
    requires Inv(s) && i < |s.bets|
    requires s.bets[i].attrs.status != Some(Bets.Completed)
    requires Won(s.bets[i].attrs, s.events[s.bets[i].attrs.eventId])
    ensures UpdateBet(s, log, s.bets[i].id, Complete(s.bets[i]).attrs)
              == Success(Step(s.(bets := s.bets[i := Complete(s.bets[i])]),
                              log + ([Publish(BetUpdated, BetRecord(Complete(s.bets[i])))]
                                     + [Publish(BetWinningUpdated, Winning(s.bets[i].attrs.userId, s.bets[i].attrs.amount.value * s.bets[i].attrs.odds.value)),
                                        PayoutJob(s.bets[i].attrs.userId, s.bets[i].attrs.amount.value * s.bets[i].attrs.odds.value)])))
  {
    IndexOfFindsUniqueId(s.bets, i);
    var b := Complete(s.bets[i]);
    assert WellFormed(s.events.Keys, s.userIds, b.attrs);
    assert PaysOut(s.events, s.bets[i].attrs, b.attrs);
    var entries := UpdateEntries(s.events, s.bets[i].attrs, b);
    var w := s.bets[i].attrs.amount.value * s.bets[i].attrs.odds.value;
    assert Winnings(b.attrs) == w;
    assert Errors(s.events.Keys, s.userIds, b.attrs) == [];
    assert UpdateBet(s, log, b.id, b.attrs) == Success(Step(s.(bets := s.bets[i := b]), log + entries));
    assert entries == [Publish(BetUpdated, BetRecord(b))]
                      + [Publish(BetWinningUpdated, Winning(b.attrs.userId, w)), PayoutJob(b.attrs.userId, w)];
  }

  /** Completing a bet that lost appends `bet_updated` alone: no winning
      notice and no payout job. */
  lemma LosingSettlementPaysNothing(s: Store, log: Log, i: nat)
    requires Inv(s) && i < |s.bets|
    requires !Won(s.bets[i].attrs, s.events[s.bets[i].attrs.eventId])
    ensures UpdateBet(s, log, s.bets[i].id, Complete(s.bets[i]).attrs)
              == Success(Step(s.(bets := s.bets[i := Complete(s.bets[i])]),
                              log + [Publish(BetUpdated, BetRecord(Complete(s.bets[i])))]))
  {
    IndexOfFindsUniqueId(s.bets, i);
  }
}
