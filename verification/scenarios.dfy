/** The concrete situations the model specs set up, replayed on the model. */
module Scenarios {
  import opened Wrappers
  import Validation
  import opened Events
  import opened Bets
  import opened Notifications
  import opened Storage
  import opened BetLifecycle
  import opened Settlement
  import opened EventLifecycle

  /** An ongoing event with no result yet. */
  function OngoingEvent(): EventAttrs
  {
    EventAttrs(Some("Final"), Some(0), Some(1.5), Some(Ongoing), None)
  }

  /** A pending stake of 100 at odds 2.5 by user 7 predicting "win" on event 0. */
  function PendingWinBet(): Bet
  {
    Bet(0, BetAttrs(7, 0, Some(100.0), Some(2.5), "win", Some(Pending)))
  }

  /** One ongoing event (id 0) holding that pending bet. */
  function OneBetStore(): Store
  {
    Store(StubbedOutcomeLabels, {7}, map[0 := OngoingEvent()], [PendingWinBet()], 1, 1)
  }

  /** The store the scenario starts from is consistent. */
  lemma OneBetStoreIsConsistent()
    ensures Inv(OneBetStore())
  {
    assert !Validation.IsBlank("Final") by {
      assert !Validation.IsSpace("Final"[0]);
    }
  }

  /** The event once completed with the result "win". */
  function CompletedWithWin(): EventAttrs
  {
    OngoingEvent().(status := Some(Events.Completed), result := Some("win"))
  }

  /** Settling the one-bet store against the completed event completes the
      bet and pays user 7 exactly 250, after the bet's own notices. */
  lemma SettlingTheWinningBet()
    ensures SettleBets(map[0 := CompletedWithWin()], {7}, 0, [PendingWinBet()])
              == ([Complete(PendingWinBet())],
                  [Publish(BetUpdated, BetRecord(Complete(PendingWinBet()))),
                   Publish(BetWinningUpdated, Winning(7, 250.0)),
                   PayoutJob(7, 250.0)])
  {
    var events := map[0 := CompletedWithWin()];
    var bet := PendingWinBet();
    var settled := Complete(bet);
    assert Bets.WellFormed(events.Keys, {7}, settled.attrs);
    assert PaysOut(events, bet.attrs, settled.attrs);
    var entries := UpdateEntries(events, bet.attrs, settled);
    assert Winnings(settled.attrs) == 250.0;
    assert entries == [entries[0]] + entries[1..];
    assert entries == [Publish(BetUpdated, BetRecord(settled)),
                       Publish(BetWinningUpdated, Winning(7, 250.0)),
                       PayoutJob(7, 250.0)];
    assert SettleOne(events, {7}, 0, bet) == (settled, entries);
    assert [bet][1..] == [];
    assert SettleBets(events, {7}, 0, []) == ([], []);
    assert [settled] + [] == [settled] && entries + [] == entries;
  }

  /** Completing the event with the result "win" settles the bet as
      completed and pays user 7 exactly 250 once. */
  lemma CompletingWithWinPaysTheWinner(s: Store, a: EventAttrs)
    requires s == OneBetStore() && a == CompletedWithWin()
    ensures var r := UpdateEvent(s, [], 0, a);
            && r.Success?
            && r.value.store.bets == [Complete(PendingWinBet())]
            && r.value.log == [Publish(EventUpdated, EventRecord(Event(0, a)))]
                              + [Publish(BetUpdated, BetRecord(Complete(PendingWinBet()))),
                                 Publish(BetWinningUpdated, Winning(7, 250.0)),
                                 PayoutJob(7, 250.0)]
  {
    assert !Validation.IsBlank("Final") by {
      assert !Validation.IsSpace("Final"[0]);
    }
    assert Events.WellFormed(s.labels, a);
    assert s.events[0 := a] == map[0 := CompletedWithWin()];
    SettlingTheWinningBet();
    CompletingUpdateRunsSettlement(s, [], 0, a);
    assert [] + [Publish(EventUpdated, EventRecord(Event(0, a)))] == [Publish(EventUpdated, EventRecord(Event(0, a)))];
  }

  /** Setting the result "win" on the ongoing event alone is refused. */
  lemma ResultOnOngoingEventIsRefused()
    ensures UpdateEvent(OneBetStore(), [], 0, OngoingEvent().(result := Some("win"))).Failure?
  {
    ResultOnlyUpdateOfOngoingEventIsRejected(OneBetStore(), [], 0, "win");
  }

  /** A bet saved with the status "won" is refused: that status is not one a
      bet may have. */
  lemma BetWithWonStatusIsRefused()
    ensures CreateBet(OneBetStore(), [], PendingWinBet().attrs.(status := Some("won"))).Failure?
  {
  }

  /** Destroying an event with two bets announces both bets' deletions, by
      id only, and then the event's. */
  lemma DestroyingAnEventWithTwoBets()
    ensures var s := OneBetStore().(bets := [PendingWinBet(), Bet(1, PendingWinBet().attrs)], nextBetId := 2);
            var r := DestroyEvent(s, [], 0);
            && r.Success?
            && r.value.store.bets == []
            && r.value.log == [Publish(BetDeleted, IdOnly(0)), Publish(BetDeleted, IdOnly(1)),
                               Publish(EventDeleted, IdOnly(0))]
  {
    var bets := [PendingWinBet(), Bet(1, PendingWinBet().attrs)];
    assert bets[1..][1..] == [];
    assert CascadeDestroy(0, bets[1..][1..]) == ([], []);
    assert [Publish(BetDeleted, IdOnly(1))] + [] == [Publish(BetDeleted, IdOnly(1))];
    assert CascadeDestroy(0, bets[1..]) == ([], [Publish(BetDeleted, IdOnly(1))]);
    assert [Publish(BetDeleted, IdOnly(0))] + [Publish(BetDeleted, IdOnly(1))]
           == [Publish(BetDeleted, IdOnly(0)), Publish(BetDeleted, IdOnly(1))];
    assert bets[0].attrs.eventId == 0;
    assert CascadeDestroy(0, bets) == ([], [Publish(BetDeleted, IdOnly(0)), Publish(BetDeleted, IdOnly(1))]);
  }
}
