/** Creating, updating and destroying an event: validation, the change to the
    store, the lifecycle notification, the settlement of the event's bets on
    completion, and the cascade to its bets on destroy. */
module EventLifecycle {
  import opened Wrappers
  import opened Validation
  import opened Events
  import Bets
  import opened Notifications
  import opened Storage
  import opened Settlement

  /** An update that lands the event in `completed` with a result set
      triggers settlement of its bets. */
  predicate CompletesWithResult(a: EventAttrs)
  {
    IsCompleted(a) && a.result.Some?
  }

  /** Saving a new event: validated against the current outcome labels,
      stored under the next id, announced with `event_created` carrying the
      record. A refused save changes nothing. */
  function CreateEvent(s: Store, log: Log, a: EventAttrs): (r: Result<Step, Failure>)
    ensures r.Success? <==> WellFormed(s.labels, a)
    ensures r.Failure? ==> r.error.RecordInvalid? && r.error.errors != []
    ensures r.Success? ==>
              && r.value.log == log + [Publish(EventCreated, EventRecord(Event(s.nextEventId, a)))]
              && r.value.store.events == s.events[s.nextEventId := a]
              && r.value.store == s.(events := r.value.store.events, nextEventId := s.nextEventId + 1)
  {
    var errors := Errors(s.labels, a);
    if errors != [] then Failure(RecordInvalid(errors))
    else
      Success(Step(s.(events := s.events[s.nextEventId := a], nextEventId := s.nextEventId + 1),
                   log + [Publish(EventCreated, EventRecord(Event(s.nextEventId, a)))]))
  }

  /** Updating a stored event's attributes. A missing id or an invalid result
      is refused with no change. Otherwise the event is replaced, the log
      gains `event_updated` with the new record, and, when the event now
      stands completed with a result, the settlement of its bets follows:
      every other bet is untouched and the payouts submitted are exactly the
      ones owed, each right after its winning notice. */
  function UpdateEvent(s: Store, log: Log, id: nat, a: EventAttrs): (r: Result<Step, Failure>)
    ensures r == Failure(RecordNotFound) <==> id !in s.events
    ensures r.Failure? <==> id !in s.events || !WellFormed(s.labels, a)
    ensures r.Success? ==>
              && r.value.store.events == s.events[id := a]
              && r.value.store == s.(events := r.value.store.events, bets := r.value.store.bets)
              && |log| < |r.value.log| && r.value.log[..|log|] == log
              && r.value.log[|log|] == Publish(EventUpdated, EventRecord(Event(id, a)))
              && PayoutsPaired(r.value.log[|log| + 1..])
              && |r.value.store.bets| == |s.bets|
              && (forall i :: 0 <= i < |s.bets| && !Settleable(id, s.bets[i]) ==>
                    r.value.store.bets[i] == s.bets[i])
    ensures r.Success? && !CompletesWithResult(a) ==>
              r.value.store.bets == s.bets && r.value.log == log + [Publish(EventUpdated, EventRecord(Event(id, a)))]
    ensures r.Success? && CompletesWithResult(a) ==>
              Payouts(r.value.log[|log| + 1..]) == OwedPayouts(s.events[id := a], s.userIds, id, s.bets)
  {
    if id !in s.events then Failure(RecordNotFound)
    else
      var errors := Errors(s.labels, a);
      if errors != [] then Failure(RecordInvalid(errors))
      else
        var events := s.events[id := a];
        var updated := log + [Publish(EventUpdated, EventRecord(Event(id, a)))];
        assert updated[..|log|] == log && updated[|log|] == Publish(EventUpdated, EventRecord(Event(id, a)));
        if CompletesWithResult(a) then
          var (bets, entries) := SettleBets(events, s.userIds, id, s.bets);
          SettlementPaysExactlyWhatIsOwed(events, s.userIds, id, s.bets);
          var log' := updated + entries;
          assert log'[|log| + 1..] == entries;
          assert log'[..|log|] == log;
          assert log'[|log|] == updated[|log|];
          assert forall i :: 0 <= i < |s.bets| && !Settleable(id, s.bets[i]) ==> bets[i] == s.bets[i];
          Success(Step(s.(events := events, bets := bets), log'))
        else
          assert updated[|log| + 1..] == [];
          Success(Step(s.(events := events), updated))
  }

  /** The cascade of `dependent: :destroy`: every bet of the event is
      destroyed in store order, each announced with its own `bet_deleted`
      carrying only its id; the other bets are kept in order. */
  function CascadeDestroy(eventId: nat, bets: seq<Bets.Bet>): (r: (seq<Bets.Bet>, Log))
    ensures forall b :: b in r.0 <==> b in bets && b.attrs.eventId != eventId
    ensures |r.0| + |r.1| == |bets|
    ensures forall k :: 0 <= k < |r.1| ==> r.1[k].Publish? && r.1[k].channel == BetDeleted
    decreases |bets|
  {
    if bets == [] then ([], [])
    else
      var (kept, deleted) := CascadeDestroy(eventId, bets[1..]);
      assert forall b :: b in bets <==> b == bets[0] || b in bets[1..];
      if bets[0].attrs.eventId == eventId then
        (kept, [Publish(BetDeleted, IdOnly(bets[0].id))] + deleted)
      else
        ([bets[0]] + kept, deleted)
  }

  /** The cascade announces every bet of the event with a `bet_deleted`
      carrying its id. */
  lemma {:induction false} CascadeAnnouncesEachDeletedBet(eventId: nat, bets: seq<Bets.Bet>)
    ensures var deleted := CascadeDestroy(eventId, bets).1;
            forall b :: b in bets && b.attrs.eventId == eventId ==> Publish(BetDeleted, IdOnly(b.id)) in deleted
  {
    if bets != [] {
      CascadeAnnouncesEachDeletedBet(eventId, bets[1..]);
      var deleted := CascadeDestroy(eventId, bets).1;
      var rest := CascadeDestroy(eventId, bets[1..]).1;
      forall b | b in bets && b.attrs.eventId == eventId
        ensures Publish(BetDeleted, IdOnly(b.id)) in deleted
      {
        if b == bets[0] {
          assert deleted[0] == Publish(BetDeleted, IdOnly(b.id));
        } else {
          assert b in bets[1..];
          var k :| 0 <= k < |rest| && rest[k] == Publish(BetDeleted, IdOnly(b.id));
          if bets[0].attrs.eventId == eventId {
            assert deleted[k + 1] == rest[k];
          } else {
            assert deleted[k] == rest[k];
          }
        }
      }
    }
  }

  /** The position, in the bets the cascade ran over, of the bet that the
      cascade's `k`-th notice announces: a bet of the event. */
  function DeletedBetIndex(eventId: nat, bets: seq<Bets.Bet>, k: nat): (i: nat)
    requires k < |CascadeDestroy(eventId, bets).1|
    ensures i < |bets| && bets[i].attrs.eventId == eventId
    ensures CascadeDestroy(eventId, bets).1[k] == Publish(BetDeleted, IdOnly(bets[i].id))
    decreases |bets|
  {
    var rest := CascadeDestroy(eventId, bets[1..]).1;
    if bets[0].attrs.eventId == eventId then
      assert CascadeDestroy(eventId, bets).1 == [Publish(BetDeleted, IdOnly(bets[0].id))] + rest;
      if k == 0 then 0
      else
        var j := DeletedBetIndex(eventId, bets[1..], k - 1);
        assert bets[j + 1] == bets[1..][j];
        j + 1
    else
      assert CascadeDestroy(eventId, bets).1 == rest;
      var j := DeletedBetIndex(eventId, bets[1..], k);
      assert bets[j + 1] == bets[1..][j];
      j + 1
  }

  /** The bets the cascade keeps stay in id order. */
  lemma {:induction false} CascadeKeepsIdOrder(eventId: nat, bets: seq<Bets.Bet>)
    requires IdsIncreasing(bets)
    ensures IdsIncreasing(CascadeDestroy(eventId, bets).0)
  {
    if bets != [] {
      assert IdsIncreasing(bets[1..]);
      CascadeKeepsIdOrder(eventId, bets[1..]);
      var kept := CascadeDestroy(eventId, bets[1..]).0;
      if bets[0].attrs.eventId != eventId {
        forall j | 0 <= j < |kept| ensures bets[0].id < kept[j].id {
          assert kept[j] in bets[1..];
          var k :| 0 <= k < |bets[1..]| && bets[1..][k] == kept[j];
          assert bets[k + 1] == kept[j];
        }
        PrependKeepsIdsIncreasing(bets[0], kept);
      }
    }
  }

  /** Destroying a stored event: its bets are destroyed first (one
      `bet_deleted` each), then the event is removed and `event_deleted`
      carrying only its id closes the log. No bet of the event remains. */
  function DestroyEvent(s: Store, log: Log, id: nat): (r: Result<Step, Failure>)
    ensures r.Failure? <==> id !in s.events
    ensures r.Failure? ==> r.error == RecordNotFound
    ensures r.Success? ==>
              && r.value.store.events == s.events - {id}
              && r.value.store == s.(events := r.value.store.events, bets := r.value.store.bets)
              && (forall b :: b in r.value.store.bets <==> b in s.bets && b.attrs.eventId != id)
              && |log| < |r.value.log| && r.value.log[..|log|] == log
              && r.value.log[|r.value.log| - 1] == Publish(EventDeleted, IdOnly(id))
              && |r.value.log| == |log| + |s.bets| - |r.value.store.bets| + 1
              && (forall b :: b in s.bets && b.attrs.eventId == id ==>
                    Publish(BetDeleted, IdOnly(b.id)) in r.value.log[|log|..|r.value.log| - 1])
              && (forall k :: |log| <= k < |r.value.log| - 1 ==>
                    exists b :: b in s.bets && b.attrs.eventId == id && r.value.log[k] == Publish(BetDeleted, IdOnly(b.id)))
  {
    if id !in s.events then Failure(RecordNotFound)
    else
      var (kept, deleted) := CascadeDestroy(id, s.bets);
      CascadeAnnouncesEachDeletedBet(id, s.bets);
      var log' := log + deleted + [Publish(EventDeleted, IdOnly(id))];
      assert log'[|log|..|log'| - 1] == deleted;
      assert log'[..|log|] == log;
      forall k | |log| <= k < |log'| - 1
        ensures exists b :: b in s.bets && b.attrs.eventId == id && log'[k] == Publish(BetDeleted, IdOnly(b.id))
      {
        assert log'[k] == deleted[k - |log|];
        var i := DeletedBetIndex(id, s.bets, k - |log|);
        assert s.bets[i] in s.bets;
      }
      Success(Step(s.(events := s.events - {id}, bets := kept), log'))
  }

  /** Setting only the result of an ongoing event is refused, and the error
      is the result-only-when-completed rule on `result`. */
  lemma ResultOnlyUpdateOfOngoingEventIsRejected(s: Store, log: Log, id: nat, result: string)
    requires id in s.events && s.events[id].status == Some(Ongoing)
    ensures var r := UpdateEvent(s, log, id, s.events[id].(result := Some(result)));
            && r.Failure? && r.error.RecordInvalid?
            && FieldError(Result, OnlyWhenCompleted) in r.error.errors
  {
    ResultRejectedUnlessCompleted(s.labels, s.events[id].(result := Some(result)));
  }

  /** A successful completing update is the event's own update followed by
      the settlement of the store's bets against the updated event. */
  lemma CompletingUpdateRunsSettlement(s: Store, log: Log, id: nat, a: EventAttrs)
    requires CompletesWithResult(a)
    ensures var r := UpdateEvent(s, log, id, a);
            r.Success? ==>
              var settled := SettleBets(s.events[id := a], s.userIds, id, s.bets);
              && r.value.store == s.(events := s.events[id := a], bets := settled.0)
              && r.value.log == log + [Publish(EventUpdated, EventRecord(Event(id, a)))] + settled.1
  {
  }

  /** After `event_updated`, a completing update publishes one `bet_updated`
      per bet it settles and a `bet_winning_updated` notice per payout owed,
      and nothing but bet update entries. */
  lemma CompletingUpdateAnnouncesSettlement(s: Store, log: Log, id: nat, a: EventAttrs)
    requires CompletesWithResult(a)
    ensures var r := UpdateEvent(s, log, id, a);
            r.Success? ==>
              var settlement := r.value.log[|log| + 1..];
              && UpdatedBets(settlement) == SettledBets(s.events[id := a], s.userIds, id, s.bets)
              && WinningNotices(settlement) == OwedPayouts(s.events[id := a], s.userIds, id, s.bets)
              && (forall k :: 0 <= k < |settlement| ==> BetUpdateEntry(settlement[k]))
              && |settlement| == |SettledBets(s.events[id := a], s.userIds, id, s.bets)|
                                 + 2 * |OwedPayouts(s.events[id := a], s.userIds, id, s.bets)|
  {
    var r := UpdateEvent(s, log, id, a);
    if r.Success? {
      var events := s.events[id := a];
      CompletingUpdateRunsSettlement(s, log, id, a);
      var entries := SettleBets(events, s.userIds, id, s.bets).1;
      assert r.value.log == log + [Publish(EventUpdated, EventRecord(Event(id, a)))] + entries;
      assert r.value.log[|log| + 1..] == entries;
      SettlementAnnouncesEachSettledBet(events, s.userIds, id, s.bets);
      SettlementNoticesExactlyWhatIsOwed(events, s.userIds, id, s.bets);
      SettlementPaysExactlyWhatIsOwed(events, s.userIds, id, s.bets);
      BetUpdateEntriesAreCounted(entries);
    }
  }

  /** Settling the bets of a consistent store against one of its events,
      updated, leaves none of that event's bets pending. */
  lemma SettlingStoreLeavesNothingPending(s: Store, id: nat, a: EventAttrs)
    requires Inv(s) && id in s.events
    ensures var settled := SettleBets(s.events[id := a], s.userIds, id, s.bets).0;
            |settled| == |s.bets| &&
            forall i :: 0 <= i < |s.bets| ==>
              && !Settleable(id, settled[i])
              && (Settleable(id, s.bets[i]) ==> settled[i] == Bets.Complete(s.bets[i]))
  {
    var events := s.events[id := a];
    assert events.Keys == s.events.Keys;
    forall i | 0 <= i < |s.bets| ensures Bets.WellFormed(events.Keys, s.userIds, s.bets[i].attrs) {
      assert Bets.WellFormed(s.events.Keys, s.userIds, s.bets[i].attrs);
    }
    SettlementLeavesNothingPending(events, s.userIds, id, s.bets);
  }

  /** Completing an event with a result settles every one of its pending
      bets, and leaves none of its bets pending. */
  lemma CompletionSettlesEveryPendingBet(s: Store, log: Log, id: nat, a: EventAttrs)
    requires Inv(s) && CompletesWithResult(a)
    ensures var r := UpdateEvent(s, log, id, a);
            r.Success? ==>
              forall i :: 0 <= i < |s.bets| ==>
                && !Settleable(id, r.value.store.bets[i])
                && (Settleable(id, s.bets[i]) ==> r.value.store.bets[i] == Bets.Complete(s.bets[i]))
  {
    var r := UpdateEvent(s, log, id, a);
    if r.Success? {
      assert id in s.events;
      SettlingStoreLeavesNothingPending(s, id, a);
      CompletingUpdateRunsSettlement(s, log, id, a);
      assert r.value.store.bets == SettleBets(s.events[id := a], s.userIds, id, s.bets).0;
    }
  }

  /** Completing an already completed event again with the same attributes
      announces the update and settles nothing: no bet changes and no payout
      is submitted a second time. */
  lemma RepeatedCompletionSettlesNothing(s: Store, log: Log, id: nat, a: EventAttrs)
    requires CompletesWithResult(a)
    ensures var r := UpdateEvent(s, log, id, a);
            r.Success? ==>
              UpdateEvent(r.value.store, r.value.log, id, a)
                == Success(Step(r.value.store, r.value.log + [Publish(EventUpdated, EventRecord(Event(id, a)))]))
  {
    var r := UpdateEvent(s, log, id, a);
    if r.Success? {
      var events := s.events[id := a];
      var once := SettleBets(events, s.userIds, id, s.bets);
      assert r.value.store == s.(events := events, bets := once.0);
      assert r.value.store.events[id := a] == events;
      SettlementIsIdempotent(events, s.userIds, id, s.bets);
      var again := SettleBets(events, s.userIds, id, once.0);
      assert again == (once.0, []);
      var log2 := r.value.log + [Publish(EventUpdated, EventRecord(Event(id, a)))];
      assert log2 + again.1 == log2;
    }
  }
}
