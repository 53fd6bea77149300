/** Every operation keeps the store invariant: only valid records are ever
    stored, ids stay unique, and no bet outlives its event. */
module Invariants {
  import Events
  import opened Bets
  import opened Notifications
  import opened Storage
  import opened BetLifecycle
  import opened Settlement
  import opened EventLifecycle

  lemma CreateEventPreservesInv(s: Store, log: Log, a: Events.EventAttrs)
    requires Inv(s)
    ensures var r := CreateEvent(s, log, a); r.Success? ==> Inv(r.value.store)
  {
    var r := CreateEvent(s, log, a);
    if r.Success? {
      var t := r.value.store;
      assert t.events.Keys == s.events.Keys + {s.nextEventId};
      forall i | 0 <= i < |t.bets|
        ensures t.bets[i].id < t.nextBetId && WellFormed(t.events.Keys, t.userIds, t.bets[i].attrs)
      {
        assert s.bets[i] == t.bets[i];
      }
    }
  }

  lemma UpdateEventPreservesInv(s: Store, log: Log, id: nat, a: Events.EventAttrs)
    requires Inv(s)
    ensures var r := UpdateEvent(s, log, id, a); r.Success? ==> Inv(r.value.store)
  {
    var r := UpdateEvent(s, log, id, a);
    if r.Success? {
      var t := r.value.store;
      assert t.events == s.events[id := a] && Events.WellFormed(s.labels, a);
      assert t.events.Keys == s.events.Keys;
      if CompletesWithResult(a) {
        var settled := SettleBets(t.events, s.userIds, id, s.bets).0;
        assert t.bets == settled;
        forall i | 0 <= i < |t.bets|
          ensures t.bets[i].id == s.bets[i].id && WellFormed(t.events.Keys, t.userIds, t.bets[i].attrs)
        {
          assert t.bets[i] == s.bets[i] || t.bets[i] == Bets.Complete(s.bets[i]);
        }
      } else {
        assert t.bets == s.bets;
      }
      assert IdsIncreasing(t.bets);
    }
  }

  lemma DestroyEventPreservesInv(s: Store, log: Log, id: nat)
    requires Inv(s)
    ensures var r := DestroyEvent(s, log, id); r.Success? ==> Inv(r.value.store)
  {
    var r := DestroyEvent(s, log, id);
    if r.Success? {
      var t := r.value.store;
      CascadeKeepsIdOrder(id, s.bets);
      assert t.bets == CascadeDestroy(id, s.bets).0;
      forall i | 0 <= i < |t.bets|
        ensures t.bets[i].id < t.nextBetId && WellFormed(t.events.Keys, t.userIds, t.bets[i].attrs)
      {
        assert t.bets[i] in s.bets;
        var k :| 0 <= k < |s.bets| && s.bets[k] == t.bets[i];
      }
    }
  }

  lemma CreateBetPreservesInv(s: Store, log: Log, a: BetAttrs)
    requires Inv(s)
    ensures var r := CreateBet(s, log, a); r.Success? ==> Inv(r.value.store)
  {
    var r := CreateBet(s, log, a);
    if r.Success? {
      var t := r.value.store;
      forall i, j | 0 <= i < j < |t.bets| ensures t.bets[i].id < t.bets[j].id {
        if j == |s.bets| {
          assert t.bets[i] == s.bets[i];
        } else {
          assert t.bets[i] == s.bets[i] && t.bets[j] == s.bets[j];
        }
      }
      forall i | 0 <= i < |t.bets|
        ensures t.bets[i].id < t.nextBetId && WellFormed(t.events.Keys, t.userIds, t.bets[i].attrs)
      {
        if i < |s.bets| { assert t.bets[i] == s.bets[i]; }
      }
    }
  }

  lemma UpdateBetPreservesInv(s: Store, log: Log, id: nat, a: BetAttrs)
    requires Inv(s)
    ensures var r := UpdateBet(s, log, id, a); r.Success? ==> Inv(r.value.store)
  {
    var r := UpdateBet(s, log, id, a);
    if r.Success? {
      var t := r.value.store;
      var k := IndexOf(s.bets, id).value;
      assert t.bets == s.bets[k := Bet(id, a)];
      assert t.events == s.events && t.userIds == s.userIds;
      assert WellFormed(s.events.Keys, s.userIds, a);
      forall i | 0 <= i < |t.bets|
        ensures t.bets[i].id == s.bets[i].id && WellFormed(t.events.Keys, t.userIds, t.bets[i].attrs)
      {
        if i != k {
          assert t.bets[i] == s.bets[i];
        }
      }
      assert IdsIncreasing(t.bets);
    }
  }

  lemma DestroyBetPreservesInv(s: Store, log: Log, id: nat)
    requires Inv(s)
    ensures var r := DestroyBet(s, log, id); r.Success? ==> Inv(r.value.store)
  {
    var r := DestroyBet(s, log, id);
    if r.Success? {
      var t := r.value.store;
      var k := IndexOf(s.bets, id).value;
      assert t.bets == s.bets[..k] + s.bets[k + 1..];
      forall i | 0 <= i < |t.bets| ensures t.bets[i] == s.bets[if i < k then i else i + 1] {
      }
    }
  }
}
