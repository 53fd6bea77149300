/** The in-memory store that stands in for the database tables: events by id,
    bets in id order, the known user ids and the outcome labels of the
    result-type table. */
module Storage {
  import opened Wrappers
  import opened Validation
  import Events
  import Bets
  import opened Notifications

  datatype Store = Store(
    labels: set<string>,
    userIds: set<nat>,
    events: map<nat, Events.EventAttrs>,
    bets: seq<Bets.Bet>,
    nextEventId: nat,
    nextBetId: nat)

  /** Why a persisting operation (`save!`, `update!`, `destroy!`) was refused. */
  datatype Failure = RecordInvalid(errors: seq<FieldError>) | RecordNotFound

  /** The state after a successful operation and the log with its entries appended. */
  datatype Step = Step(store: Store, log: Log)

  predicate IdsIncreasing(bets: seq<Bets.Bet>)
  {
    forall i, j :: 0 <= i < j < |bets| ==> bets[i].id < bets[j].id
  }

  /** Every stored record passed validation, ids are unique and below the
      next id to hand out, and every bet belongs to a stored event. */
  predicate Inv(s: Store)
  {
    && (forall id :: id in s.events ==> id < s.nextEventId && Events.WellFormed(s.labels, s.events[id]))
    && IdsIncreasing(s.bets)
    && (forall i :: 0 <= i < |s.bets| ==>
          s.bets[i].id < s.nextBetId && Bets.WellFormed(s.events.Keys, s.userIds, s.bets[i].attrs))
  }

  /** A store with no events and no bets. */
  function Empty(labels: set<string>, userIds: set<nat>): (s: Store)
    ensures Inv(s)
    ensures s.events == map[] && s.bets == [] && s.labels == labels && s.userIds == userIds
  {
    Store(labels, userIds, map[], [], 0, 0)
  }

  /** Looking a bet up by id: the position of the first bet with that id. */
  function IndexOf(bets: seq<Bets.Bet>, id: nat): (r: Option<nat>)
    ensures r.Some? ==> r.value < |bets| && bets[r.value].id == id
    ensures r.None? ==> forall i :: 0 <= i < |bets| ==> bets[i].id != id
  {
    if bets == [] then None
    else if bets[0].id == id then Some(0)
    else match IndexOf(bets[1..], id)
      case None => None
      case Some(k) => Some(k + 1)
  }

  /** With unique ids, looking a stored bet up by its id finds that bet. */
  lemma IndexOfFindsUniqueId(bets: seq<Bets.Bet>, i: nat)
    requires IdsIncreasing(bets) && i < |bets|
    ensures IndexOf(bets, bets[i].id) == Some(i)
  {
  }

  /** Putting a bet with a smaller id than all others in front keeps ids increasing. */
  lemma PrependKeepsIdsIncreasing(b: Bets.Bet, bets: seq<Bets.Bet>)
    requires IdsIncreasing(bets)
    requires forall j :: 0 <= j < |bets| ==> b.id < bets[j].id
    ensures IdsIncreasing([b] + bets)
  {
    var all := [b] + bets;
    forall i, j | 0 <= i < j < |all| ensures all[i].id < all[j].id {
      if i > 0 {
        assert all[i] == bets[i - 1] && all[j] == bets[j - 1];
      } else {
        assert all[j] == bets[j - 1];
      }
    }
  }
}
