/** The Bet record, its default status, its validations, and the settlement
    rule: whether it won and what it pays. */
module Bets {
  import opened Wrappers
  import opened Validation
  import Events

  const Pending: string := "pending"
  const Completed: string := "completed"
  const Canceled: string := "canceled"

  /** The statuses a bet may be saved with. `completed` is the one terminal
      settled status; whether a completed bet won is derived by `Won`. */
  const Statuses: set<string> := {Pending, Completed, Canceled}

  /** The assignable attributes of a bet. `odds` is captured when the bet is
      placed and is independent of the event's own odds. */
  datatype BetAttrs = BetAttrs(
    userId: nat,
    eventId: nat,
    amount: Option<real>,
    odds: Option<real>,
    predictedOutcome: string,
    status: Option<string>)

  /** A persisted bet: its id and attributes. */
  datatype Bet = Bet(id: nat, attrs: BetAttrs)

  /** Constructing a bet: a status left unset becomes `pending`; every other
      attribute is taken as given. */
  function Initialize(userId: nat, eventId: nat, amount: Option<real>, odds: Option<real>,
                      predictedOutcome: string, status: Option<string>): (a: BetAttrs)
    ensures a.status.Some?
    ensures status.None? ==> a.status == Some(Pending)
    ensures status.Some? ==> a.status == status
    ensures a.userId == userId && a.eventId == eventId && a.amount == amount
            && a.odds == odds && a.predictedOutcome == predictedOutcome
  {
    BetAttrs(userId, eventId, amount, odds, predictedOutcome,
             if status.None? then Some(Pending) else status)
  }

  /** The bet moved into the settled status, all else unchanged. */
  function Complete(b: Bet): Bet
  {
    b.(attrs := b.attrs.(status := Some(Completed)))
  }

  /** What a savable bet looks like, given the ids of the existing events and users. */
  predicate WellFormed(eventIds: set<nat>, userIds: set<nat>, a: BetAttrs)
  {
    && a.userId in userIds
    && a.eventId in eventIds
    && a.amount.Some? && a.amount.value > 0.0
    && a.odds.Some? && a.odds.value > 0.0
    && a.status.Some? && a.status.value in Statuses
  }

  /** The `errors` collection of a bet after validation: the two required
      associations, then amount, odds and status. */
  function Errors(eventIds: set<nat>, userIds: set<nat>, a: BetAttrs): (r: seq<FieldError>)
    ensures r == [] <==> WellFormed(eventIds, userIds, a)
  {
    IncludedWordIsNotBlank(Statuses, a.status);
    Exists(UserAssociation, a.userId, userIds)
    + Exists(EventAssociation, a.eventId, eventIds)
    + PresenceOf(Amount, a.amount)
    + GreaterThanZero(Amount, a.amount)
    + PresenceOf(Odds, a.odds)
    + GreaterThanZero(Odds, a.odds)
    + PresenceOfText(Status, a.status)
    + InclusionIn(Status, a.status, Statuses)
  }

  /** A freshly constructed bet never fails the status rules, whatever
      events and users exist. */
  lemma InitializedStatusIsValid(eventIds: set<nat>, userIds: set<nat>, userId: nat, eventId: nat,
                                 amount: Option<real>, odds: Option<real>, predictedOutcome: string)
    ensures var a := Initialize(userId, eventId, amount, odds, predictedOutcome, None);
            FieldError(Status, Blank) !in Errors(eventIds, userIds, a)
            && FieldError(Status, NotIncluded) !in Errors(eventIds, userIds, a)
  {
    IncludedWordIsNotBlank(Statuses, Some(Pending));
  }

  /** The bet won when the event's result is exactly the predicted outcome;
      an event without a result makes no bet a winner. */
  predicate Won(a: BetAttrs, event: Events.EventAttrs): (w: bool)
    ensures w ==> event.result.Some?
  {
    event.result == Some(a.predictedOutcome)
  }

  /** Only a completed event has winners, and a winner predicted one of the
      outcome labels. */
  lemma OnlyCompletedEventsHaveWinners(labels: set<string>, a: BetAttrs, e: Events.EventAttrs)
    requires Events.WellFormed(labels, e) && Won(a, e)
    ensures Events.IsCompleted(e) && a.predictedOutcome in labels
  {
  }

  /** Once one bet has won, exactly the bets with the same prediction win
      too: the winners of an event are the bets that predicted its result. */
  lemma WinnersShareThePrediction(a: BetAttrs, b: BetAttrs, e: Events.EventAttrs)
    requires Won(a, e)
    ensures Won(b, e) <==> b.predictedOutcome == a.predictedOutcome
  {
  }

  /** The payout of a winning bet, `amount * odds`, computed exactly. It is
      positive for a valid bet, at least the stake when the odds are at
      least 1, and dividing it by the odds gives the stake back. */
  function Winnings(a: BetAttrs): (w: real)
    requires a.amount.Some? && a.odds.Some?
    ensures a.amount.value > 0.0 && a.odds.value > 0.0 ==> w > 0.0
    ensures a.amount.value > 0.0 && a.odds.value >= 1.0 ==> w >= a.amount.value
    ensures a.odds.value != 0.0 ==> w / a.odds.value == a.amount.value
  {
    a.amount.value * a.odds.value
  }

  /** A stake of 100 at odds 2.5 pays exactly 250. */
  lemma WinningsAreExact()
    ensures Winnings(BetAttrs(0, 0, Some(100.0), Some(2.5), "win", Some(Pending))) == 250.0
  {
  }

  /** A prediction of "win" wins against the result "win"; "lose" does not. */
  lemma WonComparesPredictionWithResult(e: Events.EventAttrs, a: BetAttrs)
    requires e.result == Some("win")
    ensures Won(a.(predictedOutcome := "win"), e)
    ensures !Won(a.(predictedOutcome := "lose"), e)
    ensures !Won(a, e.(result := None))
  {
  }
}
