# Sports betting settlement core, modelled in Dafny

This project models the settlement core of a sports betting app. Users place
**bets** on **events**. When an event is completed with a result, its pending
bets are settled. A winning bet pays `amount * odds` to its user. Every
create, update and destroy of an event or a bet publishes a lifecycle
notification.

The model follows what the repository's model specs
(`spec/models/event_spec.rb` and `spec/models/bet_spec.rb`) assert; the
ActiveRecord model classes themselves are not modelled. In outline:

- **Records** (`Events`, `Bets`). `Bets.Initialize` defaults an unset bet
  status to `pending`. `Bets.Won` compares the prediction with the event's
  result, and `Bets.Winnings` is `amount * odds`.
- **Validations** (`Validation`, `Events`, `Bets`). Rails presence,
  numericality (`greater_than: 0`), inclusion and required `belongs_to`
  validators each add entries to an `errors` sequence. A record is valid
  exactly when that sequence is empty. Each model's `Errors` function is
  proved equivalent to an attribute-by-attribute `WellFormed` predicate.
- **Event lifecycle** (`EventLifecycle`).
  - `CreateEvent`, `UpdateEvent` and `DestroyEvent` are pure functions. Each
    takes the store and the log and returns a `Result`: either the new store
    with the extended log, or `RecordInvalid` / `RecordNotFound`.
  - An update that leaves the event `completed` with a result settles the
    event's bets.
  - Destroy cascades to the event's bets. It publishes one `bet_deleted` per
    bet, then `event_deleted`.
- **Bet lifecycle** (`BetLifecycle`).
  - `CreateBet`, `UpdateBet` and `DestroyBet` publish their lifecycle
    notifications.
  - An update that moves a winning bet into `completed` also publishes
    `bet_winning_updated` with `{user_id, winnings}`. Right after that it
    submits one payout job with the same two values.
- **Settlement** (`Settlement`). A fold over the stored bets. Every pending
  bet of the completed event goes through its own settling update,
  independently of the others: `Settlement.SettleOneIsASettlingUpdate`
  proves that each step is the bet update `BetLifecycle.UpdateBet` performs
  when the bet is set to `completed`.
- **Notification log** (`Notifications`). The Redis publishes and the
  `ProcessWinningsJob.perform_async` calls form one append-only sequence of
  entries: `Publish(channel, payload)` and `PayoutJob(user_id, winnings)`.
- **Store invariant** (`Storage.Inv`, `Invariants`). Every operation keeps
  these facts: only valid records are stored, ids are unique and increasing,
  and every bet belongs to a stored event.
- **Scenarios** (`Scenarios`). The concrete situations the specs set up,
  replayed on the model.

Amounts, odds and winnings are Dafny `real`, so the decimal arithmetic is
exact: a stake of 100 at odds 2.5 pays exactly 250.

## Bet status vocabulary

The two specs disagree on bet statuses:

- `spec/models/event_spec.rb:67` creates a bet with status `"won"`.
  Line 70 expects that status to survive the event's completion.
- `spec/models/bet_spec.rb:28` allows only `pending`, `completed` and
  `canceled`.

The model follows `bet_spec.rb`. There is one settled status, `completed`,
and `Bets.Won` decides whether a completed bet won. A bet with status
`"won"` fails validation (`Scenarios.BetWithWonStatusIsRefused`).
Settlement touches only pending bets, so any bet already out of `pending`
keeps its status when its event completes. That part of line 70 does hold
(`Settlement.SettleBets`).

## Choices where the specs are silent

- "Result is set" means the result is non-nil. A blank string counts as set.
- Settlement runs on every successful update that leaves the event completed
  with a result, not only on the first such update. It only touches pending
  bets, so running it again changes nothing and pays nothing
  (`EventLifecycle.RepeatedCompletionSettlesNothing`).
- A bet update pays out when it moves the status from anything else into
  `completed` and the bet won.
- Order of entries within one operation:
  - `event_updated` comes before the settlement entries.
  - `bet_updated` comes before `bet_winning_updated`, and that comes before
    the payout job.
  - On destroy, the `bet_deleted` entries come before `event_deleted`, in
    store order.
- If a bet fails validation in its settled form, settlement skips it and
  goes on with the rest. Under the store invariant this never happens.

## Model

| member | source | states |
|---|---|---|
| Events.Errors | spec/models/event_spec.rb:16-34 | The errors are empty exactly when: the name is present and not blank; start_time is present; odds is present and > 0; status is upcoming, ongoing or completed; and a set result belongs to a completed event and is one of the outcome labels. |
| Events.ResultRejectedUnlessCompleted | spec/models/event_spec.rb:25-29 | An event with a result and a status other than completed is invalid, and `errors[:result]` carries "can only be set when the event is completed". |
| Events.CompletedWithLabelIsValid | spec/models/event_spec.rb:31-34 | A completed event with a result from the label set (and the other attributes present) has no errors. |
| Bets.Initialize | spec/models/bet_spec.rb:32-36 | A bet built with no status gets status pending. A given status is kept. All other attributes are kept as given. |
| Bets.Errors | spec/models/bet_spec.rb:15-28 | The errors are empty exactly when: the user and the event exist; amount is present and > 0; odds is present and > 0; and status is pending, completed or canceled. |
| Bets.InitializedStatusIsValid | spec/models/bet_spec.rb:27-36 | A freshly initialized bet never fails the status presence or inclusion rule, whatever events and users exist. |
| Bets.Winnings | spec/models/bet_spec.rb:58-63 | Winnings are positive for a valid bet. They are at least the stake when odds >= 1. Dividing them by the odds gives back the stake exactly. |
| Bets.WinningsAreExact | spec/models/bet_spec.rb:7 | A stake of 100 at odds 2.5 wins exactly 250. |
| Bets.Won | spec/models/bet_spec.rb:76-86 | A bet wins only against an event that has a result. |
| Bets.OnlyCompletedEventsHaveWinners | spec/models/bet_spec.rb:76-86 | Against a valid event, a winning bet means the event is completed and the prediction is one of the outcome labels. |
| Bets.WinnersShareThePrediction | spec/models/bet_spec.rb:76-86 | Once one bet has won, another bet wins exactly when it made the same prediction. |
| Bets.WonComparesPredictionWithResult | spec/models/bet_spec.rb:76-86 | A prediction of "win" wins against the result "win". A prediction of "lose" does not. An event with no result makes no bet a winner. |
| BetLifecycle.UpdateEntries | spec/models/bet_spec.rb:46-64 | A bet update always appends `bet_updated` with the new record, and only that one record. A winning settling update adds `bet_winning_updated {user_id, winnings}` and then exactly one payout job with the same values. Any other update adds nothing more. |
| BetLifecycle.CreateBet | spec/models/bet_spec.rb:39-44 | The save succeeds exactly when the bet is valid. On success it stores the bet under a fresh id and appends exactly one `bet_created` entry with the record. A refused save reports its errors. |
| BetLifecycle.UpdateBet | spec/models/bet_spec.rb:46-51 | An unknown id gives RecordNotFound. The update succeeds exactly when the id exists and the new attributes are valid. On success it replaces only that bet. Its log is exactly the bet update entries for the stored bet's old and new attributes: `bet_updated` with the new record, then, only when the update settles a winning bet, `bet_winning_updated` and one payout job. |
| BetLifecycle.InitializedBetSaves | spec/models/bet_spec.rb:32-44 | A bet built without a status, with a positive stake and odds, by an existing user on an existing event, saves as pending. It is stored under the next id and announced with one `bet_created`. |
| BetLifecycle.DestroyBet | spec/models/bet_spec.rb:67-72 | Destroy removes exactly the bet with that id and appends exactly one `bet_deleted` entry carrying only the id. An unknown id gives RecordNotFound. |
| BetLifecycle.WinningSettlementPaysOnce | spec/models/bet_spec.rb:53-63 | Completing a stored bet that won stores it as completed. The log gains exactly `bet_updated`, then `bet_winning_updated {user_id, amount * odds}`, then one payout job with the same values. |
| BetLifecycle.LosingSettlementPaysNothing | spec/models/bet_spec.rb:61-63 | Completing a stored bet that lost appends only `bet_updated`: no winning notice and no payout job. |
| Settlement.SettleBets | spec/models/event_spec.rb:66-71 | Settlement keeps every bet's id and position. Bets that are not pending bets of the event are left unchanged. Pending bets of the event become completed when valid, and stay as they were when not. Every payout job follows its winning notice. Every entry is a `bet_updated` carrying a bet record, a `bet_winning_updated` carrying a winning, or a payout job. |
| Settlement.SettleOneIsASettlingUpdate | spec/models/bet_spec.rb:53-63 | Each bet's step of the settlement gives the same store change and entries as updating that stored bet to `completed`. When that update would be refused, the step skips the bet. |
| Settlement.SettlementAnnouncesEachSettledBet | spec/models/event_spec.rb:66-71 | The `bet_updated` records a settlement publishes are exactly the settled bets, which are defined independently, in store order. No other bet gets one. |
| Settlement.SettlementNoticesExactlyWhatIsOwed | spec/models/bet_spec.rb:58-61 | The `bet_winning_updated` notices a settlement publishes are exactly the owed payouts. A losing, canceled or already completed bet gets no notice. |
| Settlement.SettlementPaysExactlyWhatIsOwed | spec/models/event_spec.rb:66-71 | The payouts settlement submits are exactly the owed payouts, which are defined independently: one per valid pending bet of the event that won, worth amount * odds. |
| Settlement.SettlementLeavesNothingPending | spec/models/event_spec.rb:66-71 | When all bets are valid, settlement completes every pending bet of the event and leaves none of them pending. |
| Settlement.SettlementIsIdempotent | spec/models/event_spec.rb:66-71 | Settling an already settled list changes no bet and emits no entry. |
| EventLifecycle.CreateEvent | spec/models/event_spec.rb:41-46 | The save succeeds exactly when the event is valid. On success it stores the event under a fresh id and appends exactly one `event_created` entry with the record. |
| EventLifecycle.UpdateEvent | spec/models/event_spec.rb:48-71 | An unknown id gives RecordNotFound. The update succeeds exactly when the id exists and the new attributes are valid. On success, `event_updated` with the post-update record comes first and bets that are not settleable are untouched. Without completion the bets are unchanged and that entry is the only one. With completion the payouts are exactly the owed ones. |
| EventLifecycle.CascadeDestroy | spec/models/event_spec.rb:13 | The cascade keeps exactly the bets of other events. It emits one `bet_deleted` per removed bet, so kept bets plus entries equal the original count. |
| EventLifecycle.CascadeAnnouncesEachDeletedBet | spec/models/event_spec.rb:13 | Every bet of the event gets a `bet_deleted` with its id. |
| EventLifecycle.DeletedBetIndex | spec/models/event_spec.rb:13 | Each notice of the cascade announces, by id, a bet of the event at a position the function names. |
| EventLifecycle.CascadeKeepsIdOrder | spec/models/event_spec.rb:13 | The bets kept by the cascade stay in increasing id order. |
| EventLifecycle.DestroyEvent | spec/models/event_spec.rb:74-79 | Destroy removes the event and all its bets and keeps all other bets. It appends the bets' `bet_deleted` notices, then `event_deleted` carrying only the id. An unknown id gives RecordNotFound. |
| EventLifecycle.ResultOnlyUpdateOfOngoingEventIsRejected | spec/models/event_spec.rb:57-64 | Setting only the result of an ongoing event is refused as RecordInvalid, with the result-only-when-completed error. |
| EventLifecycle.CompletingUpdateAnnouncesSettlement | spec/models/event_spec.rb:66-71 | After `event_updated`, a completing update publishes one `bet_updated` per settled bet and one `bet_winning_updated` per owed payout. Every entry it appends is one of those or a payout job, so the appended length is the settled bets plus twice the owed payouts. |
| Notifications.BetUpdateEntriesAreCounted | spec/models/bet_spec.rb:46-63 | A log of bet update entries has exactly as many entries as its updated records, winning notices and payout jobs together. No entry escapes the three. |
| EventLifecycle.SettlingStoreLeavesNothingPending | spec/models/event_spec.rb:66-71 | In a consistent store, settling against one of its events completes each pending bet of that event and leaves none of them pending. |
| EventLifecycle.CompletionSettlesEveryPendingBet | spec/models/event_spec.rb:66-71 | In a consistent store, completing an event with a result settles each of its pending bets to completed and leaves none of its bets pending. |
| EventLifecycle.RepeatedCompletionSettlesNothing | spec/models/event_spec.rb:66-71 | Repeating a completing update appends only `event_updated`. The store is unchanged and no second payout is made. |
| Invariants.CreateEventPreservesInv | spec/models/event_spec.rb:16-22 | A successful event create keeps the store invariant. |
| Invariants.UpdateEventPreservesInv | spec/models/event_spec.rb:60-71 | A successful event update, including its settlement, keeps the store invariant. |
| Invariants.DestroyEventPreservesInv | spec/models/event_spec.rb:12-14 | A successful event destroy keeps the store invariant, so no bet outlives its event. |
| Invariants.CreateBetPreservesInv | spec/models/bet_spec.rb:15-28 | A successful bet create keeps the store invariant. |
| Invariants.UpdateBetPreservesInv | spec/models/bet_spec.rb:46-56 | A successful bet update keeps the store invariant. |
| Invariants.DestroyBetPreservesInv | spec/models/bet_spec.rb:67-72 | A successful bet destroy keeps the store invariant. |
| Scenarios.OneBetStoreIsConsistent | spec/models/event_spec.rb:56-58 | The store the scenarios start from, one ongoing event with one pending bet, meets the store invariant. |
| Scenarios.SettlingTheWinningBet | spec/models/bet_spec.rb:53-63 | Settling that bet against the event completed with "win" completes it. It emits `bet_updated`, `bet_winning_updated {7, 250}` and payout job `(7, 250)`. |
| Scenarios.CompletingWithWinPaysTheWinner | spec/models/event_spec.rb:56-71 | Setup: an ongoing event with a pending 100 @ 2.5 bet on "win". Updating the event to completed/"win" completes the bet. The log is `event_updated`, `bet_updated`, `bet_winning_updated {7, 250}`, payout job `(7, 250)`. |
| Scenarios.ResultOnOngoingEventIsRefused | spec/models/event_spec.rb:60-64 | The same store refuses setting the result "win" on the ongoing event. |
| Scenarios.BetWithWonStatusIsRefused | spec/models/event_spec.rb:67 | A bet saved with status "won" is refused, because that status is not allowed. |
| Scenarios.DestroyingAnEventWithTwoBets | spec/models/event_spec.rb:74-79 | Destroying an event with two bets removes both. The log is `bet_deleted {0}`, `bet_deleted {1}`, `event_deleted {0}`. |

## Left out

- Redis delivery and Sidekiq job execution are not modelled. Both are
  fire-and-forget I/O, so each call is only an entry appended to the log.
- ActiveRecord persistence, factories, `reload` and transactions are not
  modelled. The store is an immutable value, and each operation is one
  atomic step.
- The `to_json` format is not modelled. A payload is the record itself, or
  the `{id}` or `{user_id, winnings}` values.
- The users table, and its `balance` column from
  db/migrate/20250119220244_add_balance_to_users.rb, are not modelled. Users
  appear only as a set of existing ids for the `belongs_to :user` check.
  Crediting a balance is the job's work and is not asserted here.
- The result-type table lookup is not modelled. The outcome labels are a
  fixed field of the store; the specs stub them as win, lose, draw, penalty.
- `start_time` is an opaque integer. Only its presence is validated.
- Blank detection uses ASCII whitespace only. Unicode space characters are
  not modelled.
- `predicted_outcome` is never nil. A nil prediction matching a nil result
  is not modelled.
- Concurrency, retries and delivery failures are not modelled. Settlement
  is one fold, not separate transactions per bet.
