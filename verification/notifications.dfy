/** The notification log: every publish to a channel and every payout job
    submission, in the order they happen. Operations only ever append to it. */
module Notifications {
  import Events
  import Bets

  const EventCreated: string := "event_created"
  const EventUpdated: string := "event_updated"
  const EventDeleted: string := "event_deleted"
  const BetCreated: string := "bet_created"
  const BetUpdated: string := "bet_updated"
  const BetDeleted: string := "bet_deleted"
  const BetWinningUpdated: string := "bet_winning_updated"

  /** What a notification carries: a whole record, just an id, or a winning. */
  datatype Payload =
    | EventRecord(event: Events.Event)
    | BetRecord(bet: Bets.Bet)
    | IdOnly(id: nat)
    | Winning(userId: nat, winnings: real)

  /** A publish on a named channel, or one payout job submitted with its arguments. */
  datatype Entry =
    | Publish(channel: string, payload: Payload)
    | PayoutJob(userId: nat, winnings: real)

  type Log = seq<Entry>

  /** Every payout job directly follows a `bet_winning_updated` publish
      carrying the same user and winnings. */
  predicate PayoutsPaired(entries: Log)
  {
    forall i :: 0 <= i < |entries| && entries[i].PayoutJob? ==>
      0 < i && entries[i - 1] == Publish(BetWinningUpdated, Winning(entries[i].userId, entries[i].winnings))
  }

  lemma PayoutsPairedAppend(a: Log, b: Log)
    requires PayoutsPaired(a) && PayoutsPaired(b)
    ensures PayoutsPaired(a + b)
  {
    forall i | 0 <= i < |a + b| && (a + b)[i].PayoutJob?
      ensures 0 < i && (a + b)[i - 1] == Publish(BetWinningUpdated, Winning((a + b)[i].userId, (a + b)[i].winnings))
    {
      if i >= |a| {
        assert b[i - |a|] == (a + b)[i];
      }
    }
  }

  /** The arguments of the payout jobs in a log, in order. */
  function Payouts(entries: Log): seq<(nat, real)>
  {
    if entries == [] then []
    else if entries[0].PayoutJob? then [(entries[0].userId, entries[0].winnings)] + Payouts(entries[1..])
    else Payouts(entries[1..])
  }

  lemma {:induction false} PayoutsAppend(a: Log, b: Log)
    ensures Payouts(a + b) == Payouts(a) + Payouts(b)
  {
    if a == [] {
      assert a + b == b;
    } else {
      assert (a + b)[1..] == a[1..] + b;
      PayoutsAppend(a[1..], b);
    }
  }

  /** The `{user_id, winnings}` values of the `bet_winning_updated` publishes
      in a log, in order. */
  function WinningNotices(entries: Log): seq<(nat, real)>
  {
    if entries == [] then []
    else if entries[0].Publish? && entries[0].channel == BetWinningUpdated && entries[0].payload.Winning?
    then [(entries[0].payload.userId, entries[0].payload.winnings)] + WinningNotices(entries[1..])
    else WinningNotices(entries[1..])
  }

  lemma {:induction false} WinningNoticesAppend(a: Log, b: Log)
    ensures WinningNotices(a + b) == WinningNotices(a) + WinningNotices(b)
  {
    if a == [] {
      assert a + b == b;
    } else {
      assert (a + b)[0] == a[0];
      assert (a + b)[1..] == a[1..] + b;
      WinningNoticesAppend(a[1..], b);
    }
  }

  /** The bet records published on `bet_updated` in a log, in order. */
  function UpdatedBets(entries: Log): seq<Bets.Bet>
  {
    if entries == [] then []
    else if entries[0].Publish? && entries[0].channel == BetUpdated && entries[0].payload.BetRecord?
    then [entries[0].payload.bet] + UpdatedBets(entries[1..])
    else UpdatedBets(entries[1..])
  }

  lemma {:induction false} UpdatedBetsAppend(a: Log, b: Log)
    ensures UpdatedBets(a + b) == UpdatedBets(a) + UpdatedBets(b)
  {
    if a == [] {
      assert a + b == b;
    } else {
      assert (a + b)[0] == a[0];
      assert (a + b)[1..] == a[1..] + b;
      UpdatedBetsAppend(a[1..], b);
    }
  }

  /** The entries a bet update may append: `bet_updated` carrying a bet
      record, `bet_winning_updated` carrying a winning, and payout jobs,
      nothing else. Each is counted by one of `UpdatedBets`,
      `WinningNotices` and `Payouts`. */
  predicate BetUpdateEntry(e: Entry)
  {
    || e.PayoutJob?
    || (e.Publish? && e.channel == BetUpdated && e.payload.BetRecord?)
    || (e.Publish? && e.channel == BetWinningUpdated && e.payload.Winning?)
  }

  /** A log of bet update entries holds nothing the three observers miss:
      its length is the number of updated records, winning notices and
      payout jobs together. */
  lemma {:induction false} BetUpdateEntriesAreCounted(entries: Log)
    requires forall k :: 0 <= k < |entries| ==> BetUpdateEntry(entries[k])
    ensures |entries| == |UpdatedBets(entries)| + |WinningNotices(entries)| + |Payouts(entries)|
  {
    if entries != [] {
      assert BetUpdateEntry(entries[0]);
      assert forall k :: 0 <= k < |entries[1..]| ==> entries[1..][k] == entries[k + 1];
      BetUpdateEntriesAreCounted(entries[1..]);
    }
  }
}
