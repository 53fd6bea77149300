/** The Event record and its validations. */
module Events {
  import opened Wrappers
  import opened Validation

  const Upcoming: string := "upcoming"
  const Ongoing: string := "ongoing"
  const Completed: string := "completed"

  /** The statuses an event may be saved with. */
  const Statuses: set<string> := {Upcoming, Ongoing, Completed}

  /** The outcome labels the specs stub the result-type table with. */
  const StubbedOutcomeLabels: set<string> := {"win", "lose", "draw", "penalty"}

  /** The assignable attributes of an event; `startTime` is an opaque timestamp. */
  datatype EventAttrs = EventAttrs(
    name: Option<string>,
    startTime: Option<int>,
    odds: Option<real>,
    status: Option<string>,
    result: Option<string>)

  /** A persisted event: its id and attributes. */
  datatype Event = Event(id: nat, attrs: EventAttrs)

  predicate IsCompleted(a: EventAttrs)
  {
    a.status == Some(Completed)
  }

  /** What a savable event looks like, attribute by attribute, given the
      current outcome labels. */
  predicate WellFormed(labels: set<string>, a: EventAttrs)
  {
    && a.name.Some? && !IsBlank(a.name.value)
    && a.startTime.Some?
    && a.odds.Some? && a.odds.value > 0.0
    && a.status.Some? && a.status.value in Statuses
    && (a.result.Some? ==> IsCompleted(a) && a.result.value in labels)
  }

  /** The result may be set only on a completed event. */
  function ResultOnlyWhenCompleted(a: EventAttrs): seq<FieldError>
  {
    if a.result.Some? && !IsCompleted(a) then [FieldError(Result, OnlyWhenCompleted)] else []
  }

  /** A set result must be one of the outcome labels. */
  function ResultIsOutcomeLabel(labels: set<string>, a: EventAttrs): seq<FieldError>
  {
    if a.result.Some? && a.result.value !in labels then [FieldError(Result, NotIncluded)] else []
  }

  function NameErrors(a: EventAttrs): seq<FieldError>
  {
    PresenceOfText(Name, a.name)
  }

  function StartTimeErrors(a: EventAttrs): seq<FieldError>
  {
    PresenceOf(StartTime, a.startTime)
  }

  function OddsErrors(a: EventAttrs): seq<FieldError>
  {
    PresenceOf(Odds, a.odds) + GreaterThanZero(Odds, a.odds)
  }

  function StatusErrors(a: EventAttrs): seq<FieldError>
  {
    PresenceOfText(Status, a.status) + InclusionIn(Status, a.status, Statuses)
  }

  function ResultErrors(labels: set<string>, a: EventAttrs): seq<FieldError>
  {
    ResultOnlyWhenCompleted(a) + ResultIsOutcomeLabel(labels, a)
  }

  /** The `errors` collection of an event after validation, attribute by
      attribute in the order the validations are declared. */
  function Errors(labels: set<string>, a: EventAttrs): (r: seq<FieldError>)
    ensures r == [] <==> WellFormed(labels, a)
  {
    IncludedWordIsNotBlank(Statuses, a.status);
    NameErrors(a) + StartTimeErrors(a) + OddsErrors(a) + StatusErrors(a) + ResultErrors(labels, a)
  }

  /** A set result is rejected on any event that is not completed, and the
      rejection is reported on `result` with the rule's own message. */
  lemma ResultRejectedUnlessCompleted(labels: set<string>, a: EventAttrs)
    requires a.result.Some? && a.status != Some(Completed)
    ensures !WellFormed(labels, a)
    ensures FieldError(Result, OnlyWhenCompleted) in Errors(labels, a)
    ensures exists e :: e in Errors(labels, a) && e.attribute == Result
                        && Message(e.kind) == "can only be set when the event is completed"
  {
    var others := NameErrors(a) + StartTimeErrors(a) + OddsErrors(a) + StatusErrors(a);
    assert Errors(labels, a) == others + ResultErrors(labels, a);
    var e := FieldError(Result, OnlyWhenCompleted);
    assert e in ResultErrors(labels, a);
    assert e in Errors(labels, a) && Message(e.kind) == "can only be set when the event is completed";
  }

  /** A completed event whose result is one of the outcome labels passes the
      result rules; with its other attributes present it is valid. */
  lemma CompletedWithLabelIsValid(labels: set<string>, a: EventAttrs)
    requires a.name.Some? && !IsBlank(a.name.value) && a.startTime.Some?
    requires a.odds.Some? && a.odds.value > 0.0
    requires a.status == Some(Completed) && a.result.Some? && a.result.value in labels
    ensures Errors(labels, a) == []
  {
  }
}
