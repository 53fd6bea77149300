/** The attribute validators the models declare — presence, numericality,
    inclusion and required associations — and the entries each adds to a
    record's `errors` collection. A record is valid when its collection is empty. */
module Validation {
  import opened Wrappers

  /** The attributes (and associations) that validators report errors on. */
  datatype Attribute = Name | StartTime | Odds | Status | Result | Amount | UserAssociation | EventAssociation

  datatype ErrorKind =
    | Blank
    | NotANumber
    | NotGreaterThanZero
    | NotIncluded
    | OnlyWhenCompleted
    | MustExist

  /** One entry of `errors`: the attribute and what is wrong with it. */
  datatype FieldError = FieldError(attribute: Attribute, kind: ErrorKind)

  /** The message a reader of `errors[attribute]` sees for each kind. */
  function Message(kind: ErrorKind): string
  {
    match kind
    case Blank => "can't be blank"
    case NotANumber => "is not a number"
    case NotGreaterThanZero => "must be greater than 0"
    case NotIncluded => "is not included in the list"
    case OnlyWhenCompleted => "can only be set when the event is completed"
    case MustExist => "must exist"
  }

  /** The ASCII whitespace characters. */
  predicate IsSpace(c: char)
  {
    c == ' ' || c == '\t' || c == '\n' || c == '\U{0B}' || c == '\U{0C}' || c == '\r'
  }

  /** A string is blank when it has no character other than whitespace. */
  predicate IsBlank(s: string)
  {
    forall i :: 0 <= i < |s| ==> IsSpace(s[i])
  }

  /** A value drawn from a vocabulary of lower-case words is never blank, so
      an included value always passes the presence rule too. */
  lemma IncludedWordIsNotBlank(allowed: set<string>, v: Option<string>)
    requires forall w :: w in allowed ==> |w| > 0 && 'a' <= w[0] <= 'z'
    ensures v.Some? && v.value in allowed ==> !IsBlank(v.value)
  {
    if v.Some? && v.value in allowed {
      assert !IsSpace(v.value[0]);
    }
  }

  /** Presence of a string attribute: neither nil nor blank. */
  function PresenceOfText(attribute: Attribute, v: Option<string>): seq<FieldError>
  {
    if v.None? || IsBlank(v.value) then [FieldError(attribute, Blank)] else []
  }

  /** Presence of a non-string attribute: not nil. */
  function PresenceOf<T>(attribute: Attribute, v: Option<T>): seq<FieldError>
  {
    if v.None? then [FieldError(attribute, Blank)] else []
  }

  /** Numericality with `greater_than: 0`; nil is not a number. */
  function GreaterThanZero(attribute: Attribute, v: Option<real>): seq<FieldError>
  {
    match v
    case None => [FieldError(attribute, NotANumber)]
    case Some(x) => if x > 0.0 then [] else [FieldError(attribute, NotGreaterThanZero)]
  }

  /** Inclusion in a fixed list; nil is not included. */
  function InclusionIn(attribute: Attribute, v: Option<string>, allowed: set<string>): seq<FieldError>
  {
    if v.None? || v.value !in allowed then [FieldError(attribute, NotIncluded)] else []
  }

  /** A required `belongs_to` association: the referenced record must exist. */
  function Exists(attribute: Attribute, key: nat, present: set<nat>): seq<FieldError>
  {
    if key in present then [] else [FieldError(attribute, MustExist)]
  }
}
