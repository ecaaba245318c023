/**
 * The request validator of the forgot-password handler: a checker built over the
 * raw request body that runs four ordered rules and stops at the first that fails.
 */
module Validation {
  import opened Wrappers

  /** What a successful parse of the body yields, as far as `validate` looks at it. */
  datatype Parsed =
    | NullValue                         // the JSON text `null`
    | Record(username: Option<string>)  // any other JSON value; None = `username` absent or a falsy non-string

  /** The outcome of the JSON parser on the body text. */
  datatype ParseOutcome =
    | SyntaxError(message: string)      // the parser throws
    | Value(parsed: Parsed)

  /** Every way an invocation can fail; each carries the message the caller sees. */
  datatype Failure =
    | MissingInput              // absent or empty body
    | MalformedInput(message: string)  // the JSON parser threw
    | NullPayload               // the body parsed to `null`, so reading `username` threw
    | MissingField              // `username` absent or falsy
    | TooShort                  // fewer than 10 characters
    | NotAnEmail                // no '@'
    | InvalidUser               // no active user with that name
    | StoreFailure(message: string)  // the store call threw

  const UsernameRequired := "Username Required!"
  const LengthMessage := "Username length must be min 10 chars long!"
  const EmailMessage := "Username must be an email address!"
  const InvalidUserMessage := "Invalid user"
  /** The TypeError the Node.js runtime raises when reading a property of `null`. */
  const NullAccessMessage := "Cannot read properties of null (reading 'username')"

  const MinLength := 10

  /** The text of the error thrown for a failure. */
  function Message(f: Failure): string
  {
    match f
    case MissingInput => UsernameRequired
    case MissingField => UsernameRequired
    case MalformedInput(m) => m
    case NullPayload => NullAccessMessage
    case TooShort => LengthMessage
    case NotAnEmail => EmailMessage
    case InvalidUser => InvalidUserMessage
    case StoreFailure(m) => m
  }

  /** A failure whose text the source fixes, rather than taking it from the parser or the store. */
  predicate Fixed(f: Failure)
  {
    !f.MalformedInput? && !f.StoreFailure?
  }

  /**
   * The fixed texts tell the failures apart: two fixed failures with the same
   * text are the same, except the missing body and the missing username, which share one.
   */
  lemma MessagesDistinct(f: Failure, g: Failure)
    requires Fixed(f) && Fixed(g) && Message(f) == Message(g)
    ensures f == g || {f, g} <= {MissingInput, MissingField}
  {
  }

  /** JavaScript truthiness of the body: `null` and `""` are falsy. */
  predicate Truthy(body: Option<string>)
  {
    body.Some? && body.value != ""
  }

  /** JavaScript truthiness of the parsed `username`. */
  predicate Present(username: Option<string>)
  {
    username.Some? && username.value != ""
  }

  /** The two business rules on a present username. */
  predicate WellFormed(username: string)
  {
    |username| >= MinLength && '@' in username
  }

  /** A username the validator accepts. */
  predicate Passes(username: Option<string>)
  {
    Present(username) && WellFormed(username.value)
  }

  /**
   * What `validate` decides for a body: the validated username, or the first
   * failing rule. Each outcome is characterised by exactly the rules that hold
   * before it and the one that fails.
   */
  function Check(body: Option<string>, parse: string -> ParseOutcome): (r: Result<string, Failure>)
    ensures r.Ok? <==>
      Truthy(body) && parse(body.value).Value? && parse(body.value).parsed.Record?
      && Passes(parse(body.value).parsed.username)
    ensures r.Ok? ==> Some(r.value) == parse(body.value).parsed.username && WellFormed(r.value)
    ensures r == Err(MissingInput) <==> !Truthy(body)
    ensures (exists m :: r == Err(MalformedInput(m))) <==> Truthy(body) && parse(body.value).SyntaxError?
    ensures r.Err? && r.error.MalformedInput? ==> r.error.message == parse(body.value).message
    ensures r == Err(NullPayload) <==> Truthy(body) && parse(body.value) == Value(NullValue)
    ensures r == Err(MissingField) <==>
      Truthy(body) && parse(body.value).Value? && parse(body.value).parsed.Record?
      && !Present(parse(body.value).parsed.username)
    ensures r == Err(TooShort) <==>
      Truthy(body) && parse(body.value).Value? && parse(body.value).parsed.Record?
      && Present(parse(body.value).parsed.username) && |parse(body.value).parsed.username.value| < MinLength
    ensures r == Err(NotAnEmail) <==>
      Truthy(body) && parse(body.value).Value? && parse(body.value).parsed.Record?
      && Present(parse(body.value).parsed.username) && |parse(body.value).parsed.username.value| >= MinLength
      && '@' !in parse(body.value).parsed.username.value
    ensures r.Err? ==> !r.error.InvalidUser? && !r.error.StoreFailure?
  {
    if !Truthy(body) then Err(MissingInput)
    else
      match parse(body.value)
      case SyntaxError(m) => Err(MalformedInput(m))
      case Value(NullValue) => Err(NullPayload)
      case Value(Record(username)) =>
        if !Present(username) then Err(MissingField)
        else if |username.value| < MinLength then Err(TooShort)
        else if '@' !in username.value then Err(NotAnEmail)
        else Ok(username.value)
  }

  /** The parameters `validate` leaves stored: the parser only runs on a truthy body and assigns only when it returns. */
  function ParamsAfter(was: Parsed, body: Option<string>, parse: string -> ParseOutcome): (p: Parsed)
    ensures Check(body, parse).Ok? ==> p == Record(Some(Check(body, parse).value))
    ensures Check(body, parse) == Err(MissingInput) ==> p == was
    ensures Check(body, parse).Err? && Check(body, parse).error.MalformedInput? ==> p == was
    ensures Check(body, parse) == Err(NullPayload) ==> p == NullValue
    ensures Check(body, parse).Err? && Check(body, parse).error in {MissingField, TooShort, NotAnEmail} ==>
      p.Record? && p == parse(body.value).parsed
  {
    if Truthy(body) && parse(body.value).Value? then parse(body.value).parsed else was
  }

  /**
   * The validity flag `validate` leaves: an exception raised by the parser, or by
   * reading `username` of `null`, propagates before any rule resets the flag.
   */
  function FlagAfter(was: bool, body: Option<string>, parse: string -> ParseOutcome): (b: bool)
    ensures Check(body, parse).Ok? ==> b
    ensures Check(body, parse).Err? && Check(body, parse).error in {MissingInput, MissingField, TooShort, NotAnEmail} ==> !b
    ensures Check(body, parse).Err? && (Check(body, parse).error.MalformedInput? || Check(body, parse).error == NullPayload) ==>
      b == was
  {
    if Truthy(body) && (parse(body.value).SyntaxError? || parse(body.value) == Value(NullValue)) then was
    else Check(body, parse).Ok?
  }

  /**
   * On a validator whose flag is false, as after construction, or already agrees
   * with the verdict, the flag ends true exactly on success, so any failure leaves it false.
   */
  lemma FreshFlag(flag: bool, body: Option<string>, parse: string -> ParseOutcome)
    requires flag ==> Check(body, parse).Ok?
    ensures FlagAfter(flag, body, parse) <==> Check(body, parse).Ok?
  {
  }

  /** Validating the same body twice leaves the same flag and parameters as validating it once. */
  lemma ValidateIdempotent(was: Parsed, flag: bool, body: Option<string>, parse: string -> ParseOutcome)
    ensures FlagAfter(FlagAfter(flag, body, parse), body, parse) == FlagAfter(flag, body, parse)
    ensures ParamsAfter(ParamsAfter(was, body, parse), body, parse) == ParamsAfter(was, body, parse)
  {
  }

  class Validator {
    /** The JSON parser the runtime provides; the same function on every call. */
    const parse: string -> ParseOutcome
    var body: Option<string>
    var validity: bool
    var params: Parsed

    /** A true flag means the body was accepted and the stored parameters are its parse. */
    ghost predicate Valid()
      reads this
    {
      validity ==> Check(body, parse).Ok? && params == parse(body.value).parsed
    }

    constructor (body: Option<string>, parse: string -> ParseOutcome)
      ensures Valid()
      ensures this.body == body && this.parse == parse
      ensures !validity && params == Record(None)
    {
      this.parse := parse;
      this.body := body;
      validity := false;
      params := Record(None);
    }

    /** Runs the four rules in order; the first failing one aborts with its message. */
    method Validate() returns (outcome: Result<(), Failure>)
      requires Valid()
      modifies this`validity, this`params
      ensures Valid()
      ensures outcome.Ok? <==> Check(body, parse).Ok?
      ensures outcome.Err? ==> outcome.error == Check(body, parse).error
      ensures validity == FlagAfter(old(validity), body, parse)
      ensures params == ParamsAfter(old(params), body, parse)
    {
      if !Truthy(body) {
        validity := false;
        return Err(MissingInput);
      }
      var parsed := parse(body.value);
      if parsed.SyntaxError? {
        return Err(MalformedInput(parsed.message));
      }
      params := parsed.parsed;
      if params.NullValue? {
        return Err(NullPayload);
      }
      if !Present(params.username) {
        validity := false;
        return Err(MissingField);
      }
      if |params.username.value| < MinLength {
        validity := false;
        return Err(TooShort);
      }
      if '@' !in params.username.value {
        validity := false;
        return Err(NotAnEmail);
      }
      validity := true;
      return Ok(());
    }

    /** The stored parameters; when the flag is set they hold an accepted username. */
    function GetParameters(): (p: Parsed)
      requires Valid()
      reads this
      ensures validity ==> p.Record? && Passes(p.username) && Check(body, parse) == Ok(p.username.value)
    {
      params
    }

    /** The stored flag; true only if the stored parameters passed every rule. */
    function IsValid(): (b: bool)
      requires Valid()
      reads this
      ensures b ==> Check(body, parse).Ok? && params == parse(body.value).parsed
    {
      validity
    }
  }
}
