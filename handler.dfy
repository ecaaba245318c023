/**
 * The Lambda entry point: validates the request body, looks the user up and
 * shapes the response envelope. Every thrown error becomes a 400 carrying its message.
 */
module Handler {
  import opened Wrappers
  import opened Validation
  import opened UserStore

  /** The part of the API Gateway proxy event the handler reads. */
  datatype Event = Event(body: Option<string>)

  /** The API Gateway proxy result. */
  datatype Response = Response(statusCode: int, body: string, headers: map<string, string>)

  const JsonHeaders: map<string, string> := map["Content-Type" := "application/json"]
  const WelcomePrefix := "Welcome! "

  /** The lookup after a successful validation: the welcome text, or the error it throws. */
  function Lookup(username: string, store: Store): (r: Result<string, Failure>)
    ensures r.Ok? <==> store.Reachable? && HasActiveUser(store.table, username)
    ensures r.Ok? ==> r.value == WelcomePrefix + username
    ensures r.Err? ==> r.error == (if store.Unreachable? then StoreFailure(store.message) else InvalidUser)
  {
    match store
    case Unreachable(m) => Err(StoreFailure(m))
    case Reachable(table) =>
      ScanFindsActiveUser(table, username);
      if |Scan(table, ScanCommand(username, true))| == 0 then Err(InvalidUser)
      else Ok(WelcomePrefix + username)
  }

  /**
   * The response to a request body, given the runtime's JSON parser and the store:
   * 200 with the welcome text exactly when the body is accepted and an active user
   * with that name is stored, otherwise 400 with the first error's message; the
   * JSON content-type header in every case.
   */
  function Handle(body: Option<string>, parse: string -> ParseOutcome, store: Store): (r: Response)
    ensures r.headers == JsonHeaders
    ensures r.statusCode == 200 || r.statusCode == 400
    ensures r.statusCode == 200 <==>
      Check(body, parse).Ok? && store.Reachable? && HasActiveUser(store.table, Check(body, parse).value)
    ensures r.statusCode == 200 ==> r.body == WelcomePrefix + Check(body, parse).value
    ensures Check(body, parse).Err? ==> r.statusCode == 400 && r.body == Message(Check(body, parse).error)
    ensures Check(body, parse).Ok? && store.Unreachable? ==> r.statusCode == 400 && r.body == store.message
    ensures Check(body, parse).Ok? && store.Reachable? && !HasActiveUser(store.table, Check(body, parse).value) ==>
      r.statusCode == 400 && r.body == InvalidUserMessage
  {
    var outcome := match Check(body, parse)
      case Err(f) => Err(f)
      case Ok(username) => Lookup(username, store);
    match outcome
    case Ok(welcome) => Response(200, welcome, JsonHeaders)
    case Err(f) => Response(400, Message(f), JsonHeaders)
  }

  /** The handler as written: locals updated across a try block and its catch. */
  method LambdaHandler(event: Event, parse: string -> ParseOutcome, store: Store) returns (response: Response)
    ensures response == Handle(event.body, parse, store)
  {
    var body := "";
    var statusCode := 200;
    var headers := JsonHeaders;
    var thrown: Option<Failure> := None;

    var validator := new Validator(event.body, parse);
    var outcome := validator.Validate();
    if outcome.Err? {
      thrown := Some(outcome.error);
    } else if validator.IsValid() {
      var params := validator.GetParameters();
      var command := ScanCommand(params.username.value, true);
      match store {
        case Unreachable(m) =>
          thrown := Some(StoreFailure(m));
        case Reachable(table) =>
          var users := Scan(table, command);
          if |users| == 0 {
            thrown := Some(InvalidUser);
          } else {
            statusCode := 200;
            body := WelcomePrefix + params.username.value;
          }
      }
    }

    if thrown.Some? {
      statusCode := 400;
      body := Message(thrown.value);
    }
    response := Response(statusCode, body, headers);
  }

  /** A request for a stored active user is welcomed by name. */
  lemma WelcomeExample(text: string, parse: string -> ParseOutcome)
    requires text == "{\"username\":\"person10@x.com\"}"
    requires parse(text) == Value(Record(Some("person10@x.com")))
    ensures Handle(Some(text), parse, Reachable([UserRecord("a1", "person10@x.com", true)]))
         == Response(200, "Welcome! person10@x.com", JsonHeaders)
  {
    var name := "person10@x.com";
    assert Check(Some(text), parse) == Ok(name) by {
      assert name[8] == '@';
    }
    var table := [UserRecord("a1", name, true)];
    assert HasActiveUser(table, name) by {
      assert table[0] in table;
    }
    assert WelcomePrefix + name == "Welcome! person10@x.com";
  }

  /** A short username is refused with the length message before the store is consulted. */
  lemma ShortExample(text: string, parse: string -> ParseOutcome, store: Store)
    requires text == "{\"username\":\"short\"}"
    requires parse(text) == Value(Record(Some("short")))
    ensures Handle(Some(text), parse, store)
         == Response(400, "Username length must be min 10 chars long!", JsonHeaders)
  {
  }

  /** A stored but inactive user is not found. */
  lemma InactiveExample(text: string, parse: string -> ParseOutcome)
    requires text == "{\"username\":\"person10@x.com\"}"
    requires parse(text) == Value(Record(Some("person10@x.com")))
    ensures Handle(Some(text), parse, Reachable([UserRecord("a1", "person10@x.com", false)]))
         == Response(400, "Invalid user", JsonHeaders)
  {
  }

  /** An absent or empty body is refused with "Username Required!", whatever the parser and the store. */
  lemma EmptyBodyRefused(body: Option<string>, parse: string -> ParseOutcome, store: Store)
    requires body == None || body == Some("")
    ensures Handle(body, parse, store) == Response(400, UsernameRequired, JsonHeaders)
  {
  }

  /** The response depends on which records are stored, not on the order the scan meets them. */
  lemma HandleIgnoresTableOrder(body: Option<string>, parse: string -> ParseOutcome, t1: seq<UserRecord>, t2: seq<UserRecord>)
    requires multiset(t1) == multiset(t2)
    ensures Handle(body, parse, Reachable(t1)) == Handle(body, parse, Reachable(t2))
  {
    if Check(body, parse).Ok? {
      ScanIgnoresOrder(t1, t2, Check(body, parse).value);
    }
  }
}
