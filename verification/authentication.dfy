/**
  The authenticate endpoint's decision, as a function of its inputs: validate the bearer token
  (`Bearer.ExtractToken` of the `Authorization` header),
  insist on an email and a name, then refresh the login date of the user's record or create the
  record. `Backend.BackendFunction.RunAuth` and `Auth.AuthFunction.Run` both compute it.
*/
module Authentication {
  import opened Wrappers
  import opened Users
  import opened Cosmos
  import opened Http

  /** The position of each collaborator call in the authenticate flow; -1 for calls it never makes. */
  function AuthStage(s: Step): int
  {
    match s
    case ValidateToken(_) => 0
    case ReadUser(_) => 1
    case UpsertUser(_) => 2
    case CreateUser(_) => 2
    case ReadBody => -1
    case CallUpstream(_, _, _) => -1
  }

  /** The provider vouched for a non-empty email and a non-empty name. */
  predicate Identified(token: Option<string>, validate: Option<string> -> Validation, email: string, username: string)
  {
    && validate(token) == Validated(Claims(Some(email), Some(username)))
    && email != "" && username != ""
  }

  /** One authenticate call with bearer token `token` against the documents `items` at time `now`. */
  function Authenticate(token: Option<string>, validate: Option<string> -> Validation,
                        items: map<string, User>, reachable: bool, now: string): (o: Outcome)
    requires Keyed(items)
    ensures Keyed(o.items)
    ensures forall i :: 0 <= i < |o.steps| ==> AuthStage(o.steps[i]) == i
    ensures o.response.Ok? <==> |o.steps| == 3
    ensures o.response.Ok? ==> o.response.message == AUTH_HANDLED
    ensures !o.response.Ok? ==> o.items == items
    ensures items.Keys <= o.items.Keys
  {
    var steps := [ValidateToken(token)];
    match validate(token)
    case Rejected(message) => Outcome(Unauthorized(INVALID_TOKEN, message), items, steps)
    case Validated(claims) => Reconcile(claims, items, reachable, now, steps)
  }

  /** The token was accepted: check the claims, then refresh or create the caller's record. */
  function Reconcile(claims: Claims, items: map<string, User>, reachable: bool, now: string,
                     steps: seq<Step>): Outcome
    requires Keyed(items)
  {
    if IsNullOrEmpty(claims.email) || IsNullOrEmpty(claims.name) then
      Outcome(BadRequest(INVALID_PAYLOAD), items, steps)
    else
      var email, username := claims.email.value, claims.name.value;
      var steps := steps + [ReadUser(email)];
      match Read(items, reachable, email)
      case StoreError => Outcome(ServerError, items, steps)
      case Found(user) =>
        var user := user.(lastLoginDate := now);
        Outcome(Ok(AUTH_HANDLED), items[email := user], steps + [UpsertUser(user)])
      case NotFound =>
        var user := NewUser(email, username, now);
        Outcome(Ok(AUTH_HANDLED), items[email := user], steps + [CreateUser(user)])
  }

  /** A token the provider rejects ends the call with 401 and the provider's message, before any store access. */
  lemma AuthenticateRejectsInvalidToken(token: Option<string>, validate: Option<string> -> Validation,
                                        items: map<string, User>, reachable: bool, now: string)
    requires Keyed(items)
    requires validate(token).Rejected?
    ensures var o := Authenticate(token, validate, items, reachable, now);
      && o.response == Unauthorized(INVALID_TOKEN, validate(token).message)
      && StatusOf(o.response) == 401
      && o.items == items
      && o.steps == [ValidateToken(token)]
  {
  }

  /** A null or empty email or name ends the call with 400, before any store access. */
  lemma AuthenticateRejectsMissingClaims(token: Option<string>, validate: Option<string> -> Validation,
                                         items: map<string, User>, reachable: bool, now: string)
    requires Keyed(items)
    requires validate(token).Validated?
    requires var c := validate(token).claims; IsNullOrEmpty(c.email) || IsNullOrEmpty(c.name)
    ensures var o := Authenticate(token, validate, items, reachable, now);
      && o.response == BadRequest(INVALID_PAYLOAD)
      && StatusOf(o.response) == 400
      && o.items == items
      && o.steps == [ValidateToken(token)]
  {
  }

  /** A known user gets a new login date and nothing else of the record changes. */
  lemma AuthenticateExistingUser(token: Option<string>, validate: Option<string> -> Validation,
                                 items: map<string, User>, now: string, email: string, username: string)
    requires Keyed(items) && Identified(token, validate, email, username)
    requires email in items
    ensures var o := Authenticate(token, validate, items, true, now);
      && o.response == Ok(AUTH_HANDLED)
      && o.items == items[email := items[email].(lastLoginDate := now)]
      && o.steps[2] == UpsertUser(o.items[email])
      && var (before, after) := (items[email], o.items[email]);
         && after.lastLoginDate == now
         && after.trialCount == before.trialCount && after.isBanned == before.isBanned
         && after.limited == before.limited && after.role == before.role
         && after.creationDate == before.creationDate && after.username == before.username
         && after.authProvider == before.authProvider && after.email == before.email
  {
  }

  /** An unknown email gets a fresh record with the default quota state. */
  lemma AuthenticateNewUser(token: Option<string>, validate: Option<string> -> Validation,
                            items: map<string, User>, now: string, email: string, username: string)
    requires Keyed(items) && Identified(token, validate, email, username)
    requires email !in items
    ensures var o := Authenticate(token, validate, items, true, now);
      && o.response == Ok(AUTH_HANDLED)
      && o.items == items[email := o.items[email]]
      && o.steps[2] == CreateUser(o.items[email])
      && var u := o.items[email];
         && u.id == email && u.email == email && u.username == username
         && u.limited && u.trialCount == 0 && !u.isBanned
         && u.lastLoginDate == now && u.creationDate == now
         && u.authProvider == "Google" && u.role == "user"
  {
  }

  /** After a successful call there is one record under the email, and every other record is as it was. */
  lemma AuthenticateTouchesOneRecord(token: Option<string>, validate: Option<string> -> Validation,
                                     items: map<string, User>, reachable: bool, now: string,
                                     email: string, username: string)
    requires Keyed(items) && Identified(token, validate, email, username)
    ensures var o := Authenticate(token, validate, items, reachable, now);
      o.response.Ok? ==>
        && email in o.items && o.items[email].id == email && o.items[email].email == email
        && o.items.Keys == items.Keys + {email}
        && forall k :: k in items && k != email ==> o.items[k] == items[k]
  {
  }

  /** Only a NotFound read creates; any other store failure escapes and the call does not answer 200. */
  lemma AuthenticateStoreFailure(token: Option<string>, validate: Option<string> -> Validation,
                                 items: map<string, User>, now: string, email: string, username: string)
    requires Keyed(items) && Identified(token, validate, email, username)
    ensures var o := Authenticate(token, validate, items, false, now);
      && o.response == ServerError && StatusOf(o.response) != 200
      && o.items == items
      && o.steps == [ValidateToken(token), ReadUser(email)]
  {
  }

  /** Whatever the inputs, a record is created only when the store answered NotFound for its email. */
  lemma AuthenticateCreatesOnlyUnknown(token: Option<string>, validate: Option<string> -> Validation,
                                       items: map<string, User>, reachable: bool, now: string)
    requires Keyed(items)
    ensures var o := Authenticate(token, validate, items, reachable, now);
      forall i :: 0 <= i < |o.steps| && o.steps[i].CreateUser? ==>
        Read(items, reachable, o.steps[i].user.email).NotFound?
  {
  }

  /** Authentication keeps every limited user's count within the trial bound. */
  lemma AuthenticateKeepsUsage(token: Option<string>, validate: Option<string> -> Validation,
                               items: map<string, User>, reachable: bool, now: string, trialMaximum: int)
    requires Keyed(items) && UsageWithin(items, trialMaximum)
    ensures UsageWithin(Authenticate(token, validate, items, reachable, now).items, trialMaximum)
  {
  }

  /** Authenticating again only moves the login date: the record is the first call's with the new date. */
  lemma AuthenticateTwice(token: Option<string>, validate: Option<string> -> Validation,
                          items: map<string, User>, first: string, second: string,
                          email: string, username: string)
    requires Keyed(items) && Identified(token, validate, email, username)
    ensures var o1 := Authenticate(token, validate, items, true, first);
      var o2 := Authenticate(token, validate, o1.items, true, second);
      && o2.response == Ok(AUTH_HANDLED)
      && email in o1.items
      && o2.items == o1.items[email := o1.items[email].(lastLoginDate := second)]
  {
  }
}
