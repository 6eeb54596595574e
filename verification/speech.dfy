/**
  The generate-speech endpoint's decision, as a function of its inputs. The gates run in a
  fixed order and the first that fails ends the call: token, body, user lookup, ban, trial
  quota, speech service. Only a successful synthesis for a limited user below the increment
  ceiling writes the store. `Backend.BackendFunction.RunGenerateSpeech` computes it.
*/
module Speech {
  import opened Wrappers
  import opened Users
  import opened Cosmos
  import opened Http
  import opened Authentication

  /** The body parsed to a request whose `Input`, `Voice` and `Model` are all non-empty. */
  predicate WellFormed(body: Body)
  {
    && body.Parsed?
    && !IsNullOrEmpty(body.request.input)
    && !IsNullOrEmpty(body.request.voice)
    && !IsNullOrEmpty(body.request.model)
  }

  /** `GetUserAsync`'s treatment of a point read: NotFound becomes null, other failures escape. */
  function UserOrNull(r: ReadResult): (u: Fallible<Option<User>>)
    ensures u == Returned(None) <==> r.NotFound?
    ensures u.Threw? <==> r.StoreError?
    ensures u.Returned? && u.value.Some? <==> r.Found?
    ensures r.Found? ==> u == Returned(Some(r.user))
  {
    match r
    case Found(user) => Returned(Some(user))
    case NotFound => Returned(None)
    case StoreError => Threw
  }

  /** The guard of the trial increment after a successful synthesis. */
  predicate Charges(user: User)
  {
    user.limited && user.trialCount < INCREMENT_CEILING
  }

  /** The position of each collaborator call in the generate-speech flow; -1 for the call it never makes. */
  function SpeechStage(s: Step): int
  {
    match s
    case ValidateToken(_) => 0
    case ReadBody => 1
    case ReadUser(_) => 2
    case CallUpstream(_, _, _) => 3
    case UpsertUser(_) => 4
    case CreateUser(_) => -1
  }

  /**
    `after` is `before` charged one trial: it was limited, below both the trial maximum and the
    increment ceiling, and only its count moved, by one.
  */
  ghost predicate ChargedOnce(before: User, after: User, trialMaximum: int)
  {
    && before.limited
    && before.trialCount < trialMaximum
    && before.trialCount < INCREMENT_CEILING
    && after == before.(trialCount := before.trialCount + 1)
  }

  /** One generate-speech call with bearer token `token` against the documents `items`. */
  function GenerateSpeech(token: Option<string>, validate: Option<string> -> Validation, body: Body,
                          items: map<string, User>, reachable: bool, trialMaximum: int, reply: Reply): (o: Outcome)
    requires Keyed(items)
    ensures Keyed(o.items)
    ensures forall i :: 0 <= i < |o.steps| ==> SpeechStage(o.steps[i]) == i
    ensures o.items != items ==> o.response.File? && |o.steps| == 5
    ensures o.response.File? <==> |o.steps| >= 4 && Succeeded(reply)
  {
    var steps := [ValidateToken(token)];
    match validate(token)
    case Rejected(message) => Outcome(Unauthorized(INVALID_TOKEN, message), items, steps)
    case Validated(claims) => TokenValidated(claims, body, items, reachable, trialMaximum, reply, steps)
  }

  /** The token was accepted: check the body, then look the caller up. */
  function TokenValidated(claims: Claims, body: Body, items: map<string, User>, reachable: bool,
                          trialMaximum: int, reply: Reply, steps: seq<Step>): Outcome
    requires Keyed(items)
  {
    var steps := steps + [ReadBody];
    if !WellFormed(body) then
      Outcome(if body.Malformed? then ServerError else BadRequest(INVALID_PARAMETERS), items, steps)
    else if claims.email.None? then
      // the store rejects a null id before reading anything
      Outcome(ServerError, items, steps)
    else
      var email := claims.email.value;
      var steps := steps + [ReadUser(email)];
      match UserOrNull(Read(items, reachable, email))
      case Threw => Outcome(ServerError, items, steps)
      case Returned(None) => Outcome(UnauthorizedEmpty, items, steps)
      case Returned(Some(user)) => UserResolved(user, body.request, items, trialMaximum, reply, steps)
  }

  /** The caller's record was found: the ban and quota gates, the call, the charge. */
  function UserResolved(user: User, request: SpeechRequest, items: map<string, User>,
                        trialMaximum: int, reply: Reply, steps: seq<Step>): (o: Outcome)
    requires Keyed(items) && user.email in items && items[user.email] == user
    requires request.model.Some? && request.input.Some? && request.voice.Some?
    ensures Keyed(o.items)
    ensures o.items != items ==> o.response.File? && |o.steps| == |steps| + 2
    ensures o.response.File? <==> |o.steps| >= |steps| + 1 && Succeeded(reply)
  {
    if user.isBanned then Outcome(Forbid, items, steps)
    else if user.limited && user.trialCount >= trialMaximum then
      Outcome(BadRequest(TRIAL_LIMIT_REACHED), items, steps)
    else
      var steps := steps + [CallUpstream(request.model.value, request.input.value, request.voice.value)];
      if reply.SendFailed? then Outcome(ServerError, items, steps)
      else if !IsSuccessStatusCode(reply.status) then Outcome(Status(reply.status), items, steps)
      else
        var audio := File(AUDIO_MPEG, SPEECH_FILE_NAME, reply.audio);
        if Charges(user) then
          var user := user.(trialCount := user.trialCount + 1);
          Outcome(audio, items[user.email := user], steps + [UpsertUser(user)])
        else
          Outcome(audio, items, steps)
  }

  /**
    Generating speech creates and deletes no record, and changes at most one: the caller's,
    charged one trial while it was limited and below both the trial maximum and the ceiling.
  */
  lemma SpeechChargesAtMostOnce(token: Option<string>, validate: Option<string> -> Validation, body: Body,
                                items: map<string, User>, reachable: bool, trialMaximum: int, reply: Reply)
    requires Keyed(items)
    ensures var o := GenerateSpeech(token, validate, body, items, reachable, trialMaximum, reply);
      && o.items.Keys == items.Keys
      && (forall k :: k in items ==> o.items[k] == items[k] || ChargedOnce(items[k], o.items[k], trialMaximum))
      && (forall k, j :: k in items && j in items && o.items[k] != items[k] && o.items[j] != items[j] ==> k == j)
  {
  }

  /** The gates a call passes once the token is accepted, up to the call to the speech service. */
  predicate PassesGates(token: Option<string>, validate: Option<string> -> Validation, body: Body,
                        items: map<string, User>, trialMaximum: int, email: string)
  {
    && ValidatedEmail(token, validate, email)
    && WellFormed(body)
    && email in items
    && !items[email].isBanned
    && !(items[email].limited && items[email].trialCount >= trialMaximum)
  }

  /** A token the provider rejects ends the call with 401 and the provider's message, before the body is read. */
  lemma SpeechRejectsInvalidToken(token: Option<string>, validate: Option<string> -> Validation, body: Body,
                                  items: map<string, User>, reachable: bool, trialMaximum: int, reply: Reply)
    requires Keyed(items)
    requires validate(token).Rejected?
    ensures var o := GenerateSpeech(token, validate, body, items, reachable, trialMaximum, reply);
      && o.response == Unauthorized(INVALID_TOKEN, validate(token).message)
      && StatusOf(o.response) == 401
      && o.items == items
      && o.steps == [ValidateToken(token)]
  {
  }

  /** A null body or an empty field ends the call with 400 before the user is looked up. */
  lemma SpeechRejectsInvalidBody(token: Option<string>, validate: Option<string> -> Validation, body: Body,
                                 items: map<string, User>, reachable: bool, trialMaximum: int, reply: Reply)
    requires Keyed(items)
    requires validate(token).Validated?
    requires body.JsonNull? || (body.Parsed? && !WellFormed(body))
    ensures var o := GenerateSpeech(token, validate, body, items, reachable, trialMaximum, reply);
      && o.response == BadRequest(INVALID_PARAMETERS)
      && StatusOf(o.response) == 400
      && o.items == items
      && o.steps == [ValidateToken(token), ReadBody]
  {
  }

  /** A valid token for an email with no record gives 401: a user must authenticate first. */
  lemma SpeechUnknownUser(token: Option<string>, validate: Option<string> -> Validation, body: Body,
                          items: map<string, User>, trialMaximum: int, reply: Reply, email: string)
    requires Keyed(items)
    requires ValidatedEmail(token, validate, email) && WellFormed(body)
    requires email !in items
    ensures var o := GenerateSpeech(token, validate, body, items, true, trialMaximum, reply);
      && o.response == UnauthorizedEmpty
      && StatusOf(o.response) == 401
      && o.items == items
      && o.steps == [ValidateToken(token), ReadBody, ReadUser(email)]
  {
  }

  /** A store failure other than NotFound escapes the handler: no 401, no call, no write. */
  lemma SpeechStoreFailure(token: Option<string>, validate: Option<string> -> Validation, body: Body,
                           items: map<string, User>, trialMaximum: int, reply: Reply, email: string)
    requires Keyed(items)
    requires ValidatedEmail(token, validate, email) && WellFormed(body)
    ensures var o := GenerateSpeech(token, validate, body, items, false, trialMaximum, reply);
      && o.response == ServerError
      && o.items == items
      && |o.steps| == 3
  {
  }

  /** A banned user gets 403 whatever the trial state: no call to the speech service, no write. */
  lemma SpeechBannedUser(token: Option<string>, validate: Option<string> -> Validation, body: Body,
                         items: map<string, User>, trialMaximum: int, reply: Reply, email: string)
    requires Keyed(items)
    requires ValidatedEmail(token, validate, email) && WellFormed(body)
    requires email in items && items[email].isBanned
    ensures var o := GenerateSpeech(token, validate, body, items, true, trialMaximum, reply);
      && o.response == Forbid
      && StatusOf(o.response) == 403
      && o.items == items
      && |o.steps| == 3
  {
  }

  /** A limited user at or above the trial maximum gets 400: no call to the speech service, no write. */
  lemma SpeechTrialLimit(token: Option<string>, validate: Option<string> -> Validation, body: Body,
                         items: map<string, User>, trialMaximum: int, reply: Reply, email: string)
    requires Keyed(items)
    requires ValidatedEmail(token, validate, email) && WellFormed(body)
    requires email in items && !items[email].isBanned
    requires items[email].limited && items[email].trialCount >= trialMaximum
    ensures var o := GenerateSpeech(token, validate, body, items, true, trialMaximum, reply);
      && o.response == BadRequest(TRIAL_LIMIT_REACHED)
      && StatusOf(o.response) == 400
      && o.items == items
      && |o.steps| == 3
  {
  }

  /** A failed synthesis is answered with the service's own status, and the count is not touched. */
  lemma SpeechUpstreamFailure(token: Option<string>, validate: Option<string> -> Validation, body: Body,
                              items: map<string, User>, trialMaximum: int, reply: Reply, email: string)
    requires Keyed(items)
    requires PassesGates(token, validate, body, items, trialMaximum, email)
    requires reply.Reply? && !IsSuccessStatusCode(reply.status)
    ensures var o := GenerateSpeech(token, validate, body, items, true, trialMaximum, reply);
      var r := body.request;
      && o.response == Status(reply.status)
      && StatusOf(o.response) == reply.status
      && o.items == items
      && o.steps == [ValidateToken(token), ReadBody, ReadUser(email),
                     CallUpstream(r.model.value, r.input.value, r.voice.value)]
  {
  }

  /** A send that throws, a time-out included, escapes the handler after the one call: no write. */
  lemma SpeechSendFailure(token: Option<string>, validate: Option<string> -> Validation, body: Body,
                          items: map<string, User>, trialMaximum: int, email: string)
    requires Keyed(items)
    requires PassesGates(token, validate, body, items, trialMaximum, email)
    ensures var o := GenerateSpeech(token, validate, body, items, true, trialMaximum, SendFailed);
      var r := body.request;
      && o.response == ServerError
      && StatusOf(o.response) == 500
      && o.items == items
      && o.steps == [ValidateToken(token), ReadBody, ReadUser(email),
                     CallUpstream(r.model.value, r.input.value, r.voice.value)]
  {
  }

  /**
    A successful synthesis returns the audio as `generated_speech.mp3`; the user's count grows by
    exactly one, and the record is written, only when it is limited and below the increment ceiling.
  */
  lemma SpeechSuccess(token: Option<string>, validate: Option<string> -> Validation, body: Body,
                      items: map<string, User>, trialMaximum: int, reply: Reply, email: string)
    requires Keyed(items)
    requires PassesGates(token, validate, body, items, trialMaximum, email)
    requires Succeeded(reply)
    ensures var o := GenerateSpeech(token, validate, body, items, true, trialMaximum, reply);
      var before := items[email];
      && o.response == File(AUDIO_MPEG, SPEECH_FILE_NAME, reply.audio)
      && StatusOf(o.response) == 200
      && (before.limited && before.trialCount < INCREMENT_CEILING ==>
            && o.items == items[email := before.(trialCount := before.trialCount + 1)]
            && o.steps[4] == UpsertUser(o.items[email]))
      && (!before.limited || before.trialCount >= INCREMENT_CEILING ==>
            o.items == items && |o.steps| == 4)
  {
  }

  /** Generating speech keeps every limited user's count within the trial bound. */
  lemma SpeechKeepsUsage(token: Option<string>, validate: Option<string> -> Validation, body: Body,
                         items: map<string, User>, reachable: bool, trialMaximum: int, reply: Reply)
    requires Keyed(items) && UsageWithin(items, trialMaximum)
    ensures UsageWithin(GenerateSpeech(token, validate, body, items, reachable, trialMaximum, reply).items, trialMaximum)
  {
    var o := GenerateSpeech(token, validate, body, items, reachable, trialMaximum, reply);
    SpeechChargesAtMostOnce(token, validate, body, items, reachable, trialMaximum, reply);
    forall k | k in o.items && o.items[k].limited
      ensures 0 <= o.items[k].trialCount <= TrialBound(trialMaximum)
    {
      assert o.items[k] == items[k] || ChargedOnce(items[k], o.items[k], trialMaximum);
    }
  }

  /**
    With a trial maximum above the increment ceiling, a limited user who has used up the ceiling
    passes the quota gate and is never charged again: the same call succeeds and leaves the
    store as it was, so the trial maximum is never reached.
  */
  lemma SpeechCeilingBelowMaximum(token: Option<string>, validate: Option<string> -> Validation, body: Body,
                                  items: map<string, User>, trialMaximum: int, reply: Reply, email: string)
    requires Keyed(items)
    requires ValidatedEmail(token, validate, email) && WellFormed(body) && Succeeded(reply)
    requires trialMaximum > INCREMENT_CEILING
    requires email in items && !items[email].isBanned
    requires items[email].limited && items[email].trialCount == INCREMENT_CEILING
    ensures var o := GenerateSpeech(token, validate, body, items, true, trialMaximum, reply);
      && o.response.File?
      && o.items == items
      && o.items[email].trialCount < trialMaximum
  {
  }

  /**
    The two endpoints together: a first authentication creates the record that lets the same
    identity generate speech, and the first successful generation charges it one trial.
  */
  lemma AuthenticateThenGenerate(token: Option<string>, validate: Option<string> -> Validation, body: Body,
                                 items: map<string, User>, now: string, trialMaximum: int, reply: Reply,
                                 email: string, username: string)
    requires Keyed(items)
    requires Identified(token, validate, email, username) && email !in items
    requires WellFormed(body) && Succeeded(reply) && trialMaximum >= 1
    ensures var a := Authenticate(token, validate, items, true, now);
      var g := GenerateSpeech(token, validate, body, a.items, true, trialMaximum, reply);
      && a.response.Ok?
      && g.response == File(AUDIO_MPEG, SPEECH_FILE_NAME, reply.audio)
      && g.items[email].trialCount == 1
      && g.items == a.items[email := a.items[email].(trialCount := 1)]
  {
    var a := Authenticate(token, validate, items, true, now);
    AuthenticateNewUser(token, validate, items, now, email, username);
    SpeechSuccess(token, validate, body, a.items, trialMaximum, reply, email);
  }
}
