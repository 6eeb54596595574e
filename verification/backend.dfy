/**
  The backend function app: the generate-speech and authenticate handlers over the user
  container. Each handler is proved to compute the corresponding pure decision
  (`Speech.GenerateSpeech`, `Authentication.Authenticate`) on the header's bearer token.
*/
module Backend {
  import opened Wrappers
  import opened Users
  import opened Cosmos
  import opened Bearer
  import opened Http
  import opened Authentication
  import opened Speech

  class BackendFunction {
    const container: Container
    /** The `TrialMaximum` setting, read once. */
    const trialMaximum: int

    constructor (container: Container, trialMaximum: int)
      ensures this.container == container && this.trialMaximum == trialMaximum
    {
      this.container := container;
      this.trialMaximum := trialMaximum;
    }

    /** `GetUserAsync`: the stored user, null when the store answers NotFound; other failures escape. */
    function GetUser(email: string): (u: Fallible<Option<User>>)
      reads container
      ensures u.Threw? <==> !container.reachable
      ensures u == Returned(None) <==> container.reachable && email !in container.items
      ensures u.Returned? && u.value.Some? ==> email in container.items && u.value.value == container.items[email]
    {
      UserOrNull(container.ReadItem(email))
    }

    /**
      `RunGenerateSpeech`: `authorization` holds the values of the `Authorization` header,
      `validate` is the identity provider, `body` the deserialized request body and `reply` what
      the speech service answers when it is called.
    */
    method RunGenerateSpeech(authorization: seq<string>, validate: Option<string> -> Validation, body: Body, reply: Reply)
      returns (response: Response, steps: seq<Step>)
      requires container.Valid()
      modifies container
      ensures container.Valid() && container.reachable == old(container.reachable)
      ensures Outcome(response, container.items, steps)
        == GenerateSpeech(ExtractToken(authorization), validate, body,
                          old(container.items), old(container.reachable), trialMaximum, reply)
    {
      var token := ExtractToken(authorization);
      steps := [ValidateToken(token)];
      var validation := validate(token);
      if validation.Rejected? {
        response := Unauthorized(INVALID_TOKEN, validation.message);
        return;
      }

      ghost var items, reachable := container.items, container.reachable;
      assert GenerateSpeech(token, validate, body, items, reachable, trialMaximum, reply)
        == TokenValidated(validation.claims, body, items, reachable, trialMaximum, reply, steps);
      steps := steps + [ReadBody];
      if body.Malformed? {
        // the deserializer throws
        response := ServerError;
        return;
      }
      if body.JsonNull? || IsNullOrEmpty(body.request.input) ||
         IsNullOrEmpty(body.request.voice) || IsNullOrEmpty(body.request.model)
      {
        response := BadRequest(INVALID_PARAMETERS);
        return;
      }
      var request := body.request;

      if validation.claims.email.None? {
        // the store rejects a null id
        response := ServerError;
        return;
      }
      var email := validation.claims.email.value;
      steps := steps + [ReadUser(email)];
      var fetched := GetUser(email);
      if fetched.Threw? {
        response := ServerError;
        return;
      }
      if fetched.value.None? {
        response := UnauthorizedEmpty;
        return;
      }
      var user := fetched.value.value;
      assert GenerateSpeech(token, validate, body, items, reachable, trialMaximum, reply)
        == UserResolved(user, request, items, trialMaximum, reply, steps);
      if user.isBanned {
        response := Forbid;
        return;
      }
      if user.limited && user.trialCount >= trialMaximum {
        response := BadRequest(TRIAL_LIMIT_REACHED);
        return;
      }

      steps := steps + [CallUpstream(request.model.value, request.input.value, request.voice.value)];
      if reply.SendFailed? {
        // `SendAsync` threw: the exception escapes the handler
        response := ServerError;
        return;
      }
      if !IsSuccessStatusCode(reply.status) {
        response := Status(reply.status);
        return;
      }

      if user.limited && user.trialCount < INCREMENT_CEILING {
        user := user.(trialCount := user.trialCount + 1);
        container.UpsertItem(user);
        steps := steps + [UpsertUser(user)];
      }
      response := File(AUDIO_MPEG, SPEECH_FILE_NAME, reply.audio);
    }

    /** `RunAuth`: `now` is the UTC time at which the handler stamps the record. */
    method RunAuth(authorization: seq<string>, validate: Option<string> -> Validation, now: string)
      returns (response: Response, steps: seq<Step>)
      requires container.Valid()
      modifies container
      ensures container.Valid() && container.reachable == old(container.reachable)
      ensures Outcome(response, container.items, steps)
        == Authenticate(ExtractToken(authorization), validate, old(container.items), old(container.reachable), now)
    {
      var token := ExtractToken(authorization);
      steps := [ValidateToken(token)];
      var validation := validate(token);
      if validation.Rejected? {
        response := Unauthorized(INVALID_TOKEN, validation.message);
        return;
      }
      assert Authenticate(token, validate, container.items, container.reachable, now)
        == Reconcile(validation.claims, container.items, container.reachable, now, steps);
      var email, username := validation.claims.email, validation.claims.name;
      if IsNullOrEmpty(email) || IsNullOrEmpty(username) {
        response := BadRequest(INVALID_PAYLOAD);
        return;
      }

      steps := steps + [ReadUser(email.value)];
      match container.ReadItem(email.value) {
        case StoreError =>
          response := ServerError;
          return;
        case Found(user) =>
          var user := user.(lastLoginDate := now);
          container.UpsertItem(user);
          steps := steps + [UpsertUser(user)];
        case NotFound =>
          var user := NewUser(email.value, username.value, now);
          container.CreateItem(user);
          steps := steps + [CreateUser(user)];
      }
      response := Ok(AUTH_HANDLED);
    }
  }
}
