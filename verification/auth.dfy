/** The standalone authentication function app, a copy of the backend's authenticate handler. */
module Auth {
  import opened Wrappers
  import opened Users
  import opened Cosmos
  import opened Bearer
  import opened Http
  import opened Authentication

  class AuthFunction {
    const container: Container

    constructor (container: Container)
      ensures this.container == container
    {
      this.container := container;
    }

    /**
      `Run`: `authorization` holds the values of the `Authorization` header, `validate` is the
      identity provider and `now` the UTC time at which the handler stamps the record.
    */
    method Run(authorization: seq<string>, validate: Option<string> -> Validation, now: string)
      returns (response: Response, steps: seq<Step>)
      requires container.Valid()
      modifies container
      ensures container.Valid() && container.reachable == old(container.reachable)
      ensures Outcome(response, container.items, steps)
        == Authenticate(ExtractToken(authorization), validate, old(container.items), old(container.reachable), now)
    {
      var token := ExtractToken(authorization);
      steps := [ValidateToken(token)];
      var validation := validate(token);
      if validation.Rejected? {
        response := Unauthorized(INVALID_TOKEN, validation.message);
        return;
      }
      assert Authenticate(token, validate, container.items, container.reachable, now)
        == Reconcile(validation.claims, container.items, container.reachable, now, steps);
      var email, username := validation.claims.email, validation.claims.name;
      if IsNullOrEmpty(email) || IsNullOrEmpty(username) {
        response := BadRequest(INVALID_PAYLOAD);
        return;
      }

      steps := steps + [ReadUser(email.value)];
      match container.ReadItem(email.value) {
        case StoreError =>
          response := ServerError;
          return;
        case Found(user) =>
          var user := user.(lastLoginDate := now);
          container.UpsertItem(user);
          steps := steps + [UpsertUser(user)];
        case NotFound =>
          var user := NewUser(email.value, username.value, now);
          container.CreateItem(user);
          steps := steps + [CreateUser(user)];
      }
      response := Ok(AUTH_HANDLED);
    }
  }
}
