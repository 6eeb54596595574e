/** The documents of the user container and the body of a speech request. */
module Users {
  import opened Wrappers

  /** A user record as stored in the container; the field names are its JSON property names. */
  datatype User = User(
    id: string,
    email: string,
    username: string,
    limited: bool,
    trialCount: int,
    isBanned: bool,
    lastLoginDate: string,
    creationDate: string,
    authProvider: string,
    role: string)

  /** The JSON body of a generate-speech call; a property missing from the JSON is null. */
  datatype SpeechRequest = SpeechRequest(input: Option<string>, model: Option<string>, voice: Option<string>)

  const GOOGLE_PROVIDER := "Google"
  const DEFAULT_ROLE := "user"

  /** `string.IsNullOrEmpty`. */
  predicate IsNullOrEmpty(s: Option<string>)
  {
    s.None? || s.value == ""
  }

  /**
    The generate-speech handler charges a trial only while the count is below this literal,
    whatever the configured trial maximum is.
  */
  const INCREMENT_CEILING := 3

  /** The highest count a limited user can be charged up to under trial maximum `trialMaximum`. */
  function TrialBound(trialMaximum: int): int
  {
    var cap := if trialMaximum < INCREMENT_CEILING then trialMaximum else INCREMENT_CEILING;
    if cap < 0 then 0 else cap
  }

  /** Every limited user's count lies between 0 and the bound the handlers enforce. */
  ghost predicate UsageWithin(items: map<string, User>, trialMaximum: int)
  {
    forall k :: k in items && items[k].limited ==> 0 <= items[k].trialCount <= TrialBound(trialMaximum)
  }

  /** The record the authentication flow creates for an email it has never seen. */
  function NewUser(email: string, username: string, now: string): User
  {
    User(id := email, email := email, username := username, limited := true, trialCount := 0,
         isBanned := false, lastLoginDate := now, creationDate := now,
         authProvider := GOOGLE_PROVIDER, role := DEFAULT_ROLE)
  }
}
