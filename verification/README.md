# VGen backend: request gate and user records

A Dafny model of the two HTTP handlers of the VGen voice-generation backend (Azure Functions, C#):

- **generate-speech** (`BackendFunction.RunGenerateSpeech`) takes the bearer token from the
  `Authorization` header and has the identity provider validate it. It reads the JSON body and
  looks the caller up in the user container. It then applies the ban and trial-quota gates, calls
  the speech service and, on success, charges a limited user one trial. The audio goes back as
  `audio/mpeg`, named `generated_speech.mp3`.
- **authenticate** (`BackendFunction.RunAuth`, and its copy `AuthFunction.Run`) validates the
  token and insists on an email and a name. It then refreshes the login date of the caller's
  record, or creates the record with the default quota state.

Each handler is a method on a class that holds the user container (`Cosmos.Container`, a
`map` from email to `User` plus a flag for an unreachable store). Each is proved to compute a
pure decision function (`Speech.GenerateSpeech`, `Authentication.Authenticate`) of the extracted
token and the container's documents. That function returns the response, the documents
afterwards and the ordered list of collaborator calls made (`Http.Step`). The ordering
guarantees ("no upstream call and no write before the gates pass") are stated on that list.

The collaborators are inputs:
- the identity provider is a function `validate` from the token to claims or an error message;
- the deserialized body is `Http.Body` (malformed JSON, `null`, or a request whose fields may be null);
- the speech service's answer is `Http.Reply` (status code and audio bytes);
- the clock is the string `now`;
- the `TrialMaximum` setting is a constant of `BackendFunction`.

The quota gate compares the count against `TrialMaximum` (`BackendFunction.cs:84`), but the
increment guard uses the literal `3` (`BackendFunction.cs:116`, `Users.INCREMENT_CEILING`). The
model follows the code. `Speech.SpeechCeilingBelowMaximum` proves what the literal implies: with a trial
maximum above 3, a limited user who has used 3 trials passes the quota gate every time and is
never charged again.

## Model

| member | source | states |
|---|---|---|
| Bearer.Split | VGen.Backend/VGen.Backend/BackendFunction.cs:45 | `Split(" ")` gives at least one piece, no piece contains the separator, and joining the pieces gives back the input |
| Bearer.SplitJoin | VGen.Backend/VGen.Backend/BackendFunction.cs:45 | splitting a join of separator-free pieces gives back those pieces: `Split` and `Join` are inverse |
| Bearer.ExtractToken | VGen.Backend/VGen.Backend/BackendFunction.cs:44-45 | the token is absent exactly when the header has no value; otherwise it is the longest space-free suffix of the first value, starting at the value's start or right after a space; a value without spaces is returned whole |
| Bearer.SchemeAndToken | VGen.Backend/VGen.Backend.Auth/AuthFunction.cs:38-39 | for `"<scheme> <token>"` with no space in either part, the extracted token is `<token>` |
| Speech.UserOrNull | VGen.Backend/VGen.Backend/BackendFunction.cs:204-215 | only a NotFound read becomes null; any other store failure escapes; a found record is returned as is |
| Backend.BackendFunction.GetUser | VGen.Backend/VGen.Backend/BackendFunction.cs:204-215 | the lookup throws exactly when the store is unreachable, gives null exactly when the email has no record, and otherwise gives the stored record |
| Speech.GenerateSpeech | VGen.Backend/VGen.Backend/BackendFunction.cs:37-132 | collaborator calls happen in the fixed order token, body, user read, speech service, upsert, each at most once, and no other call is made; the store changes only on a 200 audio response after all five calls; the response is audio exactly when the speech service was called and succeeded; documents stay keyed by email |
| Speech.SpeechRejectsInvalidToken | VGen.Backend/VGen.Backend/BackendFunction.cs:47-59 | a rejected token gives 401 with "Invalid token." and the validator's message; only the validation call happens and the store is unchanged |
| Speech.SpeechRejectsInvalidBody | VGen.Backend/VGen.Backend/BackendFunction.cs:63-70 | a null body or an empty or null `Input`, `Voice` or `Model` gives 400 "Invalid request parameters." before any user read, speech call or write |
| Speech.SpeechUnknownUser | VGen.Backend/VGen.Backend/BackendFunction.cs:73-77 | a valid token for an email with no record gives 401 with no speech call and no write |
| Speech.SpeechStoreFailure | VGen.Backend/VGen.Backend/BackendFunction.cs:204-215 | a store failure other than NotFound escapes as a server error; no speech call and no write |
| Speech.SpeechBannedUser | VGen.Backend/VGen.Backend/BackendFunction.cs:79-82 | a banned user gets 403 whatever the trial count; no speech call and no write |
| Speech.SpeechTrialLimit | VGen.Backend/VGen.Backend/BackendFunction.cs:84-87 | a limited, non-banned user with `TrialCount >= TrialMaximum` gets 400 "Trial limit reached."; no speech call and no write |
| Speech.SpeechUpstreamFailure | VGen.Backend/VGen.Backend/BackendFunction.cs:107-113 | once the gates pass, a non-2xx status from the speech service is returned unchanged after exactly one call carrying the request's model, input and voice; the store is unchanged |
| Speech.SpeechSendFailure | VGen.Backend/VGen.Backend/BackendFunction.cs:107 | once the gates pass, a `SendAsync` that throws (transport failure or time-out) escapes as a server error after exactly one call carrying the request's model, input and voice; the store is unchanged |
| Speech.SpeechSuccess | VGen.Backend/VGen.Backend/BackendFunction.cs:115-131 | on success the response is the service's audio as `audio/mpeg` named `generated_speech.mp3`; a limited user below 3 has the count raised by exactly one and the record upserted; any other user's record is not written |
| Speech.SpeechChargesAtMostOnce | VGen.Backend/VGen.Backend/BackendFunction.cs:115-120 | no record is created or deleted; at most one record changes, and only by a one-trial charge of a limited user below both the trial maximum and 3 |
| Speech.SpeechKeepsUsage | VGen.Backend/VGen.Backend/BackendFunction.cs:84-120 | if every limited user's count lies in `0..max(0, min(TrialMaximum, 3))` before a call, it still does after the call |
| Speech.SpeechCeilingBelowMaximum | VGen.Backend/VGen.Backend/BackendFunction.cs:84-120 | with `TrialMaximum > 3`, a limited user at count 3 gets audio and the store is left as it was, so the count never reaches the maximum |
| Speech.AuthenticateThenGenerate | VGen.Backend/VGen.Backend/BackendFunction.cs:73-120 | when the provider accepts the token on both calls, a first authentication creates the record that lets the same identity pass the user gate; the first successful generation then leaves the count at 1 |
| Backend.BackendFunction.RunGenerateSpeech | VGen.Backend/VGen.Backend/BackendFunction.cs:37-132 | the handler's response, trace and new documents are `GenerateSpeech` of the header's token and the old documents; the store stays keyed and its reachability is unchanged |
| Authentication.Authenticate | VGen.Backend/VGen.Backend.Auth/AuthFunction.cs:30-98 | calls happen in the order validation, read, write, with no body read and no speech call; the response is 200 "Authentication handled successfully." exactly when all three happen; every other response leaves the store unchanged; no record is removed; documents stay keyed |
| Authentication.AuthenticateRejectsInvalidToken | VGen.Backend/VGen.Backend.Auth/AuthFunction.cs:41-54 | a rejected token gives 401 with "Invalid token." and the validator's message; the store is not touched |
| Authentication.AuthenticateRejectsMissingClaims | VGen.Backend/VGen.Backend.Auth/AuthFunction.cs:57-60 | a null or empty email or name gives 400 "Invalid request payload."; the store is not touched |
| Authentication.AuthenticateExistingUser | VGen.Backend/VGen.Backend.Auth/AuthFunction.cs:65-73 | for a known email, the upserted record is the stored one with only `lastLoginDate` set to `now`; count, ban, limit, role, creation date, name and provider are kept |
| Authentication.AuthenticateNewUser | VGen.Backend/VGen.Backend.Auth/AuthFunction.cs:75-92 | for an unknown email, the created record has id and email equal to the email, the given name, limited, count 0, not banned, provider "Google", role "user" and both dates `now` |
| Authentication.AuthenticateTouchesOneRecord | VGen.Backend/VGen.Backend.Auth/AuthFunction.cs:62-97 | after a 200, the store holds one record under the email, keyed by it; the key set gains at most that email; every other record is unchanged |
| Authentication.AuthenticateStoreFailure | VGen.Backend/VGen.Backend.Auth/AuthFunction.cs:62-75 | a store failure other than NotFound escapes: the call does not answer 200, creates nothing and writes nothing |
| Authentication.AuthenticateCreatesOnlyUnknown | VGen.Backend/VGen.Backend.Auth/AuthFunction.cs:75-92 | a record is created only when the read of its email answered NotFound |
| Authentication.AuthenticateKeepsUsage | VGen.Backend/VGen.Backend.Auth/AuthFunction.cs:62-94 | authentication keeps every limited user's count within the trial bound |
| Authentication.AuthenticateTwice | VGen.Backend/VGen.Backend.Auth/AuthFunction.cs:62-97 | when the provider accepts the token on both calls, a second authentication of the same identity answers 200; the resulting record is the first call's record with the second call's login date |
| Backend.BackendFunction.RunAuth | VGen.Backend/VGen.Backend/BackendFunction.cs:135-202 | the handler's response, trace and new documents are `Authenticate` of the header's token and the old documents |
| Auth.AuthFunction.Run | VGen.Backend/VGen.Backend.Auth/AuthFunction.cs:30-98 | the handler's response, trace and new documents are `Authenticate` of the header's token and the old documents |

## Left out

- Token validation: the Google ID-token checks of `GoogleJsonWebSignature.ValidateAsync` (signature, audience, expiry) are foreign code. They are the input `validate`; a thrown exception is `Rejected(message)`.
- Store lifecycle: the Cosmos client, database and container set-up in the constructors and the `Dispose()` calls are resource handling. The model's constructors only take a container.
- Speech service: building the HTTP request is network plumbing (URL, JSON payload, the service's own API key). So is copying the response stream into memory. The call is a `CallUpstream(model, input, voice)` step, and its answer is an input `Reply`: a status and audio, or `SendFailed` when the send throws. A failure while copying the audio stream, which comes after the upsert, is not modelled: the model's success path always answers with the audio.
- JSON: deserializing the body is the input `Http.Body`. Malformed JSON makes the deserializer throw, which the model reports as `ServerError`.
- Clock: `DateTime.UtcNow.ToString("o")` is the string `now`. The new-record path reads the clock twice; the model uses one instant for both dates. Nothing is claimed about timestamps growing over time.
- Configuration: the environment variables, including `TrialMaximum` (a missing value converts to 0), are constructor arguments.
- Concurrency: two requests from one user can race on the trial count (read, then increment, then write). A sequential model cannot show this.
- Logging calls are left out.
- The `Old/` Python application and the Python scripts and services (sqlite, password hashing, JWT encoding, file I/O) are not part of this model.
- Cosmos.Container.UpsertItem: a store failure during the write itself, after a successful read, is not modelled. The writes require a reachable store.
- Cosmos.Container.CreateItem: a create conflict is not modelled, because the handlers create only after a NotFound read.
- Documents whose `id` differs from their `email` are not represented. `Container.Valid()` keys every document by an email equal to its id.
- `RunAuth` and `Run` wrap the upsert in the same NotFound handler as the read. A NotFound raised by the upsert itself would lead to a create; this path is not modelled.
- Speech.GenerateSpeech: a validated token whose email claim is null reaches the store as a null id. The Cosmos SDK rejects that with an exception, which the model reports as `ServerError` without a read step.
- `ForbidResult` is taken to answer 403. The actual status depends on the authentication scheme the host configures.
- `TrialCount` is an unbounded `int`. The 32-bit increment cannot wrap, because it happens only below 3.
- Authentication.AuthenticateTwice: both calls use one `validate`, so the second call's acceptance of the token is assumed; the provider can reject it the second time (an expired token, a network failure).
- Speech.AuthenticateThenGenerate: likewise, the token is taken to be accepted by both endpoints' validations.
