# Greeting worker model

A Dafny model of the request logic of a Cloudflare Worker with one Durable
Object class, `MyDurableObject`. The worker's `fetch` handler reads three
query parameters (`loaded`, `signedIn`, `fullName`) and coerces them
permissively. It then asks the Durable Object's `getGreeting` for one of
three greetings: "Loading...", "Hello <name>!" or "Not signed in". That
greeting becomes the response body.

Modules:

- `Wrappers` (wrappers.dfy): `Option`, standing for JavaScript's
  `undefined`/`null`.
- `SearchParams` (search_params.dfy): the decoded query as an ordered list of
  name/value pairs. `Get` returns the value of the first pair with the
  requested name, as `URLSearchParams.get` does (WHATWG URL Standard,
  section 6.2).
- `Greeting` (greeting.dfy): `getGreeting` and the name fallback
  `fullName || 'User'`.
- `Worker` (worker.dfy): the three coercions and `Respond`, the response body
  for a query.

Everything in the core is pure and deterministic, so the model is made of
functions and lemmas.

## Model

| member | source | states |
|---|---|---|
| SearchParams.Get | src/index.ts:75-80 | `get(name)` is absent exactly when no pair has that name; otherwise it is the value of the first pair with that name |
| SearchParams.GetAppend | src/index.ts:75-80 | later pairs never hide earlier ones: a repeated parameter is read from its first occurrence |
| SearchParams.GetIgnoresOtherNames | src/index.ts:75-80 | a pair with a different name put in front of the query does not change what `get` returns |
| SearchParams.GetIgnoresInsertedPair | src/index.ts:75-80 | a pair with a different name inserted anywhere in the query does not change what `get` returns |
| Greeting.DisplayName | src/index.ts:56 | the greeted name is never empty; it is the given full name whenever that is non-empty, and "User" otherwise |
| Greeting.GetGreeting | src/index.ts:50-60 | the greeting is always one of the three forms "Loading...", "Not signed in" or "Hello <name>!"; which one, and the name, is stated by ExactlyOneOutcome, LoadingWins, GreetsByName, GreetsUser, NotSignedInIgnoresName and HelloNameRoundTrip |
| Greeting.LoadingWins | src/index.ts:51-53 | when not loaded the greeting is "Loading...", whatever the sign-in state and name |
| Greeting.GreetsByName | src/index.ts:55-56 | loaded, signed in and a non-empty name give exactly "Hello " + name + "!" |
| Greeting.GreetsUser | src/index.ts:55-56 | loaded, signed in and an absent or empty name give "Hello User!" |
| Greeting.NotSignedInIgnoresName | src/index.ts:55-59 | loaded and not signed in give "Not signed in", whatever the name |
| Greeting.ExactlyOneOutcome | src/index.ts:50-60 | every input gives exactly one of the three outcomes, each holding exactly under its own condition (both directions) |
| Greeting.HelloNameRoundTrip | src/index.ts:55-56 | a personal greeting has the "Hello <name>!" shape and the name read back from it is the display name it was built from |
| Greeting.EmptyNameIsAbsent | src/index.ts:56 | an empty name and a missing name give the same greeting in every state |
| Worker.LoadedParam | src/index.ts:78 | loading is off exactly when the first `loaded` value is the exact string "false" |
| Worker.SignedInParam | src/index.ts:79 | signed in exactly when the first `signedIn` value is the exact string "true" |
| Worker.FullNameParam | src/index.ts:80 | the name is never the empty string; it is present exactly when the first `fullName` value is non-empty, and then it is that value |
| Worker.Respond | src/index.ts:95-97 | the response body is `getGreeting` of the coerced parameters and so always one of the three greeting forms; which one is stated by RespondLoading, RespondNotSignedIn, RespondByName and RespondUser |
| Worker.RespondLoading | src/index.ts:78-80 | the body is "Loading..." exactly when the first `loaded` value is "false" |
| Worker.RespondNotSignedIn | src/index.ts:78-80 | the body is "Not signed in" exactly when `loaded` is not "false" and the first `signedIn` is not "true" |
| Worker.RespondByName | src/index.ts:78-80 | a loaded, signed-in request with a non-empty first `fullName` gets "Hello " + that name + "!" |
| Worker.RespondUser | src/index.ts:78-80 | a loaded, signed-in request with no or an empty first `fullName` gets "Hello User!" |
| Worker.RespondIgnoresOtherParams | src/index.ts:78-80 | a parameter other than the three read, inserted anywhere in the query, leaves the body unchanged |
| Worker.RespondWithoutGreetingParams | src/index.ts:78-80 | a query naming none of the three parameters (the empty query included) gets "Not signed in" |
| Worker.LoadedCoercion | src/index.ts:78 | absent, "False", "" and "0" all mean loaded; only "false" means not loaded |
| Worker.SignedInCoercion | src/index.ts:79 | only "true" means signed in; absent, "True", "1" and "" do not |
| Worker.RespondExamples | src/index.ts:95-97 | the body for the empty query, `loaded=false`, `signedIn=true&fullName=Bob`, `signedIn=true&fullName=` and a repeated `signedIn` |

`Worker.Respond` is the response body: `getGreeting` applied to the coerced
parameters (src/index.ts:95, 97). The `Respond*` lemmas state its behaviour.

## Left out

- `sayHello` (src/index.ts:35-40): it runs a SQL query through the platform's
  embedded store, whose behaviour is not visible in this code.
- Durable Object addressing (src/index.ts:86-92): `idFromName(url.pathname)`
  and `get(id)` are platform primitives. The one-instance-per-path guarantee
  belongs to the platform. Because `getGreeting` reads no instance state, the
  body does not depend on which instance answers.
- URL parsing and percent-decoding by `new URL(...)` and `searchParams`
  (src/index.ts:74-75): the query is taken as already-decoded name/value
  pairs.
- `async`/`await`, the RPC stub round trip and the platform's one-at-a-time
  processing of calls per instance: the calls are plain functions.
- Building the `Response` (status, headers) at src/index.ts:97, the
  constructor at src/index.ts:25-27 and the `Env` bindings: platform glue
  with no logic.
- Strings are sequences of Unicode scalar values rather than UTF-16 code
  units. The literals the model slices around ("Hello ", "!") are ASCII, and
  the values `URLSearchParams` produces are strings of Unicode scalar values,
  so this does not change any result.
