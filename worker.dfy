/**
  The default export's `fetch` handler: the three greeting inputs are read
  from the query with permissive coercion and the response body is the
  greeting for them. Durable Object addressing, the RPC round trip and the
  construction of the `Response` object are not modelled.
*/
module Worker {
  import opened Wrappers
  import opened SearchParams
  import opened Greeting

  /** `searchParams.get('loaded') !== 'false'`: loaded unless told otherwise. */
  function LoadedParam(q: Query): (isLoaded: bool)
    ensures !isLoaded <==> exists i :: IsFirst(q, "loaded", i) && q[i].value == "false"
  {
    Get(q, "loaded") != Some("false")
  }

  /** `searchParams.get('signedIn') === 'true'`: signed in only when told so. */
  function SignedInParam(q: Query): (isSignedIn: bool)
    ensures isSignedIn <==> exists i :: IsFirst(q, "signedIn", i) && q[i].value == "true"
  {
    Get(q, "signedIn") == Some("true")
  }

  /** `searchParams.get('fullName') || undefined`: an empty name becomes absent. */
  function FullNameParam(q: Query): (fullName: Option<string>)
    ensures fullName != Some("")
    ensures fullName.Some? <==> exists i :: IsFirst(q, "fullName", i) && q[i].value != ""
    ensures forall i :: IsFirst(q, "fullName", i) && q[i].value != "" ==> fullName == Some(q[i].value)
  {
    var v := Get(q, "fullName");
    if v.Some? && v.value != "" then v else None
  }

  /** The body of the response `fetch` returns for a request with query `q`. */
  function Respond(q: Query): (body: string)
    ensures body == "Loading..." || body == "Not signed in" || IsHello(body)
  {
    GetGreeting(LoadedParam(q), SignedInParam(q), FullNameParam(q))
  }

  /** The three names the handler reads. */
  predicate IsGreetingParam(name: string)
  {
    name == "loaded" || name == "signedIn" || name == "fullName"
  }

  /** The body is "Loading..." exactly when the first `loaded` value is "false". */
  lemma RespondLoading(q: Query)
    ensures Respond(q) == "Loading..." <==> exists i :: IsFirst(q, "loaded", i) && q[i].value == "false"
  {
    ExactlyOneOutcome(LoadedParam(q), SignedInParam(q), FullNameParam(q));
  }

  /**
    The body is "Not signed in" exactly when loading is not switched off and the
    first `signedIn` value is not "true" (or there is none).
  */
  lemma RespondNotSignedIn(q: Query)
    ensures Respond(q) == "Not signed in" <==>
      && !(exists i :: IsFirst(q, "loaded", i) && q[i].value == "false")
      && !(exists i :: IsFirst(q, "signedIn", i) && q[i].value == "true")
  {
    ExactlyOneOutcome(LoadedParam(q), SignedInParam(q), FullNameParam(q));
  }

  /** A signed-in request whose first `fullName` is non-empty is greeted by that name. */
  lemma RespondByName(q: Query, s: nat, n: nat)
    requires !exists i :: IsFirst(q, "loaded", i) && q[i].value == "false"
    requires IsFirst(q, "signedIn", s) && q[s].value == "true"
    requires IsFirst(q, "fullName", n) && q[n].value != ""
    ensures Respond(q) == "Hello " + q[n].value + "!"
  {
  }

  /** A signed-in request with no `fullName`, or an empty first one, is greeted as "User". */
  lemma RespondUser(q: Query, s: nat)
    requires !exists i :: IsFirst(q, "loaded", i) && q[i].value == "false"
    requires IsFirst(q, "signedIn", s) && q[s].value == "true"
    requires forall i :: IsFirst(q, "fullName", i) ==> q[i].value == ""
    ensures Respond(q) == "Hello User!"
  {
  }

  /** A pair the handler does not read leaves the body unchanged, wherever it stands. */
  lemma RespondIgnoresOtherParams(q1: Query, p: Param, q2: Query)
    requires !IsGreetingParam(p.name)
    ensures Respond(q1 + [p] + q2) == Respond(q1 + q2)
  {
    GetIgnoresInsertedPair(q1, p, q2, "loaded");
    GetIgnoresInsertedPair(q1, p, q2, "signedIn");
    GetIgnoresInsertedPair(q1, p, q2, "fullName");
  }

  /** A query that names none of the three parameters gets "Not signed in". */
  lemma RespondWithoutGreetingParams(q: Query)
    requires forall i :: 0 <= i < |q| ==> !IsGreetingParam(q[i].name)
    ensures Respond(q) == "Not signed in"
  {
  }

  /** Only the exact, case-sensitive "false" switches loading off. */
  lemma LoadedCoercion()
    ensures LoadedParam([])
    ensures !LoadedParam([Param("loaded", "false")])
    ensures LoadedParam([Param("loaded", "False")])
    ensures LoadedParam([Param("loaded", "")])
    ensures LoadedParam([Param("loaded", "0")])
  {
  }

  /** Only the exact, case-sensitive "true" signs the user in. */
  lemma SignedInCoercion()
    ensures !SignedInParam([])
    ensures SignedInParam([Param("signedIn", "true")])
    ensures !SignedInParam([Param("signedIn", "True")])
    ensures !SignedInParam([Param("signedIn", "1")])
    ensures !SignedInParam([Param("signedIn", "")])
  {
  }

  /** The documented requests and the bodies they get back. */
  lemma RespondExamples()
    ensures Respond([]) == "Not signed in"
    ensures Respond([Param("loaded", "false")]) == "Loading..."
    ensures Respond([Param("signedIn", "true"), Param("fullName", "Bob")]) == "Hello Bob!"
    ensures Respond([Param("signedIn", "true"), Param("fullName", "")]) == "Hello User!"
    ensures Respond([Param("signedIn", "true"), Param("signedIn", "false")]) == "Hello User!"
  {
  }
}
