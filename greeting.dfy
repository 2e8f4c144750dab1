/**
  `MyDurableObject.getGreeting`: the greeting chosen from the loading state,
  the signed-in state and the optional full name. The asynchronous RPC
  wrapper around it is not modelled; it is a plain function here.
*/
module Greeting {
  import opened Wrappers

  /**
    The name inside the greeting, `fullName || 'User'`: a string is falsy in
    JavaScript exactly when it is empty, and `undefined` is falsy.
  */
  function DisplayName(fullName: Option<string>): (name: string)
    ensures name != ""
    ensures name == "User" || fullName == Some(name)
    ensures fullName.Some? && fullName.value != "" ==> name == fullName.value
  {
    if fullName.Some? && fullName.value != "" then fullName.value else "User"
  }

  /** The greeting handed back by `getGreeting`. */
  function GetGreeting(isLoaded: bool, isSignedIn: bool, fullName: Option<string>): (greeting: string)
    ensures greeting == "Loading..." || greeting == "Not signed in" || IsHello(greeting)
  {
    if !isLoaded then "Loading..."
    else if isSignedIn then "Hello " + DisplayName(fullName) + "!"
    else "Not signed in"
  }

  /** `s` has the shape of a personal greeting, "Hello <name>!". */
  predicate IsHello(s: string)
  {
    |s| >= 7 && s[..6] == "Hello " && s[|s| - 1] == '!'
  }

  /** The name inside a personal greeting. */
  function HelloName(s: string): string
    requires IsHello(s)
  {
    s[6..|s| - 1]
  }

  /** While the application is loading nothing else is consulted. */
  lemma LoadingWins(isSignedIn: bool, fullName: Option<string>)
    ensures GetGreeting(false, isSignedIn, fullName) == "Loading..."
  {
  }

  /** A signed-in user with a non-empty name is greeted by that name. */
  lemma GreetsByName(name: string)
    requires name != ""
    ensures GetGreeting(true, true, Some(name)) == "Hello " + name + "!"
  {
  }

  /** A signed-in user without a name, or with an empty one, is greeted as "User". */
  lemma GreetsUser(fullName: Option<string>)
    requires fullName == None || fullName == Some("")
    ensures GetGreeting(true, true, fullName) == "Hello User!"
  {
  }

  /** Once loaded, a user who is not signed in is told so, whatever the name. */
  lemma NotSignedInIgnoresName(fullName: Option<string>)
    ensures GetGreeting(true, false, fullName) == "Not signed in"
  {
  }

  /**
    Totality: every input gives exactly one of the three outcomes, and each
    outcome is recognisable from the greeting alone.
  */
  lemma ExactlyOneOutcome(isLoaded: bool, isSignedIn: bool, fullName: Option<string>)
    ensures var g := GetGreeting(isLoaded, isSignedIn, fullName);
      && (g == "Loading..." <==> !isLoaded)
      && (g == "Not signed in" <==> isLoaded && !isSignedIn)
      && (IsHello(g) <==> isLoaded && isSignedIn)
  {
    var g := GetGreeting(isLoaded, isSignedIn, fullName);
    if isLoaded && isSignedIn {
      assert g[0] == 'H';
      assert g[..6] == "Hello ";
    } else {
      assert g[0] != 'H';
    }
  }

  /** The name a personal greeting carries is the display name it was built from. */
  lemma HelloNameRoundTrip(fullName: Option<string>)
    ensures IsHello(GetGreeting(true, true, fullName))
    ensures HelloName(GetGreeting(true, true, fullName)) == DisplayName(fullName)
  {
  }

  /** An empty name and a missing name give the same greeting in every state. */
  lemma EmptyNameIsAbsent(isLoaded: bool, isSignedIn: bool)
    ensures GetGreeting(isLoaded, isSignedIn, Some("")) == GetGreeting(isLoaded, isSignedIn, None)
  {
  }
}
