/**
  The query part of a request URL, already split and percent-decoded, as the
  ordered list of name/value pairs that `url.searchParams` holds, and the
  `get` lookup the fetch handler uses on it (the WHATWG URL Standard, section
  6.2 "Interface URLSearchParams": `get(name)` returns the value of the first
  pair whose name is `name`, or null if there is none).
*/
module SearchParams {
  import opened Wrappers

  datatype Param = Param(name: string, value: string)

  type Query = seq<Param>

  /** `i` is the position of the first pair of `q` named `name`. */
  ghost predicate IsFirst(q: Query, name: string, i: int)
  {
    && 0 <= i < |q|
    && q[i].name == name
    && forall j :: 0 <= j < i ==> q[j].name != name
  }

  /** `searchParams.get(name)`; `None` stands for JavaScript's `null`. */
  function Get(q: Query, name: string): (r: Option<string>)
    ensures r.None? <==> forall i :: 0 <= i < |q| ==> q[i].name != name
    ensures r.Some? ==> exists i :: IsFirst(q, name, i) && q[i].value == r.value
    ensures forall i :: IsFirst(q, name, i) ==> r == Some(q[i].value)
  {
    if |q| == 0 then None
    else if q[0].name == name then
      assert IsFirst(q, name, 0);
      Some(q[0].value)
    else
      var r := Get(q[1..], name);
      assert forall i :: IsFirst(q, name, i) ==> i > 0 && IsFirst(q[1..], name, i - 1);
      assert forall i :: IsFirst(q[1..], name, i) ==> IsFirst(q, name, i + 1);
      r
  }

  /**
    Later pairs never hide earlier ones: looking a name up in a query made of
    two parts finds it in the first part if it is there at all.
  */
  lemma {:induction false} GetAppend(q: Query, rest: Query, name: string)
    ensures Get(q + rest, name) == if Get(q, name).Some? then Get(q, name) else Get(rest, name)
  {
    if |q| > 0 {
      assert (q + rest)[1..] == q[1..] + rest;
      GetAppend(q[1..], rest, name);
    } else {
      assert q + rest == rest;
    }
  }

  /** A pair whose name differs from `name` does not affect `get(name)`, wherever it stands. */
  lemma GetIgnoresInsertedPair(q1: Query, p: Param, q2: Query, name: string)
    requires p.name != name
    ensures Get(q1 + [p] + q2, name) == Get(q1 + q2, name)
  {
    assert q1 + [p] + q2 == q1 + ([p] + q2);
    GetAppend(q1, [p] + q2, name);
    GetAppend(q1, q2, name);
  }

  /** Pairs whose name differs from `name` do not affect `get(name)`. */
  lemma GetIgnoresOtherNames(q: Query, p: Param, name: string)
    requires p.name != name
    ensures Get([p] + q, name) == Get(q, name)
  {
  }
}
