/** Identifiers, results and small list helpers shared by the whole model. */
module Types {

  /** A document id. Ids are handed out by one counter, so no id is ever issued twice. */
  type Id = nat

  datatype Option<+T> = None | Some(value: T)

  /** What a route answers: a value, or the HTTP status of the error it raises.
      500 stands for an exception the route does not catch. */
  datatype Outcome<+T> = Ok(value: T) | Err(status: nat)

  ghost predicate NoDuplicates<T>(s: seq<T>) {
    forall i, j :: 0 <= i < j < |s| ==> s[i] != s[j]
  }

  /** `pick` is a possible answer of a `find_one` whose matches are `matches`. */
  predicate Answers<T(==)>(pick: Option<T>, matches: set<T>) {
    if pick.Some? then pick.value in matches else matches == {}
  }

  /** `order` is one of the orders in which a query may list the members of `s`. */
  ghost predicate Lists<T(!new)>(order: seq<T>, s: set<T>) {
    NoDuplicates(order) && forall x :: x in order <==> x in s
  }

  /** The answer of an unsorted `find(...)`: the matching ids, in an order nobody promises. */
  method Listing(s: set<Id>) returns (order: seq<Id>)
    ensures Lists(order, s)
  {
    order := [];
    var rest := s;
    while rest != {}
      invariant rest <= s && NoDuplicates(order)
      invariant forall x :: x in order <==> x in s - rest
      decreases |rest|
    {
      var x :| x in rest;
      assert x !in order;
      order := order + [x];
      rest := rest - {x};
    }
  }
}
