/** Lists used as multisets, and sums of multisets over records. */
module Multisets {
  import opened Types

  /** `list.remove(x)`: the first occurrence goes; without one the list stays (the callers check). */
  function RemoveFirst<T(==)>(s: seq<T>, x: T): seq<T> {
    if s == [] then []
    else if s[0] == x then s[1..]
    else [s[0]] + RemoveFirst(s[1..], x)
  }

  lemma {:induction false} RemoveFirstTakesOne<T>(s: seq<T>, x: T)
    ensures multiset(RemoveFirst(s, x)) == multiset(s) - multiset{x}
    ensures x !in s ==> RemoveFirst(s, x) == s
  {
    if s != [] {
      assert s == [s[0]] + s[1..];
      if s[0] != x {
        RemoveFirstTakesOne(s[1..], x);
      }
    }
  }

  lemma {:induction false} RemoveFirstKeepsDistinct<T>(s: seq<T>, x: T)
    requires NoDuplicates(s)
    ensures NoDuplicates(RemoveFirst(s, x))
    ensures forall y :: y in RemoveFirst(s, x) <==> y in s && y != x
  {
    if s != [] && s[0] != x {
      RemoveFirstKeepsDistinct(s[1..], x);
      assert forall y :: y in s <==> y == s[0] || y in s[1..];
      assert s[0] !in s[1..];
    } else if s != [] {
      assert forall y :: y in s <==> y == s[0] || y in s[1..];
      assert s[0] !in s[1..];
    }
  }

  /** One occurrence of each of `xs` less, as far as there is one. */
  function RemoveEach<T(==)>(s: seq<T>, xs: seq<T>): seq<T>
    decreases xs
  {
    if xs == [] then s else RemoveEach(RemoveFirst(s, xs[0]), xs[1..])
  }

  lemma {:induction false} RemoveEachTakesAll<T>(s: seq<T>, xs: seq<T>)
    ensures multiset(RemoveEach(s, xs)) == multiset(s) - multiset(xs)
    decreases xs
  {
    if xs != [] {
      assert xs == [xs[0]] + xs[1..];
      RemoveFirstTakesOne(s, xs[0]);
      RemoveEachTakesAll(RemoveFirst(s, xs[0]), xs[1..]);
    }
  }

  /** How often `x` occurs: `list.count(x)`. */
  function Count<T(==)>(s: seq<T>, x: T): nat {
    multiset(s)[x]
  }

  lemma CountIn<T>(s: seq<T>, x: T)
    ensures Count(s, x) > 0 <==> x in s
  {
    assert x in multiset(s) <==> x in s;
  }

  lemma CountConcat<T>(a: seq<T>, b: seq<T>, x: T)
    ensures Count(a + b, x) == Count(a, x) + Count(b, x)
  {
  }

  lemma CountOne<T>(y: T, x: T)
    ensures Count([y], x) == if x == y then 1 else 0
  {
  }

  lemma CountRemoveFirst<T>(s: seq<T>, y: T, x: T)
    ensures Count(RemoveFirst(s, y), x) == if x == y && y in s then Count(s, x) - 1 else Count(s, x)
  {
    CountIn(s, y);
    RemoveFirstTakesOne(s, y);
  }

  lemma CountRemoveEach<T>(s: seq<T>, ys: seq<T>, x: T)
    requires Count(ys, x) <= Count(s, x)
    ensures Count(RemoveEach(s, ys), x) == Count(s, x) - Count(ys, x)
  {
    RemoveEachTakesAll(s, ys);
  }

  /** The sum of `f` over a finite set of ids. */
  ghost function Sum<T>(f: Id -> multiset<T>, ids: set<Id>): multiset<T> {
    if ids == {} then multiset{}
    else
      var a :| a in ids;
      f(a) + Sum(f, ids - {a})
  }

  lemma {:induction false} SumTakes<T>(f: Id -> multiset<T>, ids: set<Id>, a: Id)
    requires a in ids
    ensures Sum(f, ids) == f(a) + Sum(f, ids - {a})
  {
    var b :| b in ids && Sum(f, ids) == f(b) + Sum(f, ids - {b});
    if a != b {
      SumTakes(f, ids - {b}, a);
      SumTakes(f, ids - {a}, b);
      assert ids - {b} - {a} == ids - {a} - {b};
    }
  }

  lemma {:induction false} SumSame<T>(f: Id -> multiset<T>, g: Id -> multiset<T>, ids: set<Id>)
    requires forall a :: a in ids ==> f(a) == g(a)
    ensures Sum(f, ids) == Sum(g, ids)
  {
    if ids != {} {
      var a :| a in ids;
      SumSame(f, g, ids - {a});
      SumTakes(f, ids, a);
      SumTakes(g, ids, a);
    }
  }

  lemma {:induction false} SumIsEmptyIff<T>(f: Id -> multiset<T>, ids: set<Id>)
    ensures Sum(f, ids) == multiset{} <==> forall a :: a in ids ==> f(a) == multiset{}
  {
    if ids != {} {
      var a :| a in ids;
      SumTakes(f, ids, a);
      SumIsEmptyIff(f, ids - {a});
      assert |Sum(f, ids)| == |f(a)| + |Sum(f, ids - {a})|;
    }
  }
}
