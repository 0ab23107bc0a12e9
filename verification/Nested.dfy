/** Nested dictionaries and the recursive patch applied to metadata contents. */
module Nested {
  import opened Types

  datatype Json = Leaf(value: string) | Obj(fields: map<string, Json>)

  /** `orig.get(k, {})` */
  function Get(orig: Json, k: string): Json
    requires orig.Obj?
  {
    if k in orig.fields then orig.fields[k] else Obj(map[])
  }

  /** The patch never descends into something that is not a dictionary. An empty patch touches
      nothing, so it is accepted even where `orig` is a leaf. */
  predicate Accepts(orig: Json, patch: Json)
    requires patch.Obj?
    decreases patch
  {
    patch.fields == map[] ||
    (orig.Obj? &&
     forall k :: k in patch.fields && patch.fields[k].Obj? ==> Accepts(Get(orig, k), patch.fields[k]))
  }

  /** What the patch is meant to produce, field by field. */
  function Update(orig: Json, patch: Json): Json
    requires patch.Obj? && Accepts(orig, patch)
    decreases patch
  {
    if patch.fields == map[] then orig
    else
      Obj(map k | k in orig.fields.Keys + patch.fields.Keys ::
            if k !in patch.fields then orig.fields[k]
            else if patch.fields[k].Obj? then Update(Get(orig, k), patch.fields[k])
            else patch.fields[k])
  }

  /** Field by field, whether or not the patch is empty. */
  lemma UpdateFields(orig: Json, patch: Json)
    requires orig.Obj? && patch.Obj? && Accepts(orig, patch)
    ensures Update(orig, patch).Obj?
    ensures Update(orig, patch).fields.Keys == orig.fields.Keys + patch.fields.Keys
    ensures forall k :: k in orig.fields && k !in patch.fields ==> Update(orig, patch).fields[k] == orig.fields[k]
    ensures forall k :: k in patch.fields ==>
              Update(orig, patch).fields[k] ==
              if patch.fields[k].Obj? then Update(Get(orig, k), patch.fields[k]) else patch.fields[k]
  {
  }

  /** The patch restricted to the keys in `done`. */
  function Part(patch: Json, done: set<string>): Json
    requires patch.Obj?
  {
    Obj(map k | k in patch.fields && k in done :: patch.fields[k])
  }

  /** One more key of the patch is one more assignment. */
  lemma OneMoreKey(orig: Json, patch: Json, done: set<string>, k: string)
    requires orig.Obj? && patch.Obj? && k in patch.fields && k !in done
    requires Accepts(orig, Part(patch, done))
    ensures Update(orig, Part(patch, done)).Obj?
    ensures Get(Update(orig, Part(patch, done)), k) == Get(orig, k)
    ensures Accepts(orig, Part(patch, done + {k})) <==>
            (patch.fields[k].Obj? ==> Accepts(Get(orig, k), patch.fields[k]))
    ensures Accepts(orig, Part(patch, done + {k})) ==>
              Update(orig, Part(patch, done + {k})) ==
              Obj(Update(orig, Part(patch, done)).fields[k :=
                    if patch.fields[k].Obj? then Update(Get(orig, k), patch.fields[k]) else patch.fields[k]])
  {
    var part, more := Part(patch, done), Part(patch, done + {k});
    assert more.fields == part.fields[k := patch.fields[k]];
    UpdateFields(orig, part);
    assert k in more.fields;
    if Accepts(orig, more) {
      UpdateFields(orig, more);
      assert Update(orig, more).fields.Keys == Update(orig, part).fields.Keys + {k};
    }
  }

  /** The dictionary update as the code runs it: one assignment per key of the patch. */
  method DeepUpdate(orig: Json, patch: Json) returns (r: Outcome<Json>)
    requires patch.Obj?
    ensures r.Ok? <==> Accepts(orig, patch)
    ensures r.Ok? ==> r.value == Update(orig, patch)
    decreases patch
  {
    var current := orig;
    var rest := patch.fields.Keys;
    assert Part(patch, {}).fields == map[];
    while rest != {}
      invariant rest <= patch.fields.Keys
      invariant Accepts(orig, Part(patch, patch.fields.Keys - rest))
      invariant current == Update(orig, Part(patch, patch.fields.Keys - rest))
      decreases |rest|
    {
      ghost var done := patch.fields.Keys - rest;
      var k :| k in rest;
      rest := rest - {k};
      assert patch.fields.Keys - rest == done + {k};
      if current.Leaf? {
        return Err(500);
      }
      OneMoreKey(orig, patch, done, k);
      if patch.fields[k].Obj? {
        var sub := DeepUpdate(Get(current, k), patch.fields[k]);
        if sub.Err? {
          return Err(500);
        }
        current := Obj(current.fields[k := sub.value]);
      } else {
        current := Obj(current.fields[k := patch.fields[k]]);
      }
    }
    assert Part(patch, patch.fields.Keys).fields == patch.fields;
    return Ok(current);
  }

  // ----- Reading a nested dictionary by path -----

  /** The leaf value stored at `path`, if there is one. */
  function LeafAt(j: Json, path: seq<string>): Option<string> {
    match j
    case Leaf(v) => if path == [] then Some(v) else None
    case Obj(fields) => if path != [] && path[0] in fields then LeafAt(fields[path[0]], path[1..]) else None
  }

  /** Some prefix of `path` (or `path` itself) ends in a leaf of the patch. */
  predicate Covered(patch: Json, path: seq<string>) {
    match patch
    case Leaf(_) => true
    case Obj(fields) => path != [] && path[0] in fields && Covered(fields[path[0]], path[1..])
  }

  /** Every leaf path reads the patch where the patch supplies a leaf on the way, the original elsewhere. */
  lemma {:induction false} UpdateReadsPatchElseOriginal(orig: Json, patch: Json, path: seq<string>)
    requires patch.Obj? && Accepts(orig, patch)
    ensures LeafAt(Update(orig, patch), path) ==
            if Covered(patch, path) then LeafAt(patch, path) else LeafAt(orig, path)
    decreases path
  {
    if patch.fields != map[] && path != [] && path[0] in patch.fields {
      var k := path[0];
      if patch.fields[k].Obj? {
        UpdateReadsPatchElseOriginal(Get(orig, k), patch.fields[k], path[1..]);
        assert Update(orig, patch).fields[k] == Update(Get(orig, k), patch.fields[k]);
      }
    }
  }

  /** Applying the same patch twice is applying it once. */
  lemma {:induction false} UpdateTwiceIsOnce(orig: Json, patch: Json)
    requires patch.Obj? && Accepts(orig, patch)
    ensures Accepts(Update(orig, patch), patch)
    ensures Update(Update(orig, patch), patch) == Update(orig, patch)
    decreases patch
  {
    if patch.fields != map[] {
      var once := Update(orig, patch);
      forall k | k in patch.fields && patch.fields[k].Obj?
        ensures Accepts(Get(once, k), patch.fields[k])
        ensures Update(Get(once, k), patch.fields[k]) == once.fields[k]
      {
        UpdateTwiceIsOnce(Get(orig, k), patch.fields[k]);
      }
      assert Update(once, patch).fields == once.fields;
    }
  }

  /** Patching the empty dictionary yields the patch. */
  lemma {:induction false} EmptyTakesThePatch(patch: Json)
    requires patch.Obj?
    ensures Accepts(Obj(map[]), patch) && Update(Obj(map[]), patch) == patch
    decreases patch
  {
    forall k | k in patch.fields && patch.fields[k].Obj?
      ensures Accepts(Obj(map[]), patch.fields[k]) && Update(Obj(map[]), patch.fields[k]) == patch.fields[k]
    {
      EmptyTakesThePatch(patch.fields[k]);
    }
    assert Update(Obj(map[]), patch).fields == patch.fields;
  }

  /** Two patches in sequence are one patch by their merge. */
  lemma {:induction false} UpdatesCompose(orig: Json, first: Json, second: Json)
    requires first.Obj? && second.Obj?
    requires Accepts(orig, first) && Accepts(Update(orig, first), second)
    ensures Accepts(first, second)
    ensures Update(first, second).Obj? && Accepts(orig, Update(first, second))
    ensures Update(orig, Update(first, second)) == Update(Update(orig, first), second)
    decreases second
  {
    if first.fields == map[] {
      EmptyTakesThePatch(second);
    } else if second.fields != map[] {
      var once := Update(orig, first);
      forall k | k in second.fields && second.fields[k].Obj?
        ensures Accepts(Get(first, k), second.fields[k])
        ensures var both := Update(Get(first, k), second.fields[k]);
                both.Obj? ==> Accepts(Get(orig, k), both) &&
                              Update(Get(orig, k), both) == Update(Get(once, k), second.fields[k])
      {
        if k !in first.fields {
          EmptyTakesThePatch(second.fields[k]);
        } else if first.fields[k].Obj? {
          UpdatesCompose(Get(orig, k), first.fields[k], second.fields[k]);
        }
      }
      var merged := Update(first, second);
      assert merged.fields != map[] by {
        var k :| k in first.fields;
        assert k in merged.fields;
      }
      assert Update(orig, merged).fields == Update(once, second).fields;
    }
  }

  /** At `path` the patch has something to descend into. */
  predicate Descends(patch: Json, path: seq<string>) {
    match patch
    case Leaf(_) => false
    case Obj(fields) =>
      if path == [] then fields != map[] else path[0] in fields && Descends(fields[path[0]], path[1..])
  }

  /** The patch descends into no leaf of the original. */
  ghost predicate StaysOut(orig: Json, patch: Json) {
    forall path :: EntersNoLeaf(orig, patch, path)
  }

  predicate EntersNoLeaf(orig: Json, patch: Json, path: seq<string>) {
    Descends(patch, path) ==> LeafAt(orig, path).None?
  }

  /** A patch is accepted exactly when it descends into no leaf of the original. */
  lemma {:induction false} AcceptsIff(orig: Json, patch: Json)
    requires patch.Obj?
    ensures Accepts(orig, patch) <==> StaysOut(orig, patch)
    decreases patch
  {
    if orig.Leaf? {
      assert EntersNoLeaf(orig, patch, []) <==> patch.fields == map[];
      if patch.fields == map[] {
        forall path ensures EntersNoLeaf(orig, patch, path) {
        }
      }
    } else {
      forall k | k in patch.fields && patch.fields[k].Obj? {
        AcceptsIff(Get(orig, k), patch.fields[k]);
      }
      StaysOutByField(orig, patch);
    }
  }

  lemma StaysOutByField(orig: Json, patch: Json)
    requires orig.Obj? && patch.Obj?
    ensures StaysOut(orig, patch) <==>
            forall k :: k in patch.fields && patch.fields[k].Obj? ==> StaysOut(Get(orig, k), patch.fields[k])
  {
    forall k, path | k in patch.fields
      ensures EntersNoLeaf(orig, patch, [k] + path) <==> EntersNoLeaf(Get(orig, k), patch.fields[k], path)
    {
      assert ([k] + path)[1..] == path;
    }
    if StaysOut(orig, patch) {
      forall k, path | k in patch.fields ensures EntersNoLeaf(Get(orig, k), patch.fields[k], path) {
        assert EntersNoLeaf(orig, patch, [k] + path);
      }
    }
    if forall k :: k in patch.fields && patch.fields[k].Obj? ==> StaysOut(Get(orig, k), patch.fields[k]) {
      forall path ensures EntersNoLeaf(orig, patch, path) {
        if path != [] && path[0] in patch.fields && patch.fields[path[0]].Obj? {
          assert path == [path[0]] + path[1..];
          assert EntersNoLeaf(Get(orig, path[0]), patch.fields[path[0]], path[1..]);
        }
      }
    }
  }
}
