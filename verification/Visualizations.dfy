/** Removing the visualizations of a resource, with the object store at hand or, for local files, without.
    Both loops return from inside their body, so that they end after the first config; the frozen one asks for
    working data other than the origin where it means the origin. */
module Visualizations {
  import opened Types
  import opened Nested
  import opened State

  /** The visualization collections and the object store. */
  datatype Shelf = Shelf(configs: map<Id, Doc>, data: map<Id, Doc>,
                         frozenConfigs: map<Id, Doc>, frozenData: map<Id, Doc>, objects: set<Id>)

  function ConfigsOf(configs: map<Id, Doc>, resource: Id): set<Id> {
    set c | c in configs && configs[c].owner.id == resource
  }

  function DataOf(data: map<Id, Doc>, c: Id): set<Id> {
    set v | v in data && data[v].owner == Ref(VisConfigs, c)
  }

  predicate HasCopy(frozenData: map<Id, Doc>, o: Id) {
    exists v :: v in frozenData && frozenData[v].origin == Some(o)
  }

  /** What removing one working config, the first found, leaves. */
  function Cleared(s: Shelf, pick: Option<Id>, store: bool): Shelf {
    if pick.None? then s
    else
      var gone := DataOf(s.data, pick.value);
      s.(configs := s.configs - {pick.value}, data := s.data - gone, objects := Kept(s, gone, store))
  }

  /** The bytes of working data `gone` go unless frozen data has that origin; all stay without a store. */
  function Kept(s: Shelf, gone: set<Id>, store: bool): set<Id> {
    if store then set o | o in s.objects && !(o in gone && !HasCopy(s.frozenData, o)) else s.objects
  }

  /** Some of the frozen data `gone` was the last copy of `o`. */
  predicate LastCopy(frozenData: map<Id, Doc>, gone: set<Id>, o: Id) {
    (exists v :: v in gone && v in frozenData && frozenData[v].origin == Some(o)) && !HasCopy(frozenData - gone, o)
  }

  predicate OnlyData(data: map<Id, Doc>, o: Id) {
    forall d :: d in data ==> d == o
  }

  /** The bytes of origins that lose their last copy with `gone` go, unless there is other working data, or
      no store. */
  function KeptFrozen(s: Shelf, gone: set<Id>, store: bool): set<Id> {
    if store then set o | o in s.objects && !(LastCopy(s.frozenData, gone, o) && OnlyData(s.data, o)) else s.objects
  }

  /** What removing one frozen config leaves. */
  function FrozenCleared(s: Shelf, pick: Option<Id>, store: bool): Shelf {
    if pick.None? then s
    else
      var gone := DataOf(s.frozenData, pick.value);
      s.(frozenConfigs := s.frozenConfigs - {pick.value}, frozenData := s.frozenData - gone,
         objects := KeptFrozen(s, gone, store))
  }

  class Visuals {
    var configs: map<Id, Doc>
    var data: map<Id, Doc>
    var frozenConfigs: map<Id, Doc>
    var frozenData: map<Id, Doc>
    var objects: set<Id>

    function Contents(): Shelf
      reads this
    {
      Shelf(configs, data, frozenConfigs, frozenData, objects)
    }

    constructor (s: Shelf)
      ensures Contents() == s
    {
      configs, data, frozenConfigs, frozenData, objects := s.configs, s.data, s.frozenConfigs, s.frozenData, s.objects;
    }

    method DeleteVisualizations(resource: Id, store: bool) returns (pick: Option<Id>)
      modifies this`configs, this`data, this`objects
      ensures Answers(pick, ConfigsOf(old(configs), resource))
      ensures Contents() == Cleared(old(Contents()), pick, store)
    {
      if c :| c in ConfigsOf(configs, resource) {
        ghost var s := Contents();
        configs := configs - {c};
        DeleteData(c, store, s);
        return Some(c);
      }
      return None;
    }

    method DeleteData(c: Id, store: bool, ghost s: Shelf)
      requires s.frozenData == frozenData && s.data == data && s.objects == objects
      modifies this`data, this`objects
      ensures data == s.data - DataOf(s.data, c)
      ensures objects == Kept(s, DataOf(s.data, c), store)
    {
      hide Kept, HasCopy;
      var found := DataOf(data, c);
      var rest := found;
      NothingGone(s, store);
      assert found - rest == {};
      while rest != {}
        invariant rest <= found && data == s.data - (found - rest)
        invariant objects == Kept(s, found - rest, store)
        decreases |rest|
      {
        var v :| v in rest;
        OneMoreKept(s, found - rest, v, store);
        data := data - {v};
        if store && !HasCopy(frozenData, v) {
          objects := objects - {v};
        }
        assert found - (rest - {v}) == found - rest + {v};
        rest := rest - {v};
      }
      assert found - rest == found;
    }

    method DeleteFrozenVisualizations(resource: Id, store: bool) returns (pick: Option<Id>)
      requires forall v :: v in frozenData ==> frozenData[v].origin.Some?
      modifies this`frozenConfigs, this`frozenData, this`objects
      ensures Answers(pick, ConfigsOf(old(frozenConfigs), resource))
      ensures Contents() == FrozenCleared(old(Contents()), pick, store)
    {
      if c :| c in ConfigsOf(frozenConfigs, resource) {
        ghost var s := Contents();
        frozenConfigs := frozenConfigs - {c};
        DeleteFrozenData(c, store, s);
        return Some(c);
      }
      return None;
    }

    method DeleteFrozenData(c: Id, store: bool, ghost s: Shelf)
      requires forall v :: v in frozenData ==> frozenData[v].origin.Some?
      requires s.frozenData == frozenData && s.data == data && s.objects == objects
      modifies this`frozenData, this`objects
      ensures frozenData == s.frozenData - DataOf(s.frozenData, c)
      ensures objects == KeptFrozen(s, DataOf(s.frozenData, c), store)
    {
      hide KeptFrozen, HasCopy, OnlyData;
      var found := DataOf(frozenData, c);
      var rest := found;
      NothingGone(s, store);
      assert found - rest == {};
      while rest != {}
        invariant rest <= found && frozenData == s.frozenData - (found - rest)
        invariant objects == KeptFrozen(s, found - rest, store)
        decreases |rest|
      {
        var v :| v in rest;
        var origin := frozenData[v].origin.value;
        OneMoreFrozen(s, found - rest, v, store);
        frozenData := frozenData - {v};
        if store && !HasCopy(frozenData, origin) && OnlyData(data, origin) {
          objects := objects - {origin};
        }
        assert found - (rest - {v}) == found - rest + {v};
        rest := rest - {v};
      }
      assert found - rest == found;
    }

    /** What the deletion of release `fd` makes of the visualizations: its own go with the store, then those of
        its files, of local ones without. */
    method DeleteReleaseVisualizations(fd: Id, files: map<Id, Storage>) returns (ghost calls: seq<Call>)
      requires fd !in files && forall v :: v in frozenData ==> frozenData[v].origin.Some?
      modifies this`frozenConfigs, this`frozenData, this`objects
      ensures Possible(old(Contents()), calls) && Distinct(calls) && Contents() == After(old(Contents()), calls)
      ensures forall r :: Called(calls, r) <==> r == fd || r in files
      ensures StoreFor(calls, files)
    {
      ghost var s := Contents();
      var pick := DeleteFrozenVisualizations(fd, true);
      calls := [Call(fd, true, pick)];
      OneMoreCall(s, [], calls[0]);
      assert [] + calls == calls;
      OneMoreStore([], calls[0], files);
      hide Possible, Distinct, FrozenCleared, After, StoreFor, Called;
      var rest := files.Keys;
      while rest != {}
        invariant rest <= files.Keys && (forall v :: v in frozenData ==> frozenData[v].origin.Some?)
        invariant Possible(s, calls) && Distinct(calls) && Contents() == After(s, calls)
        invariant forall r :: Called(calls, r) <==> r == fd || r in files.Keys - rest
        invariant StoreFor(calls, files)
        decreases |rest|
      {
        var x :| x in rest;
        pick := DeleteFrozenVisualizations(x, files[x] == Minio);
        OneMoreCall(s, calls, Call(x, files[x] == Minio, pick));
        OneMoreStore(calls, Call(x, files[x] == Minio, pick), files);
        calls := calls + [Call(x, files[x] == Minio, pick)];
        rest := rest - {x};
      }
    }
  }

  predicate Called(calls: seq<Call>, r: Id) {
    exists i :: 0 <= i < |calls| && calls[i].resource == r
  }

  /** The calls for files have the store exactly for stored ones. */
  ghost predicate StoreFor(calls: seq<Call>, files: map<Id, Storage>) {
    forall i :: 0 <= i < |calls| && calls[i].resource in files ==>
      calls[i].store == (files[calls[i].resource] == Minio)
  }

  lemma OneMoreStore(calls: seq<Call>, call: Call, files: map<Id, Storage>)
    requires StoreFor(calls, files) && (call.resource in files ==> call.store == (files[call.resource] == Minio))
    ensures StoreFor(calls + [call], files)
  {
  }

  lemma OneMoreCall(s: Shelf, calls: seq<Call>, call: Call)
    requires Possible(s, calls) && Distinct(calls) && !Called(calls, call.resource)
    requires Answers(call.pick, ConfigsOf(After(s, calls).frozenConfigs, call.resource))
    ensures Possible(s, calls + [call]) && Distinct(calls + [call])
    ensures After(s, calls + [call]) == FrozenCleared(After(s, calls), call.pick, call.store)
    ensures forall r :: Called(calls + [call], r) <==> Called(calls, r) || r == call.resource
  {
    OneMoreCalled(calls, call);
    hide Distinct, Called, FrozenCleared, ConfigsOf;
    var more := calls + [call];
    assert more[..|calls|] == calls && more[|calls|] == call;
    forall i | 0 <= i < |calls| ensures more[..i] == calls[..i] && more[i] == calls[i] {
    }
  }

  lemma OneMoreCalled(calls: seq<Call>, call: Call)
    requires Distinct(calls) && !Called(calls, call.resource)
    ensures Distinct(calls + [call])
    ensures forall r :: Called(calls + [call], r) <==> Called(calls, r) || r == call.resource
  {
    var more := calls + [call];
    assert more[|calls|] == call;
    forall r | Called(calls, r) ensures Called(more, r) {
      var i :| 0 <= i < |calls| && calls[i].resource == r;
      assert more[i].resource == r;
    }
  }

  lemma NothingGone(s: Shelf, store: bool)
    ensures s.data - {} == s.data && Kept(s, {}, store) == s.objects
    ensures s.frozenData - {} == s.frozenData && KeptFrozen(s, {}, store) == s.objects
  {
  }

  lemma OneMoreKept(s: Shelf, gone: set<Id>, v: Id, store: bool)
    ensures s.data - gone - {v} == s.data - (gone + {v})
    ensures Kept(s, gone + {v}, store) == Kept(s, gone, store) - if store && !HasCopy(s.frozenData, v) then {v} else {}
  {
  }

  lemma OneMoreFrozen(s: Shelf, gone: set<Id>, v: Id, store: bool)
    requires v in s.frozenData && v !in gone && s.frozenData[v].origin.Some?
    ensures s.frozenData - gone - {v} == s.frozenData - (gone + {v})
    ensures var origin := s.frozenData[v].origin.value;
            KeptFrozen(s, gone + {v}, store) ==
            KeptFrozen(s, gone, store) -
              if store && !HasCopy(s.frozenData - gone - {v}, origin) && OnlyData(s.data, origin) then {origin} else {}
  {
    OneMoreGone(s.frozenData, gone, v);
  }

  /** With one more datum gone, its origin may have lost its last copy, and no other. */
  lemma OneMoreGone(frozenData: map<Id, Doc>, gone: set<Id>, v: Id)
    requires v in frozenData && v !in gone && frozenData[v].origin.Some?
    ensures frozenData - gone - {v} == frozenData - (gone + {v})
    ensures forall o: Id :: LastCopy(frozenData, gone + {v}, o) <==>
              LastCopy(frozenData, gone, o) ||
              (frozenData[v].origin == Some(o) && !HasCopy(frozenData - gone - {v}, o))
  {
    var rest, rest' := frozenData - gone, frozenData - (gone + {v});
    assert frozenData - gone - {v} == rest';
    forall o: Id ensures LastCopy(frozenData, gone + {v}, o) <==>
                     LastCopy(frozenData, gone, o) || (frozenData[v].origin == Some(o) && !HasCopy(rest', o)) {
      if HasCopy(rest, o) && frozenData[v].origin != Some(o) {
        var u :| u in rest && rest[u].origin == Some(o);
        assert u in rest' && rest'[u].origin == Some(o);
      }
      assert v in rest && rest[v] == frozenData[v];
      if LastCopy(frozenData, gone, o) {
        var u :| u in gone && u in frozenData && frozenData[u].origin == Some(o);
        assert u in gone + {v};
      }
    }
  }

  // ----- What goes -----

  /** Exactly the config found goes, of whatever collection its resource is. */
  lemma ConfigIsFound(configs: map<Id, Doc>, resource: Id, pick: Option<Id>)
    ensures Answers(pick, ConfigsOf(configs, resource)) <==>
            if pick.Some? then pick.value in configs && configs[pick.value].owner.id == resource
            else forall c :: c in configs ==> configs[c].owner.id != resource
  {
    if ConfigsOf(configs, resource) == {} {
      forall c | c in configs ensures configs[c].owner.id != resource {
        assert c !in ConfigsOf(configs, resource);
      }
    }
  }

  /** The documents of `docs` without those in `gone`. */
  ghost predicate Leaves(docs: map<Id, Doc>, docs': map<Id, Doc>, gone: iset<Id>) {
    (forall k :: k in docs' <==> k in docs && k !in gone) && forall k :: k in docs' ==> docs'[k] == docs[k]
  }

  ghost function Below(data: map<Id, Doc>, c: Id): iset<Id> {
    iset v | v in data && data[v].owner.collection == VisConfigs && data[v].owner.id == c
  }

  /** One working config, the data below it and, with a store, those of its bytes no frozen datum comes from. */
  lemma ClearedTakes(s: Shelf, c: Id, store: bool)
    ensures var s' := Cleared(s, Some(c), store);
            && Leaves(s.configs, s'.configs, iset{c}) && Leaves(s.data, s'.data, Below(s.data, c))
            && s'.frozenConfigs == s.frozenConfigs && s'.frozenData == s.frozenData
            && (forall o: Id :: o in s'.objects <==>
                  o in s.objects && !(store && o in Below(s.data, c) &&
                                      forall v :: v in s.frozenData ==> s.frozenData[v].origin != Some(o)))
    ensures Cleared(s, None, store) == s
  {
  }

  /** Some frozen datum below `c`, and none elsewhere, comes from `o`. */
  predicate OnlyBelow(s: Shelf, c: Id, o: Id) {
    && (exists v :: v in s.frozenData && s.frozenData[v].owner == Ref(VisConfigs, c) && s.frozenData[v].origin == Some(o))
    && forall v :: v in s.frozenData && s.frozenData[v].origin == Some(o) ==> s.frozenData[v].owner == Ref(VisConfigs, c)
  }

  /** One frozen config, the data below it and, with a store, the bytes only those came from, where there is no
      working datum but that. */
  lemma FrozenClearedTakes(s: Shelf, c: Id, store: bool)
    ensures var s' := FrozenCleared(s, Some(c), store);
            && Leaves(s.frozenConfigs, s'.frozenConfigs, iset{c})
            && Leaves(s.frozenData, s'.frozenData, Below(s.frozenData, c))
            && s'.configs == s.configs && s'.data == s.data
            && (forall o: Id :: o in s'.objects <==>
                  o in s.objects && !(store && OnlyBelow(s, c, o) && forall d :: d in s.data ==> d == o))
    ensures FrozenCleared(s, None, store) == s
  {
    forall o: Id ensures LastCopy(s.frozenData, DataOf(s.frozenData, c), o) <==> OnlyBelow(s, c, o) {
      LastCopyIsOnlyBelow(s, c, o);
    }
    hide LastCopy, OnlyBelow;
  }

  lemma LastCopyIsOnlyBelow(s: Shelf, c: Id, o: Id)
    ensures LastCopy(s.frozenData, DataOf(s.frozenData, c), o) <==> OnlyBelow(s, c, o)
  {
    var gone := DataOf(s.frozenData, c);
    forall v | v in s.frozenData ensures v in s.frozenData - gone <==> s.frozenData[v].owner != Ref(VisConfigs, c) {
    }
    assert HasCopy(s.frozenData - gone, o) <==>
           exists v :: v in s.frozenData && s.frozenData[v].origin == Some(o) && v in s.frozenData - gone;
  }

  // ----- What is left -----

  /** Nothing of the resource is left exactly when it had one config at most. */
  lemma FrozenLeavesNoneIff(s: Shelf, resource: Id, pick: Option<Id>, store: bool)
    requires Answers(pick, ConfigsOf(s.frozenConfigs, resource))
    ensures ConfigsOf(FrozenCleared(s, pick, store).frozenConfigs, resource) == {} <==>
            |ConfigsOf(s.frozenConfigs, resource)| <= 1
  {
    var found := ConfigsOf(s.frozenConfigs, resource);
    if pick.Some? {
      assert ConfigsOf(FrozenCleared(s, pick, store).frozenConfigs, resource) == found - {pick.value};
      assert found == found - {pick.value} + {pick.value};
    }
  }

  lemma LeavesNoneIff(s: Shelf, resource: Id, pick: Option<Id>, store: bool)
    requires Answers(pick, ConfigsOf(s.configs, resource))
    ensures ConfigsOf(Cleared(s, pick, store).configs, resource) == {} <==> |ConfigsOf(s.configs, resource)| <= 1
  {
    var found := ConfigsOf(s.configs, resource);
    if pick.Some? {
      assert ConfigsOf(Cleared(s, pick, store).configs, resource) == found - {pick.value};
      assert found == found - {pick.value} + {pick.value};
    }
  }

  /** The bytes kept are those of working data and of the origins of frozen data. */
  ghost predicate Exact(s: Shelf) {
    forall o: Id :: o in s.objects <==> o in s.data || HasCopy(s.frozenData, o)
  }

  /** Removing working visualizations keeps the bytes exact with a store always, and without one exactly when
      frozen data has every datum for its origin. */
  lemma ClearedStaysExactIff(s: Shelf, c: Id, store: bool)
    requires Exact(s)
    ensures Exact(Cleared(s, Some(c), store)) <==> store || forall o :: o in DataOf(s.data, c) ==> HasCopy(s.frozenData, o)
  {
    var s' := Cleared(s, Some(c), store);
    forall o | o in DataOf(s.data, c)
      ensures (o in s'.objects <==> o in s'.data || HasCopy(s'.frozenData, o)) <==> store || HasCopy(s.frozenData, o) {
      assert o in s.objects;
    }
  }

  /** Removing frozen visualizations keeps the bytes exact exactly when every datum that loses its last
      copy is still there as working data: if and only if other working data is, with a store, and in any
      case without one. */
  lemma FrozenClearedStaysExactIff(s: Shelf, c: Id, store: bool)
    requires Exact(s)
    ensures Exact(FrozenCleared(s, Some(c), store)) <==>
            forall o: Id :: LastCopy(s.frozenData, DataOf(s.frozenData, c), o) ==>
              (o in s.data <==> (store ==> exists d :: d in s.data && d != o))
  {
    var gone := DataOf(s.frozenData, c);
    var s' := FrozenCleared(s, Some(c), store);
    forall o: Id ensures HasCopy(s.frozenData, o) <==> HasCopy(s'.frozenData, o) || LastCopy(s.frozenData, gone, o) {
      CopyOrLast(s.frozenData, gone, o);
    }
    forall o: Id | LastCopy(s.frozenData, gone, o)
      ensures (o in s'.objects <==> o in s'.data || HasCopy(s'.frozenData, o)) <==>
              (o in s.data <==> (store ==> exists d :: d in s.data && d != o))
    {
      assert o in s.objects && (o in s'.objects <==> !store || !OnlyData(s.data, o));
    }
  }

  lemma CopyOrLast(frozenData: map<Id, Doc>, gone: set<Id>, o: Id)
    ensures HasCopy(frozenData, o) <==> HasCopy(frozenData - gone, o) || LastCopy(frozenData, gone, o)
  {
    var rest := frozenData - gone;
    if HasCopy(frozenData, o) {
      var v :| v in frozenData && frozenData[v].origin == Some(o);
      assert v in gone || (v in rest && rest[v] == frozenData[v]);
    }
    if HasCopy(rest, o) {
      var v :| v in rest && rest[v].origin == Some(o);
      assert frozenData[v] == rest[v];
    }
  }

  // ----- What goes wrong -----

  function Config(resource: Id, origin: Option<Id>): Doc {
    Doc(Ref(Datasets, resource), None, Agent("u", None), None, Obj(map[]), origin)
  }

  function Datum(config: Id, origin: Option<Id>): Doc {
    Doc(Ref(VisConfigs, config), None, Agent("u", None), None, Obj(map[]), origin)
  }

  /** A dataset 0 with config 1 and datum 2, and its release 3 with their copies 4 and 5. */
  function OneShelf(): Shelf {
    Shelf(map[1 := Config(0, None)], map[2 := Datum(1, None)],
          map[4 := Config(3, Some(1))], map[5 := Datum(4, Some(2))], {2})
  }

  /** The release is removed: the bytes of the working datum, the only one, are lost. */
  lemma FrozenRemovalTakesWorkingBytes()
    ensures Exact(OneShelf()) && Answers(Some(4), ConfigsOf(OneShelf().frozenConfigs, 3))
    ensures var s' := FrozenCleared(OneShelf(), Some(4), true); 2 in s'.data && 2 !in s'.objects
  {
    var s := OneShelf();
    var last := s.frozenData[5];
    assert 5 in s.frozenData && last.origin == Some(2);
    assert HasCopy(s.frozenData, 2);
    assert DataOf(s.frozenData, 4) == {5};
    assert LastCopy(s.frozenData, {5}, 2);
  }

  /** With datum 6 of another config besides, and the working datum already gone, they are leaked. */
  lemma FrozenRemovalLeaksBytes()
    ensures var s := OneShelf().(data := map[6 := Datum(7, None)], objects := {2, 6});
            && Exact(s) && Answers(Some(4), ConfigsOf(s.frozenConfigs, 3))
            && var s' := FrozenCleared(s, Some(4), true); 2 in s'.objects && 2 !in s'.data && !HasCopy(s'.frozenData, 2)
  {
    var s := OneShelf().(data := map[6 := Datum(7, None)], objects := {2, 6});
    assert 5 in s.frozenData && s.frozenData[5].origin == Some(2);
    assert HasCopy(s.frozenData, 2);
    assert DataOf(s.frozenData, 4) == {5};
    assert 6 in s.data && !OnlyData(s.data, 2);
  }

  /** Without a store, as for a local file: the bytes of a datum that is gone stay, although no other is there. */
  lemma RemovalWithoutStoreLeaksBytes()
    ensures var s := OneShelf().(data := map[]);
            && Exact(s) && Answers(Some(4), ConfigsOf(s.frozenConfigs, 3))
            && var s' := FrozenCleared(s, Some(4), false); 2 in s'.objects && 2 !in s'.data && !HasCopy(s'.frozenData, 2)
  {
    var s := OneShelf().(data := map[]);
    assert 5 in s.frozenData && s.frozenData[5].origin == Some(2);
    assert HasCopy(s.frozenData, 2);
    assert DataOf(s.frozenData, 4) == {5};
  }

  // ----- A whole release -----

  /** One call of the removal of frozen visualizations, with the config it found. */
  datatype Call = Call(resource: Id, store: bool, pick: Option<Id>)

  function After(s: Shelf, calls: seq<Call>): Shelf {
    if calls == [] then s
    else
      var last := calls[|calls| - 1];
      FrozenCleared(After(s, calls[..|calls| - 1]), last.pick, last.store)
  }

  ghost predicate Possible(s: Shelf, calls: seq<Call>) {
    forall i :: 0 <= i < |calls| ==>
      Answers(calls[i].pick, ConfigsOf(After(s, calls[..i]).frozenConfigs, calls[i].resource))
  }

  ghost predicate Distinct(calls: seq<Call>) {
    forall i, j :: 0 <= i < j < |calls| ==> calls[i].resource != calls[j].resource
  }

  lemma OneCallConfigs(s: Shelf, call: Call, r: Id)
    requires Answers(call.pick, ConfigsOf(s.frozenConfigs, call.resource))
    ensures var before, after := ConfigsOf(s.frozenConfigs, r),
                                 ConfigsOf(FrozenCleared(s, call.pick, call.store).frozenConfigs, r);
            if r == call.resource then after <= before && |after| == (if before == {} then 0 else |before| - 1)
            else after == before
  {
    var before, after := ConfigsOf(s.frozenConfigs, r), ConfigsOf(FrozenCleared(s, call.pick, call.store).frozenConfigs, r);
    if call.pick.Some? {
      assert after == before - {call.pick.value};
    }
  }

  /** The calls took one config of each resource called for, if it had any, and none of any other. */
  lemma {:induction false} ConfigsAfter(s: Shelf, calls: seq<Call>, r: Id)
    requires Possible(s, calls) && Distinct(calls)
    ensures var before, after := ConfigsOf(s.frozenConfigs, r), ConfigsOf(After(s, calls).frozenConfigs, r);
            if Called(calls, r) then after <= before && |after| == if before == {} then 0 else |before| - 1
            else after == before
  {
    if calls != [] {
      var front, last := calls[..|calls| - 1], calls[|calls| - 1];
      var mid := After(s, front);
      assert forall i :: 0 <= i < |front| ==> front[..i] == calls[..i];
      ConfigsAfter(s, front, r);
      OneCallConfigs(mid, last, r);
      LastCalled(calls, r);
      hide FrozenCleared, ConfigsOf, Answers, Possible, Distinct, Called;
    }
  }

  lemma LastCalled(calls: seq<Call>, r: Id)
    requires calls != [] && Distinct(calls)
    ensures var front, last := calls[..|calls| - 1], calls[|calls| - 1];
            && (Called(calls, r) <==> Called(front, r) || r == last.resource)
            && !(Called(front, r) && r == last.resource)
  {
    var front, last := calls[..|calls| - 1], calls[|calls| - 1];
    if Called(front, r) {
      var i :| 0 <= i < |front| && front[i].resource == r;
      assert calls[i].resource == r;
    }
  }

  /** A deleted release leaves no visualization exactly when neither it nor any of its files had more than
      one config. */
  lemma ReleaseLeavesNoneIff(s: Shelf, calls: seq<Call>)
    requires Possible(s, calls) && Distinct(calls)
    ensures (forall i :: 0 <= i < |calls| ==> ConfigsOf(After(s, calls).frozenConfigs, calls[i].resource) == {}) <==>
            (forall i :: 0 <= i < |calls| ==> |ConfigsOf(s.frozenConfigs, calls[i].resource)| <= 1)
  {
    forall i | 0 <= i < |calls|
      ensures ConfigsOf(After(s, calls).frozenConfigs, calls[i].resource) == {} <==>
              |ConfigsOf(s.frozenConfigs, calls[i].resource)| <= 1
    {
      ConfigsAfter(s, calls, calls[i].resource);
      var r := calls[i].resource;
      assert ConfigsOf(After(s, calls).frozenConfigs, r) == {} <==> |ConfigsOf(After(s, calls).frozenConfigs, r)| == 0;
    }
  }
}
