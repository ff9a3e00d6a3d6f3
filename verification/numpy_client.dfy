/** The in-memory collection registry (NumpyClient), together with the
    template method `get_or_create_collection` and the no-op `setup` and
    `teardown` that it inherits from the abstract Client. */
module NumpyRegistry {
  import opened Exceptions
  import opened NumpyStore

  function TakenMessage(name: string): string
  {
    "Collection with name " + name + " already exists"
  }

  function NotFoundMessage(name: string): string
  {
    "Collection with name " + name + " does not exist"
  }

  class NumpyClient {
    /** The `collections` dict: its mapping, and its keys in insertion order. */
    var collections: map<string, NumpyCollection>
    var names: seq<string>

    /** The key list is the dict's key set without repeats, and every
        collection is stored under its own name. */
    ghost predicate Valid()
      reads this
    {
      && Distinct(names)
      && (forall n :: n in collections <==> n in names)
      && (forall n :: n in collections ==> collections[n].name == n)
    }

    constructor ()
      ensures Valid() && collections == map[] && names == []
    {
      collections := map[];
      names := [];
    }

    /** `create_collection`: a taken name is refused and nothing changes;
        otherwise a new empty collection with exactly that name and dimension
        is stored last and returned. The registry does not check the
        dimension; numpy's `np.empty((0, dimension))` refuses a negative one,
        before anything is stored. */
    method CreateCollection(name: string, dimension: int) returns (r: Result<NumpyCollection>)
      requires Valid()
      modifies this
      ensures Valid()
      ensures name in old(collections) ==>
        r == Err(ValueError("Collection with name " + name + " already exists"))
      ensures name !in old(collections) && dimension < 0 ==> r == Err(NumpyValueError)
      ensures r.Err? ==> collections == old(collections) && names == old(names)
      ensures name !in old(collections) && dimension >= 0 ==>
        && r.Ok? && fresh(r.value)
        && r.value.name == name && r.value.dimension == dimension
        && r.value.Snapshot() == Empty(dimension)
        && collections == old(collections)[name := r.value]
        && names == old(names) + [name]
    {
      if name in collections {
        return Err(ValueError(TakenMessage(name)));
      }
      if dimension < 0 {
        return Err(NumpyValueError);
      }
      var c := new NumpyCollection(name, dimension);
      collections := collections[name := c];
      names := names + [name];
      return Ok(collections[name]);
    }

    /** `get_collection`: the very object stored under the name, or the
        stores' CollectionNotFound naming the collection. */
    function GetCollection(name: string): (r: Result<NumpyCollection>)
      reads this
      ensures r.Ok? <==> name in collections
      ensures r.Ok? ==> r.value == collections[name]
      ensures r.Err? ==> r.error == StoresCollectionNotFound("Collection with name " + name + " does not exist")
    {
      if name in collections then Ok(collections[name])
      else Err(StoresCollectionNotFound(NotFoundMessage(name)))
    }

    /** `delete_collection`: a missing name fails through `get_collection`
        with the stores' CollectionNotFound and nothing changes; otherwise only
        that entry is removed. A stored collection is always truthy, so the
        method's own ValueError branch cannot be reached and is not modelled. */
    method DeleteCollection(name: string) returns (raised: Option<Exception>)
      requires Valid()
      modifies this
      ensures Valid()
      ensures name !in old(collections) ==>
        && raised == Some(StoresCollectionNotFound("Collection with name " + name + " does not exist"))
        && collections == old(collections) && names == old(names)
      ensures name in old(collections) ==>
        && raised == None
        && collections == old(collections) - {name}
        && GetCollection(name).Err?
        && names == RemoveAt(old(names), IndexOf(old(names), name))
    {
      var got := GetCollection(name);
      if got.Err? {
        return Some(got.error);
      }
      var idx := IndexOf(names, name);
      RemoveAtDistinct(names, idx);
      collections := collections - {name};
      names := RemoveAt(names, idx);
      return None;
    }

    /** `list_collections`: every stored collection exactly once, in the
        order the current entries were created (a name deleted and created
        again comes last). */
    function ListCollections(): (r: seq<NumpyCollection>)
      reads this
      requires Valid()
      ensures |r| == |names| == |collections|
      ensures forall i :: 0 <= i < |r| ==> names[i] in collections && r[i] == collections[names[i]]
      ensures forall n :: n in collections ==> exists i :: 0 <= i < |r| && r[i] == collections[n]
      ensures forall i, j :: 0 <= i < j < |r| ==> r[i] != r[j]
    {
      assert forall i :: 0 <= i < |names| ==> names[i] in collections;
      var r := seq(|names|, i requires 0 <= i < |names| && names[i] in collections reads this => collections[names[i]]);
      assert forall n :: n in collections ==> exists i :: 0 <= i < |r| && r[i] == collections[n] by {
        forall n | n in collections ensures exists i :: 0 <= i < |r| && r[i] == collections[n] {
          var i :| 0 <= i < |names| && names[i] == n;
          assert r[i] == collections[n];
        }
      }
      DistinctCardinality(names, collections.Keys);
      r
    }

    /** Client.get_or_create_collection, with the exception class named by its
        `except` clause as the parameter `caught`: a successful get returns the
        stored collection and ignores `dimension`; an exception of class
        `caught` leads to `create_collection(name, dimension)`; any other
        exception is raised again unchanged. */
    method GetOrCreateCatching(name: string, dimension: int, caught: ExceptionClass) returns (r: Result<NumpyCollection>)
      requires Valid()
      modifies this
      ensures Valid()
      ensures name in old(collections) ==>
        r == Ok(old(collections)[name]) && collections == old(collections) && names == old(names)
      ensures name !in old(collections) && caught != StoresCollectionNotFoundClass ==>
        && r == Err(StoresCollectionNotFound("Collection with name " + name + " does not exist"))
        && collections == old(collections) && names == old(names)
      ensures name !in old(collections) && caught == StoresCollectionNotFoundClass && dimension < 0 ==>
        r == Err(NumpyValueError) && collections == old(collections) && names == old(names)
      ensures name !in old(collections) && caught == StoresCollectionNotFoundClass && dimension >= 0 ==>
        && r.Ok? && fresh(r.value)
        && r.value.name == name && r.value.dimension == dimension
        && r.value.Snapshot() == Empty(dimension)
        && collections == old(collections)[name := r.value]
        && names == old(names) + [name]
    {
      var got := GetCollection(name);
      if got.Ok? {
        return got;
      }
      if ClassOf(got.error) == caught {
        r := CreateCollection(name, dimension);
        return;
      }
      return got;
    }

    /** `get_or_create_collection` as written: its `except` clause names
        vectorapi.exceptions.CollectionNotFound, but this registry raises
        vectorapi.stores.exceptions.CollectionNotFound, so a missing name is
        not created: the lookup's exception propagates. */
    method GetOrCreateCollection(name: string, dimension: int) returns (r: Result<NumpyCollection>)
      requires Valid()
      modifies this
      ensures Valid()
      ensures name in old(collections) ==>
        r == Ok(old(collections)[name]) && collections == old(collections) && names == old(names)
      ensures name !in old(collections) ==>
        && r == Err(StoresCollectionNotFound("Collection with name " + name + " does not exist"))
        && collections == old(collections) && names == old(names)
    {
      r := GetOrCreateCatching(name, dimension, CollectionNotFoundClass);
    }

    /** The get-or-create the code evidently intends: catching the class this
        registry raises, a missing name is created. */
    method GetOrCreateCollectionCorrected(name: string, dimension: int) returns (r: Result<NumpyCollection>)
      requires Valid()
      modifies this
      ensures Valid()
      ensures name in old(collections) ==>
        r == Ok(old(collections)[name]) && collections == old(collections) && names == old(names)
      ensures name !in old(collections) && dimension < 0 ==>
        r == Err(NumpyValueError) && collections == old(collections) && names == old(names)
      ensures name !in old(collections) && dimension >= 0 ==>
        && r.Ok? && fresh(r.value)
        && r.value.name == name && r.value.dimension == dimension
        && r.value.Snapshot() == Empty(dimension)
        && collections == old(collections)[name := r.value]
        && names == old(names) + [name]
    {
      r := GetOrCreateCatching(name, dimension, StoresCollectionNotFoundClass);
    }

    /** Client.setup: does nothing. */
    method Setup()
      ensures collections == old(collections) && names == old(names)
    {
    }

    /** Client.teardown: does nothing. */
    method Teardown()
      ensures collections == old(collections) && names == old(names)
    {
    }
  }

  /** A list without repeats whose elements are exactly the set's members is as long as the set. */
  lemma {:induction false} DistinctCardinality(xs: seq<string>, s: set<string>)
    requires Distinct(xs) && forall n :: n in s <==> n in xs
    ensures |xs| == |s|
  {
    if xs != [] {
      var t := s - {xs[0]};
      forall n ensures n in t <==> n in xs[1..] {
        if n in xs[1..] {
          var k :| 0 <= k < |xs[1..]| && xs[1..][k] == n;
          assert xs[k + 1] == n;
        }
      }
      DistinctCardinality(xs[1..], t);
    }
  }

  /** Finding, as written: on a fresh registry, get-or-create of any name
      fails with the lookup's exception instead of creating the collection. */
  method GetOrCreateOnEmptyRegistryFails() returns (r: Result<NumpyCollection>)
    ensures r == Err(StoresCollectionNotFound("Collection with name test_collection does not exist"))
  {
    var client := new NumpyClient();
    r := client.GetOrCreateCollection("test_collection", 2);
    assert NotFoundMessage("test_collection") == "Collection with name test_collection does not exist";
  }

  /** The corrected get-or-create on a fresh registry creates the collection,
      and a second call returns the same object. */
  method GetOrCreateCorrectedCreatesOnce() returns (first: Result<NumpyCollection>, second: Result<NumpyCollection>)
    ensures first.Ok? && second == first
    ensures first.value.name == "test_collection" && first.value.dimension == 2
  {
    var client := new NumpyClient();
    first := client.GetOrCreateCollectionCorrected("test_collection", 2);
    second := client.GetOrCreateCollectionCorrected("test_collection", 5);
  }
}
