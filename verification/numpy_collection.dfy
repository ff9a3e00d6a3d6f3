/** The in-memory point store (NumpyCollection).

    Its state is a metadata dict (ids in insertion order and their metadata)
    and a numpy array `vectors` whose row i is meant to hold the embedding of
    the i-th id. The store finds a point's row with `ids.index(id)`, so that
    meaning only holds while the two stay aligned. */
module NumpyStore {
  import opened Exceptions
  import opened Models

  /** The state of one NumpyCollection: the keys of `metadatas` in insertion
      order, the `metadatas` dict itself, the rows of `vectors`, and the
      array's column count (the collection's dimension). */
  datatype Store = Store(keys: seq<string>, metadatas: map<string, Metadata>, vectors: seq<Embedding>, width: nat)

  /** What an operation leaves behind: the new state and the exception it raised, if any. */
  datatype Effect = Effect(after: Store, raised: Option<Exception>)

  predicate Distinct(xs: seq<string>)
  {
    forall i, j :: 0 <= i < j < |xs| ==> xs[i] != xs[j]
  }

  /** What every reachable state satisfies: the key list is the dict's key set
      without repeats, and every row of the array is `width` wide. */
  ghost predicate WellFormed(s: Store)
  {
    && Distinct(s.keys)
    && (forall k :: k in s.metadatas <==> k in s.keys)
    && (forall r :: r in s.vectors ==> |r| == s.width)
  }

  /** Row i of `vectors` belongs to id i: one row per id. */
  predicate Aligned(s: Store)
  {
    |s.vectors| == |s.keys|
  }

  /** The state right after construction: no ids, an empty (0, dimension) array. */
  function Empty(width: nat): Store
  {
    Store([], map[], [], width)
  }

  function ExistsMessage(id: string): string
  {
    "Vector with id " + id + " already exists"
  }

  function MissingMessage(id: string): string
  {
    "Vector with id " + id + " does not exist"
  }

  /** `ids.index(id)`: the position of the first occurrence of `id`. */
  function IndexOf(keys: seq<string>, id: string): (i: nat)
    requires id in keys
    ensures i < |keys| && keys[i] == id
    ensures forall j :: 0 <= j < i ==> keys[j] != id
  {
    if keys[0] == id then 0 else 1 + IndexOf(keys[1..], id)
  }

  lemma IndexOfUnique(keys: seq<string>, id: string, i: nat)
    requires Distinct(keys) && i < |keys| && keys[i] == id
    ensures IndexOf(keys, id) == i
  {
  }

  /** `insert`: a known id is refused; otherwise the id is registered in
      `metadatas` first, and only then is the row stacked onto `vectors`,
      which numpy refuses when its length is not the array's width. */
  function InsertStep(s: Store, id: string, embedding: Embedding, metadata: Metadata): (r: Effect)
    requires WellFormed(s)
    ensures WellFormed(r.after)
  {
    if id in s.keys then Effect(s, Some(ValueError(ExistsMessage(id))))
    else
      var registered := s.(keys := s.keys + [id], metadatas := s.metadatas[id := metadata]);
      assert forall i :: 0 <= i < |s.keys| ==> s.keys[i] != id;
      if |embedding| != s.width then Effect(registered, Some(NumpyValueError))
      else Effect(registered.(vectors := s.vectors + [embedding]), None)
  }

  /** numpy's `vectors[idx] = embedding` on a row of the given width: a row of
      the same length is copied, a one-element row is broadcast, any other
      length is refused. */
  function AssignRow(width: nat, embedding: Embedding): (row: Option<Embedding>)
    ensures row.Some? <==> |embedding| == width || |embedding| == 1
    ensures row.Some? ==> |row.value| == width
    ensures |embedding| == width ==> row == Some(embedding)
    ensures row.Some? && |embedding| == 1 ==> forall i :: 0 <= i < width ==> row.value[i] == embedding[0]
  {
    if |embedding| == width then Some(embedding)
    else if |embedding| == 1 then Some(seq(width, _ => embedding[0]))
    else None
  }

  /** `update`: an unknown id is refused; the row at `ids.index(id)` is
      assigned (which fails past the array's end or on a bad length), and only
      then is the metadata replaced. The id keeps its position. */
  function UpdateStep(s: Store, id: string, embedding: Embedding, metadata: Metadata): (r: Effect)
    requires WellFormed(s)
    ensures WellFormed(r.after)
  {
    if id !in s.keys then Effect(s, Some(ValueError(MissingMessage(id))))
    else
      var idx := IndexOf(s.keys, id);
      if idx >= |s.vectors| then Effect(s, Some(IndexError))
      else
        match AssignRow(s.width, embedding)
        case None => Effect(s, Some(NumpyValueError))
        case Some(row) =>
          assert forall r :: r in s.vectors[idx := row] ==> r == row || r in s.vectors;
          Effect(s.(vectors := s.vectors[idx := row], metadatas := s.metadatas[id := metadata]), None)
  }

  /** `upsert`: insert when the id is unknown, update otherwise. */
  function UpsertStep(s: Store, id: string, embedding: Embedding, metadata: Metadata): (r: Effect)
    requires WellFormed(s)
    ensures WellFormed(r.after)
  {
    if id !in s.keys then InsertStep(s, id, embedding, metadata)
    else UpdateStep(s, id, embedding, metadata)
  }

  /** The list without its i-th element; later elements move one place down. */
  function RemoveAt<T>(xs: seq<T>, i: nat): (r: seq<T>)
    requires i < |xs|
    ensures |r| == |xs| - 1
    ensures forall k :: 0 <= k < |r| ==> r[k] == xs[if k < i then k else k + 1]
  {
    xs[..i] + xs[i + 1..]
  }

  lemma RemoveAtDistinct(xs: seq<string>, i: nat)
    requires i < |xs| && Distinct(xs)
    ensures Distinct(RemoveAt(xs, i))
    ensures forall k :: k in RemoveAt(xs, i) <==> k in xs && k != xs[i]
  {
    var r := RemoveAt(xs, i);
    forall a, b | 0 <= a < b < |r| ensures r[a] != r[b] {
      var a', b' := if a < i then a else a + 1, if b < i then b else b + 1;
      assert r[a] == xs[a'] && r[b] == xs[b'];
    }
    forall k ensures k in r <==> k in xs && k != xs[i] {
      if k in r {
        var a :| 0 <= a < |r| && r[a] == k;
        assert k == xs[if a < i then a else a + 1];
      }
      if k in xs && k != xs[i] {
        var a :| 0 <= a < |xs| && xs[a] == k;
        assert k == r[if a < i then a else a - 1];
      }
    }
  }

  /** `delete` as written: an unknown id is refused; `np.delete` is called on
      the id's row (which fails past the array's end) but its result is
      discarded, so `vectors` keeps every row; then the id leaves `metadatas`. */
  function DeleteStep(s: Store, id: string): (r: Effect)
    requires WellFormed(s)
    ensures WellFormed(r.after)
  {
    if id !in s.keys then Effect(s, Some(ValueError(MissingMessage(id))))
    else
      var idx := IndexOf(s.keys, id);
      if idx >= |s.vectors| then Effect(s, Some(IndexError))
      else
        RemoveAtDistinct(s.keys, idx);
        Effect(s.(keys := RemoveAt(s.keys, idx), metadatas := s.metadatas - {id}), None)
  }

  /** `get`: an unknown id is refused; the point is the id, the row at
      `ids.index(id)` (an error past the array's end) and the id's metadata. */
  function GetPoint(s: Store, id: string): (r: Result<CollectionPoint>)
    requires WellFormed(s)
    ensures r.Ok? ==> id in s.keys && r.value.id == id && r.value.metadata == s.metadatas[id]
    ensures id !in s.keys ==> r == Err(ValueError(MissingMessage(id)))
  {
    if id !in s.keys then Err(ValueError(MissingMessage(id)))
    else
      var idx := IndexOf(s.keys, id);
      if idx >= |s.vectors| then Err(IndexError)
      else Ok(CollectionPoint(id, s.vectors[idx], s.metadatas[id]))
  }

  // ---------------------------------------------------------------------
  // Properties of the point operations

  /** While the rows are aligned with the ids, `get` succeeds exactly on the known ids. */
  lemma GetSucceedsIffKnown(s: Store, id: string)
    requires WellFormed(s) && Aligned(s)
    ensures GetPoint(s, id).Ok? <==> id in s.keys
  {
  }

  /** Inserting a known id is refused with "already exists" and changes nothing. */
  lemma InsertKnownIdRefused(s: Store, id: string, embedding: Embedding, metadata: Metadata)
    requires WellFormed(s) && id in s.keys
    ensures InsertStep(s, id, embedding, metadata) == Effect(s, Some(ValueError("Vector with id " + id + " already exists")))
  {
  }

  /** Inserting a fresh id with a row of the right width appends the id and
      the row at the end, keeps the rows aligned, makes `get` return the new
      point, and leaves every other id's point as it was. */
  lemma InsertFreshAppends(s: Store, id: string, embedding: Embedding, metadata: Metadata)
    requires WellFormed(s) && Aligned(s)
    requires id !in s.keys && |embedding| == s.width
    ensures var r := InsertStep(s, id, embedding, metadata);
      && r.raised == None
      && r.after.keys == s.keys + [id]
      && r.after.vectors == s.vectors + [embedding]
      && Aligned(r.after)
      && GetPoint(r.after, id) == Ok(CollectionPoint(id, embedding, metadata))
      && forall k :: k in s.keys ==> GetPoint(r.after, k) == GetPoint(s, k)
  {
    var r := InsertStep(s, id, embedding, metadata);
    IndexOfUnique(r.after.keys, id, |s.keys|);
    forall k | k in s.keys ensures GetPoint(r.after, k) == GetPoint(s, k) {
      var i := IndexOf(s.keys, k);
      IndexOfUnique(r.after.keys, k, i);
    }
  }

  /** Finding, as written: a row of the wrong width is refused by numpy only
      after the id has been registered, so the id stays known without a row,
      the rows fall out of alignment and `get` on the id fails. */
  lemma InsertWrongWidthLeavesIdRegistered(s: Store, id: string, embedding: Embedding, metadata: Metadata)
    requires WellFormed(s) && Aligned(s)
    requires id !in s.keys && |embedding| != s.width
    ensures var r := InsertStep(s, id, embedding, metadata);
      && r.raised == Some(NumpyValueError)
      && r.after.keys == s.keys + [id]
      && r.after.vectors == s.vectors
      && !Aligned(r.after)
      && GetPoint(r.after, id) == Err(IndexError)
  {
    var r := InsertStep(s, id, embedding, metadata);
    IndexOfUnique(r.after.keys, id, |s.keys|);
  }

  /** The insert the code evidently intends: the width is checked before
      anything is registered. */
  function InsertStepChecked(s: Store, id: string, embedding: Embedding, metadata: Metadata): (r: Effect)
    requires WellFormed(s)
    ensures WellFormed(r.after)
  {
    if id !in s.keys && |embedding| != s.width then Effect(s, Some(NumpyValueError))
    else InsertStep(s, id, embedding, metadata)
  }

  /** The corrected insert has no partial effect: it fails with the store
      unchanged, or it succeeds and keeps the rows aligned. */
  lemma InsertCheckedIsAtomic(s: Store, id: string, embedding: Embedding, metadata: Metadata)
    requires WellFormed(s) && Aligned(s)
    ensures var r := InsertStepChecked(s, id, embedding, metadata);
      && (r.raised.Some? ==> r.after == s)
      && (r.raised.None? ==> Aligned(r.after) && GetPoint(r.after, id) == Ok(CollectionPoint(id, embedding, metadata)))
      && Aligned(r.after)
  {
    if id !in s.keys && |embedding| == s.width {
      InsertFreshAppends(s, id, embedding, metadata);
    }
  }

  /** update, delete and get on an unknown id are refused with "does not
      exist" and change nothing. */
  lemma UnknownIdRefused(s: Store, id: string, embedding: Embedding, metadata: Metadata)
    requires WellFormed(s) && id !in s.keys
    ensures UpdateStep(s, id, embedding, metadata) == Effect(s, Some(ValueError("Vector with id " + id + " does not exist")))
    ensures DeleteStep(s, id) == Effect(s, Some(ValueError("Vector with id " + id + " does not exist")))
    ensures GetPoint(s, id) == Err(ValueError("Vector with id " + id + " does not exist"))
  {
  }

  /** update on a known id (rows aligned) keeps the id's position, replaces
      its row (broadcasting a one-element row) and its metadata wholesale, and
      leaves every other id's point as it was. */
  lemma UpdateReplacesInPlace(s: Store, id: string, embedding: Embedding, metadata: Metadata)
    requires WellFormed(s) && Aligned(s) && id in s.keys
    requires |embedding| == s.width || |embedding| == 1
    ensures var r := UpdateStep(s, id, embedding, metadata);
      && r.raised == None
      && r.after.keys == s.keys
      && Aligned(r.after)
      && GetPoint(r.after, id) == Ok(CollectionPoint(id, AssignRow(s.width, embedding).value, metadata))
      && forall k :: k in s.keys && k != id ==> GetPoint(r.after, k) == GetPoint(s, k)
  {
    var r := UpdateStep(s, id, embedding, metadata);
    var idx := IndexOf(s.keys, id);
    forall k | k in s.keys && k != id ensures GetPoint(r.after, k) == GetPoint(s, k) {
      var j := IndexOf(s.keys, k);
      assert j != idx;
    }
  }

  /** A second upsert of the same id overwrites the first: `get` returns the
      second embedding and metadata. */
  lemma UpsertTwiceKeepsLast(s: Store, id: string, e1: Embedding, m1: Metadata, e2: Embedding, m2: Metadata)
    requires WellFormed(s) && Aligned(s)
    requires |e1| == s.width && |e2| == s.width
    ensures var r1 := UpsertStep(s, id, e1, m1);
      var r2 := UpsertStep(r1.after, id, e2, m2);
      && r1.raised == None && r2.raised == None
      && Aligned(r2.after)
      && GetPoint(r2.after, id) == Ok(CollectionPoint(id, e2, m2))
  {
    var r1 := UpsertStep(s, id, e1, m1);
    if id in s.keys {
      UpdateReplacesInPlace(s, id, e1, m1);
    } else {
      InsertFreshAppends(s, id, e1, m1);
    }
    UpdateReplacesInPlace(r1.after, id, e2, m2);
  }

  /** Updating a point with the embedding and metadata it already has changes nothing. */
  lemma UpdateWithSameIsNoop(s: Store, id: string, embedding: Embedding, metadata: Metadata)
    requires WellFormed(s) && |embedding| == s.width
    requires GetPoint(s, id) == Ok(CollectionPoint(id, embedding, metadata))
    ensures UpdateStep(s, id, embedding, metadata) == Effect(s, None)
  {
    var idx := IndexOf(s.keys, id);
    assert s.vectors[idx] == embedding;
    assert s.vectors[idx := embedding] == s.vectors;
    assert s.metadatas[id := metadata] == s.metadatas;
  }

  /** Upserting the same point twice leaves the same state as upserting it once. */
  lemma UpsertIdempotent(s: Store, id: string, embedding: Embedding, metadata: Metadata)
    requires WellFormed(s) && Aligned(s) && |embedding| == s.width
    ensures var r1 := UpsertStep(s, id, embedding, metadata);
      UpsertStep(r1.after, id, embedding, metadata) == Effect(r1.after, None)
  {
    var r1 := UpsertStep(s, id, embedding, metadata);
    if id in s.keys {
      UpdateReplacesInPlace(s, id, embedding, metadata);
    } else {
      InsertFreshAppends(s, id, embedding, metadata);
    }
    UpdateWithSameIsNoop(r1.after, id, embedding, metadata);
  }

  /** Insert, update and upsert keep the rows aligned with the ids when they succeed. */
  lemma WritesPreserveAlignment(s: Store, id: string, embedding: Embedding, metadata: Metadata)
    requires WellFormed(s) && Aligned(s)
    ensures InsertStep(s, id, embedding, metadata).raised.None? ==> Aligned(InsertStep(s, id, embedding, metadata).after)
    ensures UpdateStep(s, id, embedding, metadata).raised.None? ==> Aligned(UpdateStep(s, id, embedding, metadata).after)
    ensures UpsertStep(s, id, embedding, metadata).raised.None? ==> Aligned(UpsertStep(s, id, embedding, metadata).after)
  {
  }

  /** delete as written on a known id (rows aligned): the id is gone and `get`
      on it fails, but `vectors` keeps every row, one more than there are ids. */
  lemma DeleteKeepsRows(s: Store, id: string)
    requires WellFormed(s) && Aligned(s) && id in s.keys
    ensures var r := DeleteStep(s, id);
      && r.raised == None
      && id !in r.after.keys && id !in r.after.metadatas
      && r.after.vectors == s.vectors
      && |r.after.vectors| == |r.after.keys| + 1
      && GetPoint(r.after, id) == Err(ValueError(MissingMessage(id)))
  {
    RemoveAtDistinct(s.keys, IndexOf(s.keys, id));
  }

  /** Finding, as written: after deleting the first of two points, `get` on
      the second returns the deleted point's embedding. */
  lemma DeleteMisalignsRows()
    ensures var s := Store(["a", "b"], map["a" := map[], "b" := map[]], [[1.0], [2.0]], 1);
      GetPoint(DeleteStep(s, "a").after, "b") == Ok(CollectionPoint("b", [1.0], map[]))
  {
    var s := Store(["a", "b"], map["a" := map[], "b" := map[]], [[1.0], [2.0]], 1);
    assert WellFormed(s);
    assert IndexOf(s.keys, "a") == 0;
    var after := DeleteStep(s, "a").after;
    assert after.keys == ["b"];
    assert IndexOf(after.keys, "b") == 0;
  }

  /** The delete the code evidently intends: the array returned by
      `np.delete` is stored back, so the id's row goes with the id. */
  function DeleteStepCorrected(s: Store, id: string): (r: Effect)
    requires WellFormed(s)
    ensures WellFormed(r.after)
  {
    if id !in s.keys then Effect(s, Some(ValueError(MissingMessage(id))))
    else
      var idx := IndexOf(s.keys, id);
      if idx >= |s.vectors| then Effect(s, Some(IndexError))
      else
        RemoveAtDistinct(s.keys, idx);
        assert forall r :: r in RemoveAt(s.vectors, idx) ==> r in s.vectors;
        Effect(s.(keys := RemoveAt(s.keys, idx), metadatas := s.metadatas - {id},
                  vectors := RemoveAt(s.vectors, idx)), None)
  }

  /** After the corrected delete, an id that stays is found one position
      earlier when it came after the deleted one, and its row moves with it. */
  lemma DeleteCorrectedKeepsOther(s: Store, id: string, k: string)
    requires WellFormed(s) && Aligned(s) && id in s.keys && k in s.keys && k != id
    ensures GetPoint(DeleteStepCorrected(s, id).after, k) == GetPoint(s, k)
  {
    var idx := IndexOf(s.keys, id);
    RemoveAtDistinct(s.keys, idx);
    var after := DeleteStepCorrected(s, id).after;
    var j := IndexOf(s.keys, k);
    var j' := if j < idx then j else j - 1;
    assert after.keys[j'] == k;
    IndexOfUnique(after.keys, k, j');
    assert after.vectors[j'] == s.vectors[j];
  }

  /** The corrected delete keeps rows aligned, makes `get` on the id fail and
      leaves every other id's point as it was. */
  lemma DeleteCorrectedKeepsAlignment(s: Store, id: string)
    requires WellFormed(s) && Aligned(s) && id in s.keys
    ensures var r := DeleteStepCorrected(s, id);
      && r.raised == None
      && Aligned(r.after)
      && GetPoint(r.after, id) == Err(ValueError(MissingMessage(id)))
      && forall k :: k in s.keys && k != id ==> GetPoint(r.after, k) == GetPoint(s, k)
  {
    RemoveAtDistinct(s.keys, IndexOf(s.keys, id));
    forall k | k in s.keys && k != id ensures GetPoint(DeleteStepCorrected(s, id).after, k) == GetPoint(s, k) {
      DeleteCorrectedKeepsOther(s, id, k);
    }
  }

  // ---------------------------------------------------------------------
  // Query: `np.argsort(similarities)[::-1][:limit]`

  /** The end index of Python's slice `xs[:limit]` on a list of length n. */
  function SliceEnd(n: nat, limit: int): nat
  {
    if limit >= 0 then (if limit < n then limit else n)
    else if n + limit > 0 then n + limit else 0
  }

  /** Index a comes before index b in a descending argsort: a higher score
      first; among equal scores the higher index first (the order a stable
      ascending argsort gives once reversed). */
  predicate Before(scores: seq<real>, a: nat, b: nat)
    requires a < |scores| && b < |scores|
  {
    scores[a] > scores[b] || (scores[a] == scores[b] && a > b)
  }

  /** xs lists indices of `scores`, each strictly before the next. */
  predicate Ranked(scores: seq<real>, xs: seq<nat>)
  {
    && (forall i :: 0 <= i < |xs| ==> xs[i] < |scores|)
    && (forall i, j :: 0 <= i < j < |xs| ==> Before(scores, xs[i], xs[j]))
  }

  function InsertRanked(scores: seq<real>, xs: seq<nat>, x: nat): (r: seq<nat>)
    requires x < |scores| && forall i :: 0 <= i < |xs| ==> xs[i] < |scores|
    ensures |r| == |xs| + 1
    ensures forall y :: y in r <==> y in xs || y == x
  {
    if xs == [] then [x]
    else if Before(scores, x, xs[0]) then [x] + xs
    else
      var t := InsertRanked(scores, xs[1..], x);
      assert forall y :: y in xs <==> y == xs[0] || y in xs[1..];
      [xs[0]] + t
  }

  /** Inserting an index not yet present keeps a ranked list ranked. */
  lemma {:induction false} InsertRankedKeepsRanked(scores: seq<real>, xs: seq<nat>, x: nat)
    requires x < |scores| && Ranked(scores, xs) && x !in xs
    ensures Ranked(scores, InsertRanked(scores, xs, x))
  {
    var r := InsertRanked(scores, xs, x);
    if xs != [] && !Before(scores, x, xs[0]) {
      InsertRankedKeepsRanked(scores, xs[1..], x);
      var t := InsertRanked(scores, xs[1..], x);
      assert r == [xs[0]] + t;
      forall i, j | 0 <= i < j < |r| ensures Before(scores, r[i], r[j]) {
        if i == 0 {
          assert r[j] in t;
          if r[j] == x {
            assert x != xs[0];
          } else {
            var k :| 0 <= k < |xs[1..]| && xs[1..][k] == r[j];
            assert Before(scores, xs[0], xs[k + 1]);
          }
        }
      }
    } else if xs != [] {
      forall i, j | 0 <= i < j < |r| ensures Before(scores, r[i], r[j]) {
        if i == 0 && j > 1 {
          assert Before(scores, xs[0], xs[j - 1]);
        }
      }
    }
  }

  /** The indices 0..n-1 of `scores` in descending-argsort order. */
  function ArgSortDesc(scores: seq<real>, n: nat): (r: seq<nat>)
    requires n <= |scores|
    ensures |r| == n
    ensures forall i :: 0 <= i < |r| ==> r[i] < n
    ensures forall y: int :: y in r <==> 0 <= y < n
  {
    if n == 0 then [] else
      var r := InsertRanked(scores, ArgSortDesc(scores, n - 1), n - 1);
      assert forall i :: 0 <= i < |r| ==> r[i] in r;
      r
  }

  lemma {:induction false} ArgSortDescRanked(scores: seq<real>, n: nat)
    requires n <= |scores|
    ensures Ranked(scores, ArgSortDesc(scores, n))
  {
    if n > 0 {
      ArgSortDescRanked(scores, n - 1);
      InsertRankedKeepsRanked(scores, ArgSortDesc(scores, n - 1), n - 1);
    }
  }

  /** `np.argsort(scores)[::-1][:limit]`: the top `limit` indices by score.
      The result has Python's slice length, lists distinct in-range indices in
      non-increasing score order, and no index left out scores higher than
      one selected. */
  function TopK(scores: seq<real>, limit: int): (r: seq<nat>)
    ensures |r| == SliceEnd(|scores|, limit)
    ensures limit >= 0 ==> |r| == (if limit < |scores| then limit else |scores|)
    ensures forall i :: 0 <= i < |r| ==> r[i] < |scores|
    ensures forall i, j :: 0 <= i < j < |r| ==> r[i] != r[j] && scores[r[i]] >= scores[r[j]]
    ensures forall y, i :: 0 <= y < |scores| && y !in r && 0 <= i < |r| ==> scores[y] <= scores[r[i]]
  {
    var all := ArgSortDesc(scores, |scores|);
    ArgSortDescRanked(scores, |scores|);
    var r := all[..SliceEnd(|scores|, limit)];
    assert forall y :: 0 <= y < |scores| && y !in r ==>
      exists p :: |r| <= p < |all| && all[p] == y by {
      forall y | 0 <= y < |scores| && y !in r
        ensures exists p :: |r| <= p < |all| && all[p] == y
      {
        assert y in all;
        var p :| 0 <= p < |all| && all[p] == y;
      }
    }
    r
  }

  /** query as written: the selected indices are turned into
      `CollectionPointResult(id=..., embedding=..., metadata=..., score=...)`,
      which evaluates `ids[i]` (an IndexError past the last id) and then fails
      pydantic validation because `payload` is missing. Only an empty
      selection returns. `scores[i]` stands for the cosine similarity of row i
      to the query embedding; the filters argument is not used. */
  function QueryPoints(s: Store, scores: seq<real>, limit: int): (r: Result<seq<CollectionPointResult>>)
    requires WellFormed(s) && |scores| == |s.vectors|
    ensures r.Ok? <==> TopK(scores, limit) == []
    ensures r.Ok? ==> r.value == []
  {
    var sel := TopK(scores, limit);
    if sel == [] then Ok([])
    else if sel[0] >= |s.keys| then Err(IndexError)
    else Err(ValidationError)
  }

  /** Finding, as written: every query that selects at least one row fails. */
  lemma QueryAsWrittenFails(s: Store, scores: seq<real>, limit: int)
    requires WellFormed(s) && |scores| == |s.vectors|
    requires |s.vectors| > 0 && limit > 0
    ensures QueryPoints(s, scores, limit).Err?
  {
  }

  /** The result list the code evidently intends: each selected row becomes a
      result whose payload is the row's point and whose score is the row's
      score. */
  function QueryPointsCorrected(s: Store, scores: seq<real>, limit: int): (r: Result<seq<CollectionPointResult>>)
    requires WellFormed(s) && |scores| == |s.vectors|
    ensures Aligned(s) ==> r.Ok?
    ensures r.Ok? ==> |r.value| == SliceEnd(|scores|, limit)
    ensures r.Ok? ==> forall i, j :: 0 <= i < j < |r.value| ==> r.value[i].score >= r.value[j].score
    ensures r.Err? ==> r == Err(IndexError)
  {
    var sel := TopK(scores, limit);
    if exists k :: 0 <= k < |sel| && sel[k] >= |s.keys| then Err(IndexError)
    else
      Ok(seq(|sel|, k requires 0 <= k < |sel| =>
        CollectionPointResult(
          CollectionPoint(s.keys[sel[k]], s.vectors[sel[k]], s.metadatas[s.keys[sel[k]]]),
          scores[sel[k]])))
  }

  function PayloadIds(results: seq<CollectionPointResult>): set<string>
  {
    set k | 0 <= k < |results| :: results[k].payload.id
  }

  /** The corrected query on aligned rows returns min(limit, n) results (for
      limit >= 0) for distinct ids, in non-increasing score order; each
      payload is what `get` returns for its id, and no point left out scores
      higher than one returned. The filters argument plays no part. */
  lemma QueryCorrectedRanks(s: Store, scores: seq<real>, limit: int)
    requires WellFormed(s) && Aligned(s) && |scores| == |s.vectors|
    ensures var r := QueryPointsCorrected(s, scores, limit);
      && r.Ok?
      && |r.value| == SliceEnd(|s.keys|, limit)
      && (forall i, j :: 0 <= i < j < |r.value| ==>
            r.value[i].payload.id != r.value[j].payload.id && r.value[i].score >= r.value[j].score)
      && (forall i :: 0 <= i < |r.value| ==> GetPoint(s, r.value[i].payload.id) == Ok(r.value[i].payload))
      && (forall y, i :: 0 <= y < |s.keys| && 0 <= i < |r.value| && s.keys[y] !in PayloadIds(r.value)
            ==> scores[y] <= r.value[i].score)
  {
    var sel := TopK(scores, limit);
    var r := QueryPointsCorrected(s, scores, limit);
    assert r.Ok?;
    var ids := PayloadIds(r.value);
    forall i | 0 <= i < |r.value| ensures GetPoint(s, r.value[i].payload.id) == Ok(r.value[i].payload) {
      IndexOfUnique(s.keys, s.keys[sel[i]], sel[i]);
    }
    assert forall k :: 0 <= k < |sel| ==> s.keys[sel[k]] == r.value[k].payload.id;
    assert forall k :: 0 <= k < |sel| ==> s.keys[sel[k]] in ids;
  }

  // ---------------------------------------------------------------------
  // The collection object

  /** NumpyCollection: a name, a dimension and the mutable state above. */
  class NumpyCollection {
    const name: string
    const dimension: nat
    var keys: seq<string>
    var metadatas: map<string, Metadata>
    var vectors: seq<Embedding>

    /** The collection's state as a value. */
    function Snapshot(): Store
      reads this
    {
      Store(keys, metadatas, vectors, dimension)
    }

    ghost predicate Valid()
      reads this
    {
      WellFormed(Snapshot())
    }

    /** A new collection: no points and an empty (0, dimension) array. A
        negative dimension is refused by numpy before this runs (see the
        registry). */
    constructor (name: string, dimension: nat)
      ensures this.name == name && this.dimension == dimension
      ensures Valid() && Snapshot() == Empty(dimension)
    {
      this.name := name;
      this.dimension := dimension;
      keys := [];
      metadatas := map[];
      vectors := [];
    }

    method Insert(id: string, embedding: Embedding, metadata: Metadata) returns (raised: Option<Exception>)
      requires Valid()
      modifies this
      ensures Valid()
      ensures Effect(Snapshot(), raised) == InsertStep(old(Snapshot()), id, embedding, metadata)
    {
      if id in keys {
        return Some(ValueError(ExistsMessage(id)));
      }
      metadatas := metadatas[id := metadata];
      keys := keys + [id];
      if |embedding| != dimension {
        return Some(NumpyValueError);
      }
      vectors := vectors + [embedding];
      return None;
    }

    method Update(id: string, embedding: Embedding, metadata: Metadata) returns (raised: Option<Exception>)
      requires Valid()
      modifies this
      ensures Valid()
      ensures Effect(Snapshot(), raised) == UpdateStep(old(Snapshot()), id, embedding, metadata)
    {
      if id !in keys {
        return Some(ValueError(MissingMessage(id)));
      }
      var idx := IndexOf(keys, id);
      if idx >= |vectors| {
        return Some(IndexError);
      }
      var row := AssignRow(dimension, embedding);
      if row.None? {
        return Some(NumpyValueError);
      }
      vectors := vectors[idx := row.value];
      metadatas := metadatas[id := metadata];
      return None;
    }

    method Upsert(id: string, embedding: Embedding, metadata: Metadata) returns (raised: Option<Exception>)
      requires Valid()
      modifies this
      ensures Valid()
      ensures Effect(Snapshot(), raised) == UpsertStep(old(Snapshot()), id, embedding, metadata)
    {
      if id !in keys {
        raised := Insert(id, embedding, metadata);
      } else {
        raised := Update(id, embedding, metadata);
      }
    }

    method Delete(id: string) returns (raised: Option<Exception>)
      requires Valid()
      modifies this
      ensures Valid()
      ensures Effect(Snapshot(), raised) == DeleteStep(old(Snapshot()), id)
    {
      if id !in keys {
        return Some(ValueError(MissingMessage(id)));
      }
      var idx := IndexOf(keys, id);
      if idx >= |vectors| {
        return Some(IndexError);
      }
      // np.delete(self.vectors, idx, 0) returns a new array that is dropped.
      RemoveAtDistinct(keys, idx);
      keys := RemoveAt(keys, idx);
      metadatas := metadatas - {id};
      return None;
    }
  }
}
