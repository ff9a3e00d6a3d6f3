# vectorapi collections, modelled in Dafny

vectorapi stores embeddings ("points": an id, a vector of floats and a JSON
metadata dict) in named collections and answers nearest-neighbour queries
over them. This project models the three parts of it that hold the logic:

- **The in-memory store** (`vectorapi/stores/numpy/collection.py`). A
  `NumpyCollection` keeps its metadata in an insertion-ordered dict and its
  vectors in a numpy matrix whose row i belongs to the i-th id. Module
  `NumpyStore` (numpy_collection.dfy) has the class `NumpyCollection`. Its
  methods change the fields in place, and each is proved equal to a step
  function on a `Store` value. The lemmas about those step functions state
  what insert, update, upsert, delete, get and the top-k query promise. They
  also show where the code breaks that promise.
- **The in-memory registry** (`vectorapi/stores/numpy/client.py` and the base
  `vectorapi/models/client.py`). Module `NumpyRegistry` (numpy_client.dfy)
  has the class `NumpyClient`. It holds the dict from collection names to
  collections, and it carries `get_or_create_collection`, `setup` and
  `teardown` from the base class.
- **The PostgreSQL collection** (`vectorapi/pgvector/collection.py`). Module
  `FilterCompiler` (pgvector_filter.dfy) turns a JSON filter into the
  condition that `_build_filter_expressions` builds, and gives that condition
  its meaning under SQL's three-valued logic. Module `PgVector`
  (pgvector_collection.dfy) has the class `PGVectorCollection`. Its table is
  a map from primary key to row, and insert, update, upsert, delete, get and
  query are defined over that map.

Shared shapes are in `Models` (models.dfy): JSON values, points and query
results. Exceptions are values in `Exceptions` (exceptions.dfy). A Python
`raise` becomes an `Err` result, or a `Some` in a method's `raised`
out-parameter. Each distinct exception class is a distinct constructor.

Where a test and the code disagree, the model follows the code:
`NumpyClient.get_collection` raises for a missing name, while the registry
tests expect `None`.

Two behaviours of the code that differ from what its documentation suggests
are modelled as the code has them:

- `{"f": {"$ne": v}}` drops rows that have no key `f`, because the jsonb `->`
  operator yields NULL there.
- The in-memory store accepts a collection of dimension 0. The PostgreSQL
  store cannot have one: `VECTOR(0)` is not a valid column type, so its
  dimension is at least 1 (`PgVector.Dimension`).

The filter's SQL is modelled down to how SQLAlchemy 2 assembles `and_`/`or_`
(a single operand stands alone, nested lists of the same operator are
flattened, an `or_` among the operands of an `and_` is parenthesised) and
renders it (empty operands are left out). A blank `$or` group next to other
conditions under `$and` therefore renders as `()`, which PostgreSQL refuses
as a syntax error.

## Model

| member | source | states |
|---|---|---|
| NumpyStore.InsertStep | vectorapi/stores/numpy/collection.py:38-42 | insert keeps the store well formed: ids distinct, metadata keys equal to the ids, every row of the matrix width |
| NumpyStore.InsertKnownIdRefused | vectorapi/stores/numpy/collection.py:39-40 | inserting a known id raises ValueError "Vector with id … already exists" and changes nothing |
| NumpyStore.InsertFreshAppends | vectorapi/stores/numpy/collection.py:41-42 | inserting a new id with a vector of the right width appends the id and the row; get then returns the new point, and every earlier point is unchanged |
| NumpyStore.InsertWrongWidthLeavesIdRegistered | vectorapi/stores/numpy/collection.py:41-42 | as written: a wrong-width vector raises numpy's ValueError only after the id is registered, so the ids outnumber the rows and get on that id raises IndexError |
| NumpyStore.InsertStepChecked | vectorapi/stores/numpy/collection.py:38-42 | corrected insert (width checked first) keeps the store well formed |
| NumpyStore.InsertCheckedIsAtomic | vectorapi/stores/numpy/collection.py:38-42 | the corrected insert either fails with the store unchanged or succeeds with ids and rows aligned and the new point readable |
| NumpyStore.AssignRow | vectorapi/stores/numpy/collection.py:48 | numpy row assignment accepts a vector of the row's width or of length 1 (broadcast to every entry) and refuses any other length |
| NumpyStore.UpdateStep | vectorapi/stores/numpy/collection.py:44-49 | update keeps the store well formed |
| NumpyStore.UnknownIdRefused | vectorapi/stores/numpy/collection.py:44-66 | update, delete and get of an unknown id raise ValueError "Vector with id … does not exist" and change nothing |
| NumpyStore.UpdateReplacesInPlace | vectorapi/stores/numpy/collection.py:47-49 | update of a known id keeps the id order, replaces that point's row and metadata, and leaves every other point unchanged |
| NumpyStore.UpdateWithSameIsNoop | vectorapi/stores/numpy/collection.py:44-49 | updating a point with its own vector and metadata leaves the store unchanged |
| NumpyStore.UpsertStep | vectorapi/stores/numpy/collection.py:51-55 | upsert keeps the store well formed |
| NumpyStore.UpsertTwiceKeepsLast | vectorapi/stores/numpy/collection.py:51-55 | two upserts of the same id both succeed, and get then returns the second vector and metadata |
| NumpyStore.UpsertIdempotent | vectorapi/stores/numpy/collection.py:51-55 | on a store with one row per id, repeating an upsert of a vector of the collection's width changes nothing and raises nothing |
| NumpyStore.WritesPreserveAlignment | vectorapi/stores/numpy/collection.py:38-55 | a successful insert, update or upsert leaves exactly one row per id |
| NumpyStore.DeleteStep | vectorapi/stores/numpy/collection.py:57-62 | delete as written keeps the store well formed |
| NumpyStore.DeleteKeepsRows | vectorapi/stores/numpy/collection.py:60-62 | as written: delete drops the id and its metadata but keeps every row, since the result of `np.delete` is discarded |
| NumpyStore.DeleteMisalignsRows | vectorapi/stores/numpy/collection.py:57-68 | as written: with points a=[1.0] and b=[2.0], deleting a makes get(b) return [1.0] |
| NumpyStore.DeleteStepCorrected | vectorapi/stores/numpy/collection.py:57-62 | corrected delete, which also removes the row, keeps the store well formed |
| NumpyStore.DeleteCorrectedKeepsOther | vectorapi/stores/numpy/collection.py:57-62 | after the corrected delete every other point reads back unchanged |
| NumpyStore.DeleteCorrectedKeepsAlignment | vectorapi/stores/numpy/collection.py:57-62 | the corrected delete succeeds, keeps one row per id, makes the deleted id unknown and leaves the other points unchanged |
| NumpyStore.GetPoint | vectorapi/stores/numpy/collection.py:64-68 | get returns the point stored under the id, or ValueError "Vector with id … does not exist" for an unknown id |
| NumpyStore.GetSucceedsIffKnown | vectorapi/stores/numpy/collection.py:64-68 | on an aligned store, get succeeds exactly for the known ids |
| NumpyStore.ArgSortDesc | vectorapi/stores/numpy/collection.py:79 | the reversed argsort is a permutation of the indices 0..n-1 |
| NumpyStore.ArgSortDescRanked | vectorapi/stores/numpy/collection.py:79 | the reversed argsort lists the indices in non-increasing score order, ties by descending index |
| NumpyStore.TopK | vectorapi/stores/numpy/collection.py:79 | `[:limit]` of the reversed argsort: min(limit, n) distinct in-range indices for limit ≥ 0 (Python slice length otherwise), in non-increasing score order, with no index left out scoring above one taken |
| NumpyStore.QueryPoints | vectorapi/stores/numpy/collection.py:73-90 | as written: query returns only when it selects nothing, and otherwise raises (IndexError or pydantic's ValidationError for the missing payload) |
| NumpyStore.QueryAsWrittenFails | vectorapi/stores/numpy/collection.py:82-90 | as written: query on a non-empty store with a positive limit always raises |
| NumpyStore.QueryPointsCorrected | vectorapi/stores/numpy/collection.py:73-90 | corrected query on a store with one row per id always succeeds, with Python's `[:limit]` slice length and scores in non-increasing order; the only failure is IndexError |
| NumpyStore.QueryCorrectedRanks | vectorapi/stores/numpy/collection.py:73-90 | corrected query returns min(limit, n) results with distinct ids in non-increasing score order, each the stored point; no point left out scores above one returned |
| NumpyStore.NumpyCollection.constructor | vectorapi/stores/numpy/collection.py:30-32 | a new collection is empty, with rows of the given width |
| NumpyStore.NumpyCollection.Insert | vectorapi/stores/numpy/collection.py:38-42 | updates the fields exactly as InsertStep says, keeping Valid |
| NumpyStore.NumpyCollection.Update | vectorapi/stores/numpy/collection.py:44-49 | updates the fields exactly as UpdateStep says, keeping Valid |
| NumpyStore.NumpyCollection.Upsert | vectorapi/stores/numpy/collection.py:51-55 | updates the fields exactly as UpsertStep says, keeping Valid |
| NumpyStore.NumpyCollection.Delete | vectorapi/stores/numpy/collection.py:57-62 | updates the fields exactly as DeleteStep says, keeping Valid |
| NumpyRegistry.NumpyClient.constructor | vectorapi/stores/numpy/client.py:9-10 | a new registry is empty |
| NumpyRegistry.NumpyClient.CreateCollection | vectorapi/stores/numpy/client.py:12-16 | a taken name raises ValueError and a negative dimension raises numpy's ValueError, both with nothing changed; otherwise a fresh empty collection with that name and dimension is stored last and returned |
| NumpyRegistry.NumpyClient.GetCollection | vectorapi/stores/numpy/client.py:18-22 | returns the very object stored under the name, or raises the stores' CollectionNotFound "Collection with name … does not exist" |
| NumpyRegistry.NumpyClient.DeleteCollection | vectorapi/stores/numpy/client.py:24-28 | a missing name raises the lookup's CollectionNotFound with nothing changed; otherwise exactly that entry is removed |
| NumpyRegistry.NumpyClient.ListCollections | vectorapi/stores/numpy/client.py:30-31 | every stored collection exactly once, in the order the current entries were created |
| NumpyRegistry.NumpyClient.GetOrCreateCatching | vectorapi/models/client.py:20-27 | get-or-create with the caught class as a parameter: a present name returns the stored collection; a caught miss creates a fresh empty collection with that name and dimension, or raises numpy's ValueError with nothing stored for a negative dimension; any other exception propagates unchanged |
| NumpyRegistry.NumpyClient.GetOrCreateCollection | vectorapi/models/client.py:20-27 | as written: a missing name is not created, and the stores' CollectionNotFound propagates with nothing changed |
| NumpyRegistry.NumpyClient.GetOrCreateCollectionCorrected | vectorapi/models/client.py:20-27 | corrected: a missing name is created as a fresh empty collection of the given dimension, a negative dimension raises numpy's ValueError with nothing stored, and a present name is returned unchanged |
| NumpyRegistry.GetOrCreateOnEmptyRegistryFails | vectorapi/models/client.py:20-27 | as written: on a new registry, get-or-create of "test_collection" fails with CollectionNotFound |
| NumpyRegistry.GetOrCreateCorrectedCreatesOnce | vectorapi/models/client.py:20-27 | corrected: on a new registry, get-or-create creates the collection, and a second call returns the same object although it asks for another dimension |
| NumpyRegistry.NumpyClient.Setup | vectorapi/models/client.py:37-38 | setup changes nothing |
| NumpyRegistry.NumpyClient.Teardown | vectorapi/models/client.py:40-41 | teardown changes nothing |
| FilterCompiler.Collect | vectorapi/pgvector/collection.py:207 | the list comprehension succeeds exactly when every element compiles; otherwise the first failing element's exception is raised |
| FilterCompiler.OnlyLastMemberCounts | vectorapi/pgvector/collection.py:204 | only the last member of a filter object is compiled, the earlier members having other keys as in any dict |
| FilterCompiler.MalformedFilterErrors | vectorapi/pgvector/collection.py:204-211 | an empty filter raises IndexError, a leaf that is not an object raises AttributeError, and an empty operator object raises KeyError |
| FilterCompiler.LeafErrors | vectorapi/pgvector/collection.py:211-224 | a non-string operand raises "Filter value must be a string" whatever the operator; a string operand under an operator other than $eq/$ne raises "Unsupported operator <op>" |
| FilterCompiler.CombinatorCompilesChildren | vectorapi/pgvector/collection.py:204-209 | a $and/$or list whose elements all compile, canonical or not, yields and_/or_ of exactly their conditions in list order |
| FilterCompiler.FirstChildErrorPropagates | vectorapi/pgvector/collection.py:206-209 | in a $and/$or list, the first element that fails to compile decides the exception |
| FilterCompiler.AndFilterPasses | vectorapi/pgvector/collection.py:206-207 | $and keeps a row exactly when every element's condition keeps it |
| FilterCompiler.OrFilterPasses | vectorapi/pgvector/collection.py:208-209 | $or keeps a row exactly when some element's condition is TRUE, or when no element renders any SQL |
| FilterCompiler.LeafFilterSemantics | vectorapi/pgvector/collection.py:216-222 | {f: {$eq: v}} keeps exactly the rows holding the string v under f; {f: {$ne: v}} keeps exactly the rows holding another value under f; a row without f passes neither |
| FilterCompiler.EmptyCombinatorKeepsAll | vectorapi/pgvector/collection.py:206-209 | an empty $and/$or list compiles and keeps every row |
| FilterCompiler.CompileRender | vectorapi/pgvector/collection.py:183-224 | every condition whose fields are not named $and/$or is compiled back from its canonical filter |
| FilterCompiler.Compile | vectorapi/pgvector/collection.py:183-209 | a filter that is not an object raises AttributeError; every exception raised is IndexError, KeyError, AttributeError, TypeError or CollectionPointFilterError; a field named $and or $or is always read as a combinator, so no compiled condition tests such a field |
| FilterCompiler.CompileLeaf | vectorapi/pgvector/collection.py:211-224 | a field test compiles to an equality test exactly under $eq and to an inequality test otherwise, on that field, with the string operand of the last operator member; it raises only KeyError, AttributeError or CollectionPointFilterError |
| FilterCompiler.Eval | vectorapi/pgvector/collection.py:206-222 | the condition renders as no SQL exactly when it is made of and_/or_ groups with no field test inside; a field test on a missing key is NULL |
| FilterCompiler.Passes | vectorapi/pgvector/collection.py:131-133 | WHERE keeps every row under a blank condition; under {f: {$eq: v}} exactly the rows holding v under f; under {f: {$ne: v}} exactly the rows holding another value under f |
| FilterCompiler.BlankDisjunctionUnderConjunction | vectorapi/pgvector/collection.py:206-209 | an or_ of two or more empty and_ groups is blank and renders fine alone, but next to another condition under and_ it renders as "()" |
| FilterCompiler.NoEmptyListRenders | vectorapi/pgvector/collection.py:206-209 | a filter with no empty $and/$or list renders as SQL that is not empty and holds no "()" |
| PgVector.IsDuplicateKeyError | vectorapi/pgvector/collection.py:230-231 | true exactly when the message contains "duplicate key value violates unique constraint" at some position |
| PgVector.DuplicateMessageRecognised | vectorapi/pgvector/collection.py:230-231 | the primary-key violation message of any table is recognised |
| PgVector.DimensionMessageNotDuplicate | vectorapi/pgvector/collection.py:230-231 | pgvector's "expected N dimensions, not M" message is not taken for a duplicate key |
| PgVector.InsertStep | vectorapi/pgvector/collection.py:52-63 | insert only raises database errors and then leaves the table unchanged; on success it adds exactly one id; every stored embedding keeps the collection's dimension |
| PgVector.InsertIsAtomic | vectorapi/pgvector/collection.py:52-63 | on a table of dimension at least 1, insert succeeds exactly for a right-length embedding under an unknown id, adding just that row; otherwise it raises with the table unchanged |
| PgVector.InsertKnownIdIsDuplicate | vectorapi/pgvector/collection.py:52-63 | inserting a known id raises an error that upsert recognises as a duplicate key |
| PgVector.UpdateStep | vectorapi/pgvector/collection.py:65-77 | update never adds or removes a row and touches no row but its own; it only raises database errors and then changes nothing; every stored embedding keeps the collection's dimension |
| PgVector.UpdateReplacesOrIgnores | vectorapi/pgvector/collection.py:65-77 | update of a missing id is a silent no-op; of a known id it replaces embedding and metadata wholesale, or raises with nothing changed |
| PgVector.UpsertStep | vectorapi/pgvector/collection.py:174-181 | upsert adds at most its own id and touches no other row; it only raises database errors and then changes nothing; every stored embedding keeps the collection's dimension |
| PgVector.UpsertIsPut | vectorapi/pgvector/collection.py:174-181 | on a table of dimension at least 1 and with a right-length embedding, upsert stores exactly that row under the id, known or not, and raises nothing |
| PgVector.UpsertWrongDimensionRaises | vectorapi/pgvector/collection.py:174-181 | with a wrong-length embedding, upsert raises the insert's dimension error again and changes nothing, even for a known id |
| PgVector.UpsertIdempotent | vectorapi/pgvector/collection.py:174-181 | a second identical upsert leaves the table as the first left it |
| PgVector.RankedIds | vectorapi/pgvector/collection.py:126-135 | ORDER BY score LIMIT k over the rows the filter keeps: min(k, number of candidates) ids, each a candidate |
| PgVector.RankedIdsOrdered | vectorapi/pgvector/collection.py:126-135 | ORDER BY score LIMIT k yields distinct ids in non-increasing score order |
| PgVector.RankedIdsNoneLeftOutBetter | vectorapi/pgvector/collection.py:126-135 | no candidate left out by ORDER BY score LIMIT k scores higher than one taken |
| PgVector.RankedIdsComplete | vectorapi/pgvector/collection.py:126-135 | when LIMIT is at least the number of candidates, every candidate is returned |
| PgVector.PGVectorCollection.constructor | vectorapi/pgvector/collection.py:86-94 | a handle on the named table with the given dimension, at least 1, and rows |
| PgVector.PGVectorCollection.Insert | vectorapi/pgvector/collection.py:109-111 | changes the table exactly as InsertStep says |
| PgVector.PGVectorCollection.Update | vectorapi/pgvector/collection.py:166-172 | changes the table exactly as UpdateStep says |
| PgVector.PGVectorCollection.Upsert | vectorapi/pgvector/collection.py:174-181 | changes the table exactly as UpsertStep says |
| PgVector.PGVectorCollection.Delete | vectorapi/pgvector/collection.py:116-118 | removes the row if present, and a missing id is no error; no other row changes |
| PgVector.PGVectorCollection.Get | vectorapi/pgvector/collection.py:154-164 | returns the stored point, or raises CollectionPointNotFound "Collection point with id … not found in collection …" naming both |
| PgVector.PGVectorCollection.Query | vectorapi/pgvector/collection.py:120-152 | no filter or a JSON null filter keeps every row; a bad filter raises its compile error whatever the table holds; a filter rendered with "()" raises PostgreSQL's syntax error; a negative limit is refused; otherwise it returns min(limit, matching rows) of the rows the filter keeps, each with its stored point and score, with distinct ids, best first, and none left out scoring higher |
| PgVector.QueryNestedBlankGroupFails | vectorapi/pgvector/collection.py:131-136 | the filter {"$and": [{"f": {"$eq": "a"}}, {"$or": [{"$and": []}, {"$and": []}]}]} makes the query fail with PostgreSQL's syntax error |
| PgVector.QueryNullFilterIsUnfiltered | vectorapi/pgvector/collection.py:131-133 | a JSON null filter (Python's None) runs the query unfiltered, exactly as no filter does |
| PgVector.QueryEqFilterSelects | vectorapi/pgvector/collection.py:131-135 | a query filtered by {f: {$eq: v}} returns only points holding v under f, and all of them when the limit does not bite |

## Left out

- Cosine similarity is floating-point maths, both numpy's `_cosine_similarity` and pgvector's `cosine_distance`. Scores are given inputs: a sequence parallel to the rows in `NumpyStore`, and a map from id to score in `PgVector`.
- The query vector itself is not modelled. This also drops the error for a query vector of the wrong length. A zero query vector yields NaN similarities, which the given scores cannot express.
- NumpyStore.TopK, PGVectorCollection.Query: a stored zero row also scores NaN, which the real-valued scores cannot express. The two stores place such a row differently: numpy's argsort sorts NaN last, so after `[::-1]` it comes first, while PostgreSQL orders a NaN distance last.
- UpsertIsPut: pgvector's `vector` column holds single-precision floats. Each stored component is the float32 rounding of the one written (0.1 reads back as 0.10000000149011612), and a finite component beyond about ±3.4e38 is refused with a database error, as are NaN and infinity. Embeddings here are exact reals, so this lemma promises exact storage and success where the source rounds or raises.
- InsertIsAtomic: the same float32 rounding and range refusal are not modelled; insert is promised to store the exact reals and to succeed for every right-length embedding.
- PGVectorCollection.Get, PGVectorCollection.Query: they return the stored reals as written, not their float32 roundings.
- Compile: its own contract does not give the result of a $and/$or list; CombinatorCompilesChildren states it for every list whose elements compile.
- FilterCompiler.Eval: the value of a condition is computed on the compiled tree, not on SQLAlchemy's flattened clause; AND and OR are associative, so flattening does not change it. The "()" that a nested blank group renders is modelled separately by `Build` and `Renderable`.
- SQLAlchemy sessions, commit/flush and the async context managers are not modelled. Each statement is one atomic step on the table map.
- `build_table` and the declarative table classes are not modelled. `PGVectorCollection.table` is the map of rows.
- The unreachable `if self.table is None` and `if self.table is not None` checks in query and update are not modelled.
- The SQLAlchemy wrapper text that prefixes a database error message is not modelled.
- Logging (`logger.debug`), pydantic's ndarray serialisation and `__repr__` are not modelled.
- NumpyStore.QueryPoints: `filters` is accepted by the source and ignored, so the model has no filter parameter at all.
- NumpyStore.TopK: the order among rows with equal scores follows numpy's default argsort, modelled as stable. numpy's quicksort does not promise this.
- PgVector.PGVectorCollection.Query: rows with equal scores come in an unspecified order, as SQL's ORDER BY leaves them.
- NumpyRegistry.NumpyClient.DeleteCollection: the `else: raise ValueError` branch is not modelled. A stored collection is always truthy, so that branch cannot run.
- NumpyCollection.create and PGVectorCollection.create are not modelled. The first only calls the constructor and the second does nothing.
- The other stores and clients under vectorapi/stores/pgvector and vectorapi/pgvector/client.py are not part of this model, nor are the HTTP routes, the embedder or the settings.

## Findings

| source | as written | input that shows it | evidently intended | confidence | as-written member | corrected member |
|---|---|---|---|---|---|---|
| vectorapi/stores/numpy/collection.py:61 | `np.delete` returns a new array that is discarded, so the row stays | points a=[1.0], b=[2.0]; delete a; get b returns [1.0] | the deleted id's row is removed too | not executed | NumpyStore.DeleteMisalignsRows | NumpyStore.DeleteCorrectedKeepsAlignment |
| vectorapi/stores/numpy/collection.py:41-42 | the id is registered before `vstack` checks the width | insert of a new id with a vector of the wrong width; get of that id then raises IndexError | a failed insert leaves the store unchanged | not executed | NumpyStore.InsertWrongWidthLeavesIdRegistered | NumpyStore.InsertCheckedIsAtomic |
| vectorapi/stores/numpy/collection.py:82-90 | the result is built with id/embedding/metadata, but CollectionPointResult requires `payload` | any query on a non-empty collection with limit ≥ 1 raises | each result carries its point as payload | not executed | NumpyStore.QueryAsWrittenFails | NumpyStore.QueryCorrectedRanks |
| vectorapi/models/client.py:24 | catches vectorapi.exceptions.CollectionNotFound, while the numpy registry raises vectorapi.stores.exceptions.CollectionNotFound | get_or_create_collection("test_collection", 2) on an empty registry raises | a missing collection is created | not executed | NumpyRegistry.GetOrCreateOnEmptyRegistryFails | NumpyRegistry.GetOrCreateCorrectedCreatesOnce |
