/** The PostgreSQL-backed collection (`PGVectorCollection`) over an abstract
    table: a map from point id (the primary key) to the stored embedding and
    metadata. The SQL statements become updates of that map. A statement that
    fails, whether PostgreSQL refuses it or pgvector's column type refuses a
    parameter before it is sent, surfaces as a SQLAlchemy exception wrapping
    the underlying message; here that is a `DatabaseError` carrying the
    message. */
module PgVector {
  import opened Exceptions
  import opened Models
  import opened FilterCompiler

  /** The dimension of a pgvector column: `VECTOR(0)` is not a valid type, so
      a table always has at least one. */
  type Dimension = d: nat | d >= 1 witness 1

  /** One row of the collection's table. */
  datatype Row = Row(embedding: Embedding, metadata: Metadata)

  type Table = map<string, Row>

  /** The table after an operation and the exception it raised, if any. */
  datatype Outcome = Outcome(after: Table, raised: Option<Exception>)

  // ---------------------------------------------------------------------
  // Error messages

  const DuplicateKeyMarker := "duplicate key value violates unique constraint"

  /** PostgreSQL's message for a second row with the same primary key. */
  function DuplicateKeyMessage(tableName: string): string
  {
    DuplicateKeyMarker + " \"" + tableName + "_pkey\""
  }

  /** The message of the error pgvector's `Vector` column type raises, on
      the client while binding the parameter, for an embedding of the wrong
      length; SQLAlchemy wraps it in its own exception. */
  function DimensionMessage(expected: nat, actual: nat): string
  {
    "expected " + NatToString(expected) + " dimensions, not " + NatToString(actual)
  }

  /** PostgreSQL's message for a negative LIMIT. */
  const NegativeLimitMessage := "LIMIT must not be negative"

  /** PostgreSQL's message for a statement whose text holds "()". */
  const SyntaxErrorMessage := "syntax error at or near \")\""

  function NotFoundMessage(id: string, collection: string): string
  {
    "Collection point with id " + id + " not found in collection " + collection
  }

  /** Decimal digits of a natural number. */
  function NatToString(n: nat): (s: string)
    ensures |s| >= 1
    ensures forall i :: 0 <= i < |s| ==> '0' <= s[i] <= '9'
  {
    var d := [(48 + n % 10) as char];
    if n < 10 then d else NatToString(n / 10) + d
  }

  /** `sub` occurs in `s` starting at index i. */
  predicate OccursAt(s: string, sub: string, i: int)
  {
    0 <= i && i + |sub| <= |s| && s[i..i + |sub|] == sub
  }

  /** Python's `sub in s` on strings, searching from index `from` on. */
  function ContainsFrom(s: string, sub: string, from: nat): (r: bool)
    ensures r <==> exists i :: from <= i && OccursAt(s, sub, i)
    decreases |s| - from
  {
    if from + |sub| > |s| then false
    else if s[from..from + |sub|] == sub then assert OccursAt(s, sub, from); true
    else
      var rest := ContainsFrom(s, sub, from + 1);
      assert forall i :: from <= i && OccursAt(s, sub, i) ==> from + 1 <= i;
      rest
  }

  /** `is_duplicate_key_error`: whether the message contains PostgreSQL's
      unique-violation text anywhere. */
  function IsDuplicateKeyError(message: string): (r: bool)
    ensures r <==> exists i :: OccursAt(message, DuplicateKeyMarker, i)
  {
    ContainsFrom(message, DuplicateKeyMarker, 0)
  }

  /** The message of a duplicate-key insert is recognised, whatever the table. */
  lemma DuplicateMessageRecognised(tableName: string)
    ensures IsDuplicateKeyError(DuplicateKeyMessage(tableName))
  {
    var m := DuplicateKeyMessage(tableName);
    assert m[0..|DuplicateKeyMarker|] == DuplicateKeyMarker;
    assert OccursAt(m, DuplicateKeyMarker, 0);
  }

  /** A message without the letter 'k' is never taken for a duplicate key. */
  lemma NoKNoDuplicate(message: string)
    requires forall i :: 0 <= i < |message| ==> message[i] != 'k'
    ensures !IsDuplicateKeyError(message)
  {
    forall i ensures !OccursAt(message, DuplicateKeyMarker, i) {
      if 0 <= i && i + |DuplicateKeyMarker| <= |message| {
        assert message[i..i + |DuplicateKeyMarker|][10] != DuplicateKeyMarker[10];
      }
    }
  }

  /** The wrong-dimension message is not taken for a duplicate key. */
  lemma DimensionMessageNotDuplicate(expected: nat, actual: nat)
    ensures !IsDuplicateKeyError(DimensionMessage(expected, actual))
  {
    var a := NatToString(expected);
    var b := NatToString(actual);
    var m := DimensionMessage(expected, actual);
    assert m == "expected " + a + " dimensions, not " + b;
    forall i | 0 <= i < |m| ensures m[i] != 'k' {
      if i < 9 {
        assert m[i] == "expected "[i];
      } else if i < 9 + |a| {
        assert m[i] == a[i - 9];
      } else if i < 9 + |a| + 17 {
        assert m[i] == " dimensions, not "[i - 9 - |a|];
      } else {
        assert m[i] == b[i - 9 - |a| - 17];
      }
    }
    NoKNoDuplicate(m);
  }

  // ---------------------------------------------------------------------
  // Writes, as functions of the table before them

  /** Every stored embedding has the collection's dimension. */
  predicate WellSized(t: Table, dimension: nat)
  {
    forall id :: id in t ==> |t[id].embedding| == dimension
  }

  /** `insert` (`CollectionTable.create`): the vector column refuses an
      embedding of the wrong length; the primary key refuses a known id;
      otherwise the row is added. A failed statement changes nothing. */
  function InsertStep(t: Table, tableName: string, dimension: Dimension, id: string, embedding: Embedding, metadata: Metadata): (r: Outcome)
    ensures r.raised.Some? ==> r.raised.value.DatabaseError? && r.after == t
    ensures r.raised.None? ==> r.after.Keys == t.Keys + {id} && |r.after| == |t| + 1
    ensures WellSized(t, dimension) ==> WellSized(r.after, dimension)
  {
    if |embedding| != dimension then Outcome(t, Some(DatabaseError(DimensionMessage(dimension, |embedding|))))
    else if id in t then Outcome(t, Some(DatabaseError(DuplicateKeyMessage(tableName))))
    else Outcome(t[id := Row(embedding, metadata)], None)
  }

  /** `update` (`CollectionTable.update`): a missing row is silently left
      alone; otherwise embedding and metadata are both replaced, an embedding
      of the wrong length being refused at commit. */
  function UpdateStep(t: Table, dimension: Dimension, id: string, embedding: Embedding, metadata: Metadata): (r: Outcome)
    ensures r.raised.Some? ==> r.raised.value.DatabaseError? && r.after == t
    ensures r.after.Keys == t.Keys
    ensures forall other :: other in t && other != id ==> r.after[other] == t[other]
    ensures WellSized(t, dimension) ==> WellSized(r.after, dimension)
  {
    if id !in t then Outcome(t, None)
    else if |embedding| != dimension then Outcome(t, Some(DatabaseError(DimensionMessage(dimension, |embedding|))))
    else Outcome(t[id := Row(embedding, metadata)], None)
  }

  /** The exception raised by the insert is a duplicate key, on which `upsert`
      updates instead. */
  predicate RetriedAsUpdate(raised: Option<Exception>)
  {
    raised.Some? && raised.value.DatabaseError? && IsDuplicateKeyError(raised.value.msg)
  }

  /** `upsert`: insert; an exception whose first argument is a duplicate-key
      message turns into an update, any other is raised again. */
  function UpsertStep(t: Table, tableName: string, dimension: Dimension, id: string, embedding: Embedding, metadata: Metadata): (r: Outcome)
    ensures r.raised.Some? ==> r.raised.value.DatabaseError? && r.after == t
    ensures r.after.Keys <= t.Keys + {id}
    ensures forall other :: other in t && other != id ==> other in r.after && r.after[other] == t[other]
    ensures WellSized(t, dimension) ==> WellSized(r.after, dimension)
  {
    var inserted := InsertStep(t, tableName, dimension, id, embedding, metadata);
    if RetriedAsUpdate(inserted.raised) then
      assert inserted.after == t;
      UpdateStep(inserted.after, dimension, id, embedding, metadata)
    else inserted
  }

  /** Insert either adds exactly the new row and raises nothing, or raises
      and leaves the table as it was; it succeeds exactly for an embedding of
      the right length under an unknown id. */
  lemma InsertIsAtomic(t: Table, tableName: string, dimension: Dimension, id: string, embedding: Embedding, metadata: Metadata)
    ensures var o := InsertStep(t, tableName, dimension, id, embedding, metadata);
      && (o.raised.None? <==> |embedding| == dimension && id !in t)
      && (o.raised.None? ==> o.after == t[id := Row(embedding, metadata)] && id !in t)
      && (o.raised.Some? ==> o.after == t)
  {
  }

  /** Inserting a known id with a well-sized embedding raises an error the
      upsert recognises as a duplicate key. */
  lemma InsertKnownIdIsDuplicate(t: Table, tableName: string, dimension: Dimension, id: string, embedding: Embedding, metadata: Metadata)
    requires id in t && |embedding| == dimension
    ensures var o := InsertStep(t, tableName, dimension, id, embedding, metadata);
      && o.after == t && o.raised.Some? && o.raised.value.DatabaseError?
      && IsDuplicateKeyError(o.raised.value.msg)
  {
    DuplicateMessageRecognised(tableName);
  }

  /** Update of a missing id changes nothing and raises nothing; of a known
      id, replaces the whole row or raises with nothing changed. */
  lemma UpdateReplacesOrIgnores(t: Table, dimension: Dimension, id: string, embedding: Embedding, metadata: Metadata)
    ensures var o := UpdateStep(t, dimension, id, embedding, metadata);
      && (id !in t ==> o == Outcome(t, None))
      && (id in t && |embedding| == dimension ==> o == Outcome(t[id := Row(embedding, metadata)], None))
      && (id in t && |embedding| != dimension ==> o.after == t && o.raised.Some?)
  {
  }

  /** With an embedding of the right length, upsert stores exactly that row
      under the id, whether or not the id was known, and raises nothing. */
  lemma UpsertIsPut(t: Table, tableName: string, dimension: Dimension, id: string, embedding: Embedding, metadata: Metadata)
    requires |embedding| == dimension
    ensures UpsertStep(t, tableName, dimension, id, embedding, metadata) == Outcome(t[id := Row(embedding, metadata)], None)
  {
    if id in t {
      DuplicateMessageRecognised(tableName);
    }
  }

  /** With an embedding of the wrong length, upsert raises the insert's
      dimension error again (it is not a duplicate key) and changes nothing,
      even when the id is known. */
  lemma UpsertWrongDimensionRaises(t: Table, tableName: string, dimension: Dimension, id: string, embedding: Embedding, metadata: Metadata)
    requires |embedding| != dimension
    ensures UpsertStep(t, tableName, dimension, id, embedding, metadata)
      == Outcome(t, Some(DatabaseError(DimensionMessage(dimension, |embedding|))))
  {
    DimensionMessageNotDuplicate(dimension, |embedding|);
  }

  /** Upserting the same point twice leaves the table as upserting it once. */
  lemma UpsertIdempotent(t: Table, tableName: string, dimension: Dimension, id: string, embedding: Embedding, metadata: Metadata)
    ensures var once := UpsertStep(t, tableName, dimension, id, embedding, metadata);
      UpsertStep(once.after, tableName, dimension, id, embedding, metadata).after == once.after
  {
    if |embedding| == dimension {
      UpsertIsPut(t, tableName, dimension, id, embedding, metadata);
      var once := t[id := Row(embedding, metadata)];
      UpsertIsPut(once, tableName, dimension, id, embedding, metadata);
      assert once[id := Row(embedding, metadata)] == once;
    } else {
      UpsertWrongDimensionRaises(t, tableName, dimension, id, embedding, metadata);
    }
  }

  // ---------------------------------------------------------------------
  // Query: filter, order by score, limit

  /** `query` applies a filter only when `filter_dict is not None`: an absent
      argument and an explicit JSON null (Python's None) both mean no filter. */
  predicate HasFilter(filter: Option<Json>)
  {
    filter.Some? && !filter.value.JNull?
  }

  /** The WHERE clause of `query` keeps the row: no filter, or the compiled
      filter passes the row's metadata. */
  ghost predicate Keeps(filter: Option<Json>, metadata: Metadata)
  {
    !HasFilter(filter) || (Compile(filter.value).Ok? && Passes(Compile(filter.value).value, metadata))
  }

  /** The filter compiles, and to SQL that PostgreSQL can parse. */
  predicate FilterAccepted(filter: Option<Json>)
  {
    !HasFilter(filter) || (Compile(filter.value).Ok? && Renderable(Compile(filter.value).value))
  }

  /** The ids of the rows the WHERE clause keeps. */
  ghost function Matching(t: Table, filter: Option<Json>): set<string>
  {
    set id | id in t && Keeps(filter, t[id].metadata)
  }

  /** The result for row `id`: its stored point and its score. */
  function PointResult(t: Table, scores: map<string, real>, id: string): CollectionPointResult
    requires id in t && id in scores
  {
    CollectionPointResult(CollectionPoint(id, t[id].embedding, t[id].metadata), scores[id])
  }

  function ResultIds(rs: seq<CollectionPointResult>): (ids: seq<string>)
    ensures |ids| == |rs| && forall i :: 0 <= i < |rs| ==> ids[i] == rs[i].payload.id
  {
    seq(|rs|, i requires 0 <= i < |rs| => rs[i].payload.id)
  }

  /** A finite non-empty set of scored ids has a best-scored member. */
  lemma {:induction false} BestExists(cand: set<string>, scores: map<string, real>)
    requires cand != {} && cand <= scores.Keys
    ensures exists best :: best in cand && forall o :: o in cand ==> scores[o] <= scores[best]
    decreases |cand|
  {
    var x :| x in cand;
    if cand != {x} {
      BestExists(cand - {x}, scores);
      var b :| b in cand - {x} && forall o :: o in cand - {x} ==> scores[o] <= scores[b];
      if scores[x] <= scores[b] {
        assert forall o :: o in cand ==> scores[o] <= scores[b];
      } else {
        assert forall o :: o in cand ==> scores[o] <= scores[x];
      }
    }
  }

  /** A best-scored candidate. */
  ghost function Best(cand: set<string>, scores: map<string, real>): (best: string)
    requires cand != {} && cand <= scores.Keys
    ensures best in cand && forall o :: o in cand ==> scores[o] <= scores[best]
  {
    BestExists(cand, scores);
    var best :| best in cand && forall o :: o in cand ==> scores[o] <= scores[best];
    best
  }

  /** ORDER BY score descending LIMIT k over the candidate rows: the k best
      ids, best first (see RankedIdsOrdered). Rows of equal score come in an
      order the database chooses, here an unspecified one. */
  ghost function RankedIds(cand: set<string>, scores: map<string, real>, k: nat): (r: seq<string>)
    requires cand <= scores.Keys
    ensures |r| == if k <= |cand| then k else |cand|
    ensures forall i :: 0 <= i < |r| ==> r[i] in cand
    decreases k
  {
    if k == 0 || cand == {} then []
    else
      var best := Best(cand, scores);
      [best] + RankedIds(cand - {best}, scores, k - 1)
  }

  /** No candidate left out of `r` scores higher than one taken. */
  ghost predicate NoneLeftOutBetter(cand: set<string>, scores: map<string, real>, r: seq<string>)
    requires cand <= scores.Keys && forall i :: 0 <= i < |r| ==> r[i] in cand
  {
    forall o, i :: o in cand && o !in r && 0 <= i < |r| ==> scores[o] <= scores[r[i]]
  }

  /** Distinct ids in non-increasing score order. */
  ghost predicate BestFirst(scores: map<string, real>, r: seq<string>)
    requires forall i :: 0 <= i < |r| ==> r[i] in scores
  {
    forall i, j :: 0 <= i < j < |r| ==> r[i] != r[j] && scores[r[i]] >= scores[r[j]]
  }

  /** The ranked ids are distinct and in non-increasing score order. */
  lemma {:induction false} RankedIdsOrdered(cand: set<string>, scores: map<string, real>, k: nat)
    requires cand <= scores.Keys
    ensures BestFirst(scores, RankedIds(cand, scores, k))
    decreases k
  {
    var r := RankedIds(cand, scores, k);
    if k != 0 && cand != {} {
      var best := Best(cand, scores);
      var rest := RankedIds(cand - {best}, scores, k - 1);
      assert r == [best] + rest;
      RankedIdsOrdered(cand - {best}, scores, k - 1);
      assert BestFirst(scores, rest);
      forall i, j | 0 <= i < j < |r| ensures r[i] != r[j] && scores[r[i]] >= scores[r[j]] {
        assert r[j] == rest[j - 1] && rest[j - 1] in cand - {best};
        if i > 0 {
          assert r[i] == rest[i - 1];
        }
      }
    }
  }

  /** No candidate left out of the ranked ids scores higher than one taken. */
  lemma {:induction false} RankedIdsNoneLeftOutBetter(cand: set<string>, scores: map<string, real>, k: nat)
    requires cand <= scores.Keys
    ensures NoneLeftOutBetter(cand, scores, RankedIds(cand, scores, k))
    decreases k
  {
    var r := RankedIds(cand, scores, k);
    if k != 0 && cand != {} {
      var best := Best(cand, scores);
      var rest := RankedIds(cand - {best}, scores, k - 1);
      assert r == [best] + rest;
      RankedIdsNoneLeftOutBetter(cand - {best}, scores, k - 1);
      forall o, i | o in cand && o !in r && 0 <= i < |r| ensures scores[o] <= scores[r[i]] {
        if i > 0 {
          assert o in cand - {best} && o !in rest;
          assert r[i] == rest[i - 1];
        } else {
          assert r[i] == best;
        }
      }
    }
  }

  /** When the limit does not bite, every candidate is ranked. */
  lemma {:induction false} RankedIdsComplete(cand: set<string>, scores: map<string, real>, k: nat)
    requires cand <= scores.Keys && k >= |cand|
    ensures forall o :: o in cand ==> o in RankedIds(cand, scores, k)
    decreases k
  {
    if k != 0 && cand != {} {
      var best := Best(cand, scores);
      var rest := RankedIds(cand - {best}, scores, k - 1);
      assert RankedIds(cand, scores, k) == [best] + rest;
      RankedIdsComplete(cand - {best}, scores, k - 1);
    }
  }

  /** The results for a list of ranked ids, in that order. */
  function ResultsFor(t: Table, scores: map<string, real>, ids: seq<string>): (rs: seq<CollectionPointResult>)
    requires forall i :: 0 <= i < |ids| ==> ids[i] in t && ids[i] in scores
    ensures ResultIds(rs) == ids
    ensures forall i :: 0 <= i < |rs| ==> rs[i] == PointResult(t, scores, ids[i])
  {
    var rs := seq(|ids|, i requires 0 <= i < |ids| && ids[i] in t && ids[i] in scores => PointResult(t, scores, ids[i]));
    assert ResultIds(rs) == ids;
    rs
  }

  // ---------------------------------------------------------------------
  // The collection

  class PGVectorCollection {
    const name: string
    const dimension: Dimension
    /** The collection's table: its rows by primary key. */
    var table: Table

    /** A handle on the table `name`, holding `rows`. */
    constructor (name: string, dimension: Dimension, rows: Table)
      ensures this.name == name && this.dimension == dimension && table == rows
    {
      this.name := name;
      this.dimension := dimension;
      table := rows;
    }

    /** `insert`. */
    method Insert(id: string, embedding: Embedding, metadata: Metadata) returns (raised: Option<Exception>)
      modifies this
      ensures Outcome(table, raised) == InsertStep(old(table), name, dimension, id, embedding, metadata)
    {
      if |embedding| != dimension {
        return Some(DatabaseError(DimensionMessage(dimension, |embedding|)));
      }
      if id in table {
        return Some(DatabaseError(DuplicateKeyMessage(name)));
      }
      table := table[id := Row(embedding, metadata)];
      return None;
    }

    /** `update`. */
    method Update(id: string, embedding: Embedding, metadata: Metadata) returns (raised: Option<Exception>)
      modifies this
      ensures Outcome(table, raised) == UpdateStep(old(table), dimension, id, embedding, metadata)
    {
      if id !in table {
        return None;
      }
      if |embedding| != dimension {
        return Some(DatabaseError(DimensionMessage(dimension, |embedding|)));
      }
      table := table[id := Row(embedding, metadata)];
      return None;
    }

    /** `upsert`. */
    method Upsert(id: string, embedding: Embedding, metadata: Metadata) returns (raised: Option<Exception>)
      modifies this
      ensures Outcome(table, raised) == UpsertStep(old(table), name, dimension, id, embedding, metadata)
    {
      raised := Insert(id, embedding, metadata);
      if raised.Some? && raised.value.DatabaseError? && IsDuplicateKeyError(raised.value.msg) {
        raised := Update(id, embedding, metadata);
      }
    }

    /** `delete`: removes the row if there is one; a missing id is no error. */
    method Delete(id: string)
      modifies this
      ensures table == old(table) - {id}
      ensures id !in table && forall other :: other != id ==> (other in table <==> other in old(table))
    {
      table := table - {id};
    }

    /** `get`: the stored point, or CollectionPointNotFound naming both the
        id and the collection. */
    function Get(id: string): (r: Result<CollectionPoint>)
      reads this
      ensures r.Ok? <==> id in table
      ensures r.Ok? ==> r.value == CollectionPoint(id, table[id].embedding, table[id].metadata)
      ensures r.Err? ==> r.error == CollectionPointNotFound("Collection point with id " + id + " not found in collection " + name)
    {
      if id !in table then Err(CollectionPointNotFound(NotFoundMessage(id, name)))
      else Ok(CollectionPoint(id, table[id].embedding, table[id].metadata))
    }

    /** `query`: `scores[id]` stands for the cosine similarity of row id's
        embedding to the query vector. The filter is compiled before the
        database is reached, so a bad filter fails whatever the table holds;
        PostgreSQL then refuses a condition rendered with "()" and a negative
        LIMIT; otherwise the rows the filter keeps come best first, at most
        `limit` of them, each with its stored point and its score. */
    ghost function Query(scores: map<string, real>, limit: int, filter: Option<Json>): (r: Result<seq<CollectionPointResult>>)
      reads this
      requires table.Keys <= scores.Keys
      ensures HasFilter(filter) && Compile(filter.value).Err? ==> r == Err(Compile(filter.value).error)
      ensures HasFilter(filter) && Compile(filter.value).Ok? && !Renderable(Compile(filter.value).value) ==>
        r == Err(DatabaseError(SyntaxErrorMessage))
      ensures FilterAccepted(filter) && limit < 0 ==> r == Err(DatabaseError(NegativeLimitMessage))
      ensures FilterAccepted(filter) && limit >= 0 ==> r.Ok?
      ensures r.Ok? ==> |r.value| == if limit <= |Matching(table, filter)| then limit else |Matching(table, filter)|
      ensures r.Ok? ==> forall i :: 0 <= i < |r.value| ==> ResultIds(r.value)[i] in Matching(table, filter)
      ensures r.Ok? ==> forall i :: 0 <= i < |r.value| ==> r.value[i] == PointResult(table, scores, ResultIds(r.value)[i])
      ensures r.Ok? ==> BestFirst(scores, ResultIds(r.value))
      ensures r.Ok? ==> NoneLeftOutBetter(Matching(table, filter), scores, ResultIds(r.value))
      ensures r.Ok? && limit >= |Matching(table, filter)| ==>
        forall id :: id in Matching(table, filter) ==> id in ResultIds(r.value)
    {
      if HasFilter(filter) && Compile(filter.value).Err? then Err(Compile(filter.value).error)
      else if !FilterAccepted(filter) then Err(DatabaseError(SyntaxErrorMessage))
      else if limit < 0 then Err(DatabaseError(NegativeLimitMessage))
      else
        var cand := Matching(table, filter);
        var ids := RankedIds(cand, scores, limit);
        RankedIdsOrdered(cand, scores, limit);
        RankedIdsNoneLeftOutBetter(cand, scores, limit);
        if limit >= |cand| then RankedIdsComplete(cand, scores, limit); Ok(ResultsFor(table, scores, ids))
        else Ok(ResultsFor(table, scores, ids))
    }
  }

  /** A query filtered by `{field: {"$eq": v}}` succeeds for any LIMIT that is
      not negative and returns only points whose metadata holds the string v
      under field, and every such point when the limit does not bite. */
  lemma QueryEqFilterSelects(c: PGVectorCollection, scores: map<string, real>, limit: int, field: string, v: string)
    requires c.table.Keys <= scores.Keys && limit >= 0
    requires field != AndKey && field != OrKey
    ensures var r := c.Query(scores, limit, Some(JObj([(field, JObj([(EqOp, JStr(v))]))])));
      && r.Ok?
      && (forall i :: 0 <= i < |r.value| ==>
            field in r.value[i].payload.metadata && r.value[i].payload.metadata[field] == JStr(v))
      && (limit >= |c.table| ==> forall id ::
            (id in c.table && field in c.table[id].metadata && c.table[id].metadata[field] == JStr(v))
            ==> id in ResultIds(r.value))
  {
    var filter := Some(JObj([(field, JObj([(EqOp, JStr(v))]))]));
    var r := c.Query(scores, limit, filter);
    forall md: Metadata ensures Keeps(filter, md) <==> field in md && md[field] == JStr(v) {
      LeafFilterSemantics(field, v, md);
    }
    assert Matching(c.table, filter) <= c.table.Keys;
    SubsetCardinality(Matching(c.table, filter), c.table.Keys);
    forall i | 0 <= i < |r.value| ensures field in r.value[i].payload.metadata && r.value[i].payload.metadata[field] == JStr(v) {
      var id := ResultIds(r.value)[i];
      assert id in Matching(c.table, filter);
      assert r.value[i] == PointResult(c.table, scores, id);
    }
  }

  /** A blank "$or" group next to a field test under "$and" makes the whole
      query fail with PostgreSQL's syntax error, whatever the table holds. */
  lemma QueryNestedBlankGroupFails(c: PGVectorCollection, scores: map<string, real>, limit: int)
    requires c.table.Keys <= scores.Keys
    ensures var emptyAnd := JObj([(AndKey, JArr([]))]);
      var filter := JObj([(AndKey, JArr([JObj([("f", JObj([(EqOp, JStr("a"))]))]),
                                         JObj([(OrKey, JArr([emptyAnd, emptyAnd]))])]))]);
      c.Query(scores, limit, Some(filter)) == Err(DatabaseError(SyntaxErrorMessage))
  {
    var emptyAnd := JObj([(AndKey, JArr([]))]);
    var leaf := JObj([("f", JObj([(EqOp, JStr("a"))]))]);
    var group := JObj([(OrKey, JArr([emptyAnd, emptyAnd]))]);
    var filter := JObj([(AndKey, JArr([leaf, group]))]);
    var none: seq<Predicate> := [];
    assert seq(|none|, i requires 0 <= i < |none| => Render(none[i])) == [];
    assert Render(All(none)) == emptyAnd;
    var blanks := seq(2, _ => All([]));
    assert seq(|blanks|, i requires 0 <= i < |blanks| => Render(blanks[i])) == [emptyAnd, emptyAnd];
    CompileRender(Any(blanks));
    assert Render(Any(blanks)) == group;
    assert Compile(leaf) == Ok(FieldEq("f", "a"));
    var cs := [FieldEq("f", "a"), Any(blanks)];
    assert seq(|cs|, i requires 0 <= i < |cs| => Render(cs[i])) == [leaf, group];
    CompileRender(All(cs));
    assert Render(All([FieldEq("f", "a"), Any(blanks)])) == filter;
    BlankDisjunctionUnderConjunction(FieldEq("f", "a"), 2);
  }

  /** A JSON null filter is Python's None: the query runs unfiltered, exactly
      as without a filter. */
  lemma QueryNullFilterIsUnfiltered(c: PGVectorCollection, scores: map<string, real>, limit: int)
    requires c.table.Keys <= scores.Keys
    ensures c.Query(scores, limit, Some(JNull)) == c.Query(scores, limit, None)
  {
    assert Matching(c.table, Some(JNull)) == Matching(c.table, None);
  }

  lemma SubsetCardinality(a: set<string>, b: set<string>)
    requires a <= b
    ensures |a| <= |b|
  {
    assert b == a + (b - a);
  }
}
