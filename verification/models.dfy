/** The record shapes shared by both stores: JSON-like metadata values, points
    and query results. */
module Models {

  /** An embedding: a dense vector of floats (modelled as reals). */
  type Embedding = seq<real>

  /** A JSON value as Python's json/pydantic layer hands it over. An object keeps
      its members in insertion order, as a Python dict does; its keys are
      distinct. */
  datatype Json =
    | JNull
    | JBool(b: bool)
    | JNum(n: real)
    | JStr(s: string)
    | JArr(items: seq<Json>)
    | JObj(members: seq<(string, Json)>)

  /** A point's metadata: a mapping from string keys to JSON values. */
  type Metadata = map<string, Json>

  /** CollectionPoint(id, embedding, metadata). */
  datatype CollectionPoint = CollectionPoint(id: string, embedding: Embedding, metadata: Metadata)

  /** CollectionPointResult(payload, score): a point and its similarity to a query. */
  datatype CollectionPointResult = CollectionPointResult(payload: CollectionPoint, score: real)
}
