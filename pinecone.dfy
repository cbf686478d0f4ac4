/** The part of lib/pinecone.ts that the routes depend on: the nearest-neighbour
    query. The embedding and the vector index itself are an oracle. */
module Pinecone {
  import opened Types
  import opened JsValues

  /** A match as the index returns it: its metadata is a free-form record. */
  datatype Match = Match(id: string, score: Option<real>, metadata: Option<map<string, Json>>)

  /** `match.metadata?.[key]`: `None` when the metadata or the field is absent. */
  function MetadataField(m: Match, key: string): (r: Option<Json>)
    ensures r.Some? <==> m.metadata.Some? && key in m.metadata.value
  {
    if m.metadata.Some? && key in m.metadata.value then Some(m.metadata.value[key]) else None
  }

  /** The vector index as the routes see it: for a query text and the `topK`
      the caller passed, the matches (`[]` when the index has none), or `None`
      when the call throws. */
  type Index = (string, Json) -> Option<seq<Match>>

  /** `queryPinecone(query, topK)`: a query that is not a string makes the
      embedding throw before the index is consulted, which surfaces as the
      same failure as a failing index call; a string query is answered by the
      index. */
  function QueryPinecone(query: Json, topK: Json, index: Index): (r: Option<seq<Match>>)
    ensures !query.JStr? ==> r.None?
    ensures query.JStr? ==> r == index(query.s, topK)
  {
    if query.JStr? then index(query.s, topK) else None
  }
}
