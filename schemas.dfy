/**
 * The request and response shapes of the glossary service and the field
 * bounds the request validation layer enforces before a REST handler runs.
 */
module Schemas {
  import opened Wrappers

  const KEYWORD_MAX_LENGTH: nat := 128
  const DESCRIPTION_MAX_LENGTH: nat := 2048
  const SOURCE_MAX_LENGTH: nat := 512
  const RELATION_TYPE_MAX_LENGTH: nat := 64
  const RELATION_DESCRIPTION_MAX_LENGTH: nat := 512
  const DEFAULT_RELATION_TYPE: string := "related"

  predicate ValidKeyword(s: string) { 1 <= |s| <= KEYWORD_MAX_LENGTH }

  predicate ValidDescription(s: string) { 1 <= |s| <= DESCRIPTION_MAX_LENGTH }

  /** An optional text field with only an upper bound. */
  predicate ValidOptional(o: Option<string>, maxLength: nat) {
    o.Some? ==> |o.value| <= maxLength
  }

  /** Body of `POST /terms/`. */
  datatype TermCreate = TermCreate(keyword: string, description: string, source: Option<string> := None)

  predicate ValidTermCreate(d: TermCreate) {
    && ValidKeyword(d.keyword)
    && ValidDescription(d.description)
    && ValidOptional(d.source, SOURCE_MAX_LENGTH)
  }

  /** Body of `PUT /terms/{keyword}`: every field may be left out. */
  datatype TermUpdate = TermUpdate(keyword: Option<string> := None, description: Option<string> := None,
                                   source: Option<string> := None)

  /** A field that is present obeys the same bound as in `TermCreate`. */
  predicate ValidTermUpdate(d: TermUpdate) {
    && (d.keyword.Some? ==> ValidKeyword(d.keyword.value))
    && (d.description.Some? ==> ValidDescription(d.description.value))
    && ValidOptional(d.source, SOURCE_MAX_LENGTH)
  }

  /** Body of `POST /graph/relations/`; the relation type defaults to "related". */
  datatype TermRelationCreate = TermRelationCreate(sourceKeyword: string, targetKeyword: string,
                                                   relationType: string := DEFAULT_RELATION_TYPE,
                                                   description: Option<string> := None)

  predicate ValidTermRelationCreate(d: TermRelationCreate) {
    && ValidKeyword(d.sourceKeyword)
    && ValidKeyword(d.targetKeyword)
    && |d.relationType| <= RELATION_TYPE_MAX_LENGTH
    && ValidOptional(d.description, RELATION_DESCRIPTION_MAX_LENGTH)
  }

  /** A relation as the relation endpoints return it, with both endpoints' keywords. */
  datatype TermRelationRead = TermRelationRead(id: int, sourceId: int, targetId: int, relationType: string,
                                               description: Option<string>,
                                               sourceKeyword: string, targetKeyword: string)

  /** A node of the graph snapshot: one term. */
  datatype GraphNode = GraphNode(id: int, keyword: string, description: string, source: Option<string> := None)

  /** An edge of the graph snapshot: one relation, `source` and `target` being term ids. */
  datatype GraphEdge = GraphEdge(id: int, source: int, target: int, relationType: string,
                                 description: Option<string> := None)

  datatype GraphData = GraphData(nodes: seq<GraphNode>, edges: seq<GraphEdge>)

  /** Omitting every field of an update is a valid request (all fields optional). */
  lemma EmptyUpdateIsValid()
    ensures ValidTermUpdate(TermUpdate())
    ensures TermUpdate() == TermUpdate(None, None, None)
  {
  }

  /**
   * A relation request that names only its two endpoints gets the type
   * "related" and no description, and is valid whenever the keywords are.
   */
  lemma DefaultRelationRequest(sourceKeyword: string, targetKeyword: string)
    requires ValidKeyword(sourceKeyword) && ValidKeyword(targetKeyword)
    ensures TermRelationCreate(sourceKeyword, targetKeyword).relationType == "related"
    ensures TermRelationCreate(sourceKeyword, targetKeyword).description == None
    ensures ValidTermRelationCreate(TermRelationCreate(sourceKeyword, targetKeyword))
  {
  }
}
