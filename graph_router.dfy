/** The REST relation and graph endpoints under `/graph`. */
module GraphRouter {
  import opened Wrappers
  import opened Schemas
  import opened Models
  import opened Store
  import opened Http

  // ---------------------------------------------------------------------
  // Relation groups of one term
  // ---------------------------------------------------------------------

  /** The relations leaving term `id`, in store order. */
  function Outgoing(relations: seq<TermRelation>, id: nat): (r: seq<TermRelation>)
    ensures forall x :: x in r <==> x in relations && x.sourceId == id
  {
    if relations == [] then []
    else (if relations[0].sourceId == id then [relations[0]] else []) + Outgoing(relations[1..], id)
  }

  /** The relations entering term `id`, in store order. */
  function Incoming(relations: seq<TermRelation>, id: nat): (r: seq<TermRelation>)
    ensures forall x :: x in r <==> x in relations && x.targetId == id
  {
    if relations == [] then []
    else (if relations[0].targetId == id then [relations[0]] else []) + Incoming(relations[1..], id)
  }

  /** The relations with term `id` at either end, in store order. */
  function Touching(relations: seq<TermRelation>, id: nat): (r: seq<TermRelation>)
    ensures forall x :: x in r <==> x in relations && (x.sourceId == id || x.targetId == id)
  {
    if relations == [] then []
    else (if relations[0].sourceId == id || relations[0].targetId == id then [relations[0]] else [])
         + Touching(relations[1..], id)
  }

  /** Without self-relations no relation is both outgoing and incoming for the same term. */
  lemma NoRelationInBothGroups(relations: seq<TermRelation>, id: nat)
    requires NoSelfRelation(relations)
    ensures forall x :: x in Outgoing(relations, id) ==> x !in Incoming(relations, id)
  {
    forall x | x in Outgoing(relations, id) ensures x !in Incoming(relations, id) {
      var k :| 0 <= k < |relations| && relations[k] == x;
    }
  }

  /**
   * Outgoing followed by incoming lists every relation touching the term
   * exactly as often as the table holds it: none is missed or repeated.
   */
  lemma {:induction false} GroupsPartitionTouching(relations: seq<TermRelation>, id: nat)
    requires NoSelfRelation(relations)
    ensures multiset(Outgoing(relations, id) + Incoming(relations, id)) == multiset(Touching(relations, id))
  {
    if relations != [] {
      assert NoSelfRelation(relations[1..]) by {
        forall i | 0 <= i < |relations[1..]| ensures relations[1..][i].sourceId != relations[1..][i].targetId {
          assert relations[1..][i] == relations[i + 1];
        }
      }
      GroupsPartitionTouching(relations[1..], id);
      assert relations[0].sourceId != relations[0].targetId;
    }
  }

  /** Filtering keeps store order: ids stay ascending within each group. */
  lemma {:induction false} OutgoingKeepsStoreOrder(relations: seq<TermRelation>, id: nat)
    requires RelationIdsAscending(relations)
    ensures RelationIdsAscending(Outgoing(relations, id))
  {
    if relations != [] {
      var rest := Outgoing(relations[1..], id);
      OutgoingKeepsStoreOrder(relations[1..], id);
      forall j | 0 <= j < |rest| ensures relations[0].id < rest[j].id {
        assert rest[j] in rest;
        var k :| 0 <= k < |relations[1..]| && relations[1..][k] == rest[j];
        assert relations[k + 1] == rest[j];
      }
      var r := Outgoing(relations, id);
      if relations[0].sourceId == id {
        forall a, b | 0 <= a < b < |r| ensures r[a].id < r[b].id {
          assert r[b] == rest[b - 1];
          if a > 0 {
            assert r[a] == rest[a - 1];
          }
        }
      }
    }
  }

  lemma {:induction false} IncomingKeepsStoreOrder(relations: seq<TermRelation>, id: nat)
    requires RelationIdsAscending(relations)
    ensures RelationIdsAscending(Incoming(relations, id))
  {
    if relations != [] {
      var rest := Incoming(relations[1..], id);
      IncomingKeepsStoreOrder(relations[1..], id);
      forall j | 0 <= j < |rest| ensures relations[0].id < rest[j].id {
        assert rest[j] in rest;
        var k :| 0 <= k < |relations[1..]| && relations[1..][k] == rest[j];
        assert relations[k + 1] == rest[j];
      }
      var r := Incoming(relations, id);
      if relations[0].targetId == id {
        forall a, b | 0 <= a < b < |r| ensures r[a].id < r[b].id {
          assert r[b] == rest[b - 1];
          if a > 0 {
            assert r[a] == rest[a - 1];
          }
        }
      }
    }
  }

  // ---------------------------------------------------------------------
  // Enrichment with the endpoints' keywords
  // ---------------------------------------------------------------------

  /** Both endpoints of `rel` load: the terms with its source and target ids are stored. */
  predicate Resolves(terms: seq<Term>, rel: TermRelation) {
    FindTermId(terms, rel.sourceId).Some? && FindTermId(terms, rel.targetId).Some?
  }

  /** `rel` as returned to clients, with the keywords of the terms it joins. */
  function ReadOf(terms: seq<Term>, rel: TermRelation): (r: TermRelationRead)
    requires Resolves(terms, rel)
    ensures r.id == rel.id && r.sourceId == rel.sourceId && r.targetId == rel.targetId
    ensures r.relationType == rel.relationType && r.description == rel.description
    ensures exists i :: 0 <= i < |terms| && terms[i].id == rel.sourceId && terms[i].keyword == r.sourceKeyword
    ensures exists i :: 0 <= i < |terms| && terms[i].id == rel.targetId && terms[i].keyword == r.targetKeyword
  {
    var s, t := FindTermId(terms, rel.sourceId).value, FindTermId(terms, rel.targetId).value;
    TermRelationRead(rel.id, rel.sourceId, rel.targetId, rel.relationType, rel.description,
                     terms[s].keyword, terms[t].keyword)
  }

  /**
   * What listing `relations` answers: each one enriched, in order, when all
   * endpoints load; otherwise the failed load surfaces as a server error.
   */
  ghost predicate ListedAs(terms: seq<Term>, relations: seq<TermRelation>,
                           r: Result<seq<TermRelationRead>, HttpError>)
  {
    && (r.Ok? <==> forall k :: 0 <= k < |relations| ==> Resolves(terms, relations[k]))
    && (r.Ok? ==> |r.value| == |relations| &&
                  forall k :: 0 <= k < |relations| ==> r.value[k] == ReadOf(terms, relations[k]))
    && (r.Err? ==> r.error == INTERNAL_SERVER_ERROR)
  }

  /**
   * `GET /graph/relations/`: every relation with both endpoints' keywords,
   * built by appending one at a time. A relation whose endpoint term is
   * gone makes the load fail.
   */
  method ListRelations(terms: seq<Term>, relations: seq<TermRelation>)
    returns (r: Result<seq<TermRelationRead>, HttpError>)
    ensures ListedAs(terms, relations, r)
    ensures r.Ok? <==> EndpointsExist(terms, relations)
  {
    var result: seq<TermRelationRead> := [];
    var i := 0;
    while i < |relations|
      invariant 0 <= i <= |relations|
      invariant |result| == i
      invariant forall k :: 0 <= k < i ==> Resolves(terms, relations[k]) && result[k] == ReadOf(terms, relations[k])
    {
      var rel := relations[i];
      var source := FindTermId(terms, rel.sourceId);
      var target := FindTermId(terms, rel.targetId);
      if source.None? || target.None? {
        return Err(INTERNAL_SERVER_ERROR);
      }
      result := result + [TermRelationRead(rel.id, rel.sourceId, rel.targetId, rel.relationType, rel.description,
                                           terms[source.value].keyword, terms[target.value].keyword)];
      i := i + 1;
    }
    r := Ok(result);
  }

  /** Relations drawn from a table whose endpoints all exist have endpoints that all exist. */
  lemma EndpointsExistInSubset(terms: seq<Term>, relations: seq<TermRelation>, chosen: seq<TermRelation>)
    requires EndpointsExist(terms, relations)
    requires forall x :: x in chosen ==> x in relations
    ensures EndpointsExist(terms, chosen)
  {
    forall k | 0 <= k < |chosen|
      ensures FindTermId(terms, chosen[k].sourceId).Some? && FindTermId(terms, chosen[k].targetId).Some?
    {
      assert chosen[k] in relations;
      var i :| 0 <= i < |relations| && relations[i] == chosen[k];
    }
  }

  /**
   * `GET /graph/relations/{keyword}`: 404 for an unknown keyword; otherwise
   * the relations leaving the term followed by those entering it.
   */
  method GetTermRelations(terms: seq<Term>, relations: seq<TermRelation>, keyword: string)
    returns (r: Result<seq<TermRelationRead>, HttpError>)
    ensures FindKeyword(terms, keyword).None? ==> r == Err(NotFound("Term not found"))
    ensures FindKeyword(terms, keyword).Some? ==>
      var id := terms[FindKeyword(terms, keyword).value].id;
      ListedAs(terms, Outgoing(relations, id) + Incoming(relations, id), r)
    ensures FindKeyword(terms, keyword).Some? && EndpointsExist(terms, relations) ==> r.Ok?
  {
    var found := FindKeyword(terms, keyword);
    if found.None? {
      return Err(NotFound("Term not found"));
    }
    var id := terms[found.value].id;
    var outgoing := Outgoing(relations, id);
    var incoming := Incoming(relations, id);
    if EndpointsExist(terms, relations) {
      EndpointsExistInSubset(terms, relations, outgoing + incoming);
    }
    r := ListRelations(terms, outgoing + incoming);
  }

  // ---------------------------------------------------------------------
  // Relation writes
  // ---------------------------------------------------------------------

  /**
   * `POST /graph/relations/`: checks, in this order, that the source term
   * exists (404), the target term exists (404), they are different terms
   * (400) and no relation has the same source, target and type (409).
   * Any failure changes nothing; success adds exactly one relation.
   */
  method CreateRelation(db: Database, data: TermRelationCreate) returns (r: Result<TermRelationRead, HttpError>)
    requires db.Valid() && ValidTermRelationCreate(data)
    modifies db
    ensures db.Valid()
    ensures r.Err? ==> unchanged(db)
    ensures old(AllRelationsWithinBounds(db.relations)) ==> AllRelationsWithinBounds(db.relations)
    ensures
      var s := old(FindKeyword(db.terms, data.sourceKeyword));
      var t := old(FindKeyword(db.terms, data.targetKeyword));
      if s.None? then r == Err(NotFound("Source term '" + data.sourceKeyword + "' not found"))
      else if t.None? then r == Err(NotFound("Target term '" + data.targetKeyword + "' not found"))
      else
        var src, tgt := old(db.terms)[s.value], old(db.terms)[t.value];
        if src.id == tgt.id then r == Err(BadRequest("Source and target terms cannot be the same"))
        else if old(TripleExists(db.relations, src.id, tgt.id, data.relationType)) then
          r == Err(Conflict("Relation already exists"))
        else
          var rel := TermRelation(old(db.nextRelationId), src.id, tgt.id, data.relationType, data.description);
          && db.relations == old(db.relations) + [rel]
          && db.nextRelationId == old(db.nextRelationId) + 1
          && db.terms == old(db.terms) && db.nextTermId == old(db.nextTermId)
          && r == Ok(TermRelationRead(rel.id, src.id, tgt.id, rel.relationType, rel.description,
                                      src.keyword, tgt.keyword))
  {
    var s := FindKeyword(db.terms, data.sourceKeyword);
    if s.None? {
      return Err(NotFound("Source term '" + data.sourceKeyword + "' not found"));
    }
    var t := FindKeyword(db.terms, data.targetKeyword);
    if t.None? {
      return Err(NotFound("Target term '" + data.targetKeyword + "' not found"));
    }
    var sourceTerm, targetTerm := db.terms[s.value], db.terms[t.value];
    if sourceTerm.id == targetTerm.id {
      return Err(BadRequest("Source and target terms cannot be the same"));
    }
    if TripleExists(db.relations, sourceTerm.id, targetTerm.id, data.relationType) {
      return Err(Conflict("Relation already exists"));
    }
    var rel := db.AddRelation(sourceTerm.id, targetTerm.id, data.relationType, data.description);
    r := Ok(TermRelationRead(rel.id, rel.sourceId, rel.targetId, rel.relationType, rel.description,
                             sourceTerm.keyword, targetTerm.keyword));
  }

  /**
   * Source and target resolve to the same term exactly when the two
   * keywords are equal, so the 400 case is "a term related to itself".
   */
  lemma SameTermIffSameKeyword(terms: seq<Term>, nextId: nat, source: string, target: string)
    requires TermTableValid(terms, nextId)
    requires FindKeyword(terms, source).Some? && FindKeyword(terms, target).Some?
    ensures terms[FindKeyword(terms, source).value].id == terms[FindKeyword(terms, target).value].id
            <==> source == target
  {
  }

  /** `DELETE /graph/relations/{id}`: 404 for an unknown id; otherwise only that relation goes. */
  method DeleteRelation(db: Database, relationId: int) returns (r: Result<(), HttpError>)
    requires db.Valid()
    modifies db
    ensures db.Valid()
    ensures old(FindRelationId(db.relations, relationId)).None? ==>
      r == Err(NotFound("Relation not found")) && unchanged(db)
    ensures old(FindRelationId(db.relations, relationId)).Some? ==>
      var i := old(FindRelationId(db.relations, relationId)).value;
      && r == Ok(())
      && db.relations == old(db.relations)[..i] + old(db.relations)[i + 1..]
      && (forall x :: x in db.relations <==> x in old(db.relations) && x.id != relationId)
      && db.terms == old(db.terms)
      && db.nextTermId == old(db.nextTermId) && db.nextRelationId == old(db.nextRelationId)
  {
    var found := FindRelationId(db.relations, relationId);
    if found.None? {
      return Err(NotFound("Relation not found"));
    }
    RemovedRelationIsGone(db.relations, db.nextRelationId, found.value);
    db.DeleteRelationAt(found.value);
    r := Ok(());
  }

  /** Removing row `i` of a valid relation table removes exactly the relation with its id. */
  lemma RemovedRelationIsGone(relations: seq<TermRelation>, nextId: nat, i: nat)
    requires RelationTableValid(relations, nextId) && i < |relations|
    ensures forall x :: x in relations[..i] + relations[i + 1..] <==> x in relations && x.id != relations[i].id
  {
    var r := relations[..i] + relations[i + 1..];
    forall x ensures x in r <==> x in relations && x.id != relations[i].id {
      if x in r {
        var k :| 0 <= k < |r| && r[k] == x;
        assert r[k] == relations[if k < i then k else k + 1];
      }
      if x in relations && x.id != relations[i].id {
        var k :| 0 <= k < |relations| && relations[k] == x;
        assert k != i;
        assert x == r[if k < i then k else k - 1];
      }
    }
  }

  // ---------------------------------------------------------------------
  // Graph snapshot
  // ---------------------------------------------------------------------

  function NodeOf(t: Term): GraphNode {
    GraphNode(t.id, t.keyword, t.description, t.source)
  }

  function EdgeOf(rel: TermRelation): GraphEdge {
    GraphEdge(rel.id, rel.sourceId, rel.targetId, rel.relationType, rel.description)
  }

  /**
   * `GET /graph/graph`: one node per term and one edge per relation, in
   * store order; an edge's ends are its relation's term ids.
   */
  function GetGraphData(terms: seq<Term>, relations: seq<TermRelation>): (g: GraphData)
    ensures |g.nodes| == |terms| && |g.edges| == |relations|
    ensures forall k :: 0 <= k < |terms| ==>
      && g.nodes[k].id == terms[k].id && g.nodes[k].keyword == terms[k].keyword
      && g.nodes[k].description == terms[k].description && g.nodes[k].source == terms[k].source
    ensures forall k :: 0 <= k < |relations| ==>
      && g.edges[k].id == relations[k].id
      && g.edges[k].source == relations[k].sourceId && g.edges[k].target == relations[k].targetId
      && g.edges[k].relationType == relations[k].relationType
      && g.edges[k].description == relations[k].description
  {
    GraphData(seq(|terms|, k requires 0 <= k < |terms| => NodeOf(terms[k])),
              seq(|relations|, k requires 0 <= k < |relations| => EdgeOf(relations[k])))
  }

  /** The term a node describes. */
  function TermOfNode(n: GraphNode): Term
    requires n.id >= 0
  {
    Term(n.id, n.keyword, n.description, n.source)
  }

  /** The relation an edge describes. */
  function RelationOfEdge(e: GraphEdge): TermRelation
    requires e.id >= 0 && e.source >= 0 && e.target >= 0
  {
    TermRelation(e.id, e.source, e.target, e.relationType, e.description)
  }

  /** The snapshot loses nothing: both tables can be read back from it, row for row. */
  lemma SnapshotIsLossless(terms: seq<Term>, relations: seq<TermRelation>)
    ensures var g := GetGraphData(terms, relations);
      && (forall n :: n in g.nodes ==> n.id >= 0)
      && (forall e :: e in g.edges ==> e.id >= 0 && e.source >= 0 && e.target >= 0)
      && seq(|g.nodes|, k requires 0 <= k < |g.nodes| => TermOfNode(g.nodes[k])) == terms
      && seq(|g.edges|, k requires 0 <= k < |g.edges| => RelationOfEdge(g.edges[k])) == relations
  {
  }

  /** In a valid store no edge of the snapshot is a loop, and no two edges share source, target and type. */
  lemma SnapshotEdgesAreSimple(terms: seq<Term>, relations: seq<TermRelation>, nextId: nat)
    requires RelationTableValid(relations, nextId)
    ensures var g := GetGraphData(terms, relations);
      && (forall k :: 0 <= k < |g.edges| ==> g.edges[k].source != g.edges[k].target)
      && (forall i, j :: 0 <= i < j < |g.edges| ==>
            (g.edges[i].source, g.edges[i].target, g.edges[i].relationType)
            != (g.edges[j].source, g.edges[j].target, g.edges[j].relationType))
  {
    var g := GetGraphData(terms, relations);
    forall i, j | 0 <= i < j < |g.edges|
      ensures (g.edges[i].source, g.edges[i].target, g.edges[i].relationType)
              != (g.edges[j].source, g.edges[j].target, g.edges[j].relationType)
    {
      assert !SameTriple(relations[j], relations[i].sourceId, relations[i].targetId, relations[i].relationType);
    }
  }
}
