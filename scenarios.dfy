/**
 * Clients of the handlers: the two facades agree on the term reads, and the
 * end-to-end request sequences run against a fresh store give the status
 * codes stated in their postconditions.
 */
module Scenarios {
  import opened Wrappers
  import opened Schemas
  import opened Models
  import opened Store
  import opened Http
  import TermsRouter
  import GrpcServer
  import GraphRouter

  /** The status code a REST call answers with, given the code its route uses on success. */
  function StatusOf<T>(r: Result<T, HttpError>, success: int): int {
    if r.Ok? then success else r.error.statusCode
  }

  /** Listing without a window gives the same terms, in the same order, over both facades. */
  lemma ListTermsAgree(terms: seq<Term>, limit: int, offset: int)
    requires limit <= 0 && offset <= 0
    ensures GrpcServer.ListTerms(terms, GrpcServer.ListTermsRequest(limit, offset)).terms
            == GrpcServer.ToMessages(TermsRouter.ListTerms(terms))
    ensures GrpcServer.ListTerms(terms, GrpcServer.ListTermsRequest(limit, offset)).total == |terms|
  {
    var sorted := TermsRouter.ListTerms(terms);
    GrpcServer.NoWindowIsWholeList(sorted, limit, offset);
  }

  /** A lookup by keyword fails over REST exactly when it fails over gRPC, and otherwise finds the same term. */
  lemma GetTermAgree(terms: seq<Term>, keyword: string)
    ensures TermsRouter.GetTerm(terms, keyword).Err?
            <==> GrpcServer.GetTerm(terms, GrpcServer.GetTermRequest(keyword)).status.code == GrpcServer.NOT_FOUND
    ensures TermsRouter.GetTerm(terms, keyword).Ok? ==>
      GrpcServer.GetTerm(terms, GrpcServer.GetTermRequest(keyword)).response.term
      == Some(GrpcServer.ToMessage(TermsRouter.GetTerm(terms, keyword).value))
  {
  }

  /**
   * create "API", get it, create it again, rename it to "APIv2", get the new
   * name, delete it, get it again.
   */
  method TermLifecycle() returns (codes: seq<int>, description: string, renamed: string, updatedDescription: string)
    ensures codes == [201, 200, 409, 200, 200, 204, 404]
    ensures description == "Application Programming Interface"
    ensures renamed == "APIv2"
    ensures updatedDescription == "Updated"
  {
    var db := new Database();
    var created := TermsRouter.CreateTerm(db, TermCreate("API", "Application Programming Interface"));
    var fetched := TermsRouter.GetTerm(db.terms, "API");
    TermsRouter.GetAfterCreate([], created.value);
    description := fetched.value.description;
    var again := TermsRouter.CreateTerm(db, TermCreate("API", "Duplicate"));
    var updated := TermsRouter.UpdateTerm(db, "API", TermUpdate(Some("APIv2"), Some("Updated")));
    renamed := updated.value.keyword;
    updatedDescription := updated.value.description;
    var fetchedRenamed := TermsRouter.GetTerm(db.terms, "APIv2");
    var deleted := TermsRouter.DeleteTerm(db, "APIv2");
    var gone := TermsRouter.GetTerm(db.terms, "APIv2");
    codes := [StatusOf(created, HTTP_201_CREATED), StatusOf(fetched, HTTP_200_OK),
              StatusOf(again, HTTP_201_CREATED), StatusOf(updated, HTTP_200_OK),
              StatusOf(fetchedRenamed, HTTP_200_OK), StatusOf(deleted, HTTP_204_NO_CONTENT),
              StatusOf(gone, HTTP_200_OK)];
  }

  /** A fresh store holding "REST" and "HTTP" and one "part_of" relation from the first to the second. */
  method RelateRestToHttp() returns (db: Database, codes: seq<int>, relationKeywords: (string, string))
    ensures fresh(db) && db.Valid()
    ensures db.terms == [Term(1, "REST", "Representational State Transfer", None),
                         Term(2, "HTTP", "Hypertext Transfer Protocol", None)]
    ensures db.relations == [TermRelation(1, 1, 2, "part_of", None)]
    ensures codes == [201, 201, 201]
    ensures relationKeywords == ("REST", "HTTP")
  {
    db := new Database();
    var rest := TermsRouter.CreateTerm(db, TermCreate("REST", "Representational State Transfer"));
    var http := TermsRouter.CreateTerm(db, TermCreate("HTTP", "Hypertext Transfer Protocol"));
    assert FindKeyword(db.terms, "REST") == Some(0);
    assert FindKeyword(db.terms, "HTTP") == Some(1);
    var relation := GraphRouter.CreateRelation(db, TermRelationCreate("REST", "HTTP", "part_of"));
    assert rest.Ok?;
    assert http.Ok?;
    assert relation.Ok?;
    relationKeywords := (relation.value.sourceKeyword, relation.value.targetKeyword);
    codes := [StatusOf(rest, HTTP_201_CREATED), StatusOf(http, HTTP_201_CREATED),
              StatusOf(relation, HTTP_201_CREATED)];
  }

  /** Deleting "HTTP" from the store built by `RelateRestToHttp` leaves its relation in place. */
  method DeleteHttp(db: Database) returns (code: int)
    requires db.Valid()
    requires db.terms == [Term(1, "REST", "Representational State Transfer", None),
                          Term(2, "HTTP", "Hypertext Transfer Protocol", None)]
    requires db.relations == [TermRelation(1, 1, 2, "part_of", None)]
    modifies db
    ensures db.Valid()
    ensures db.terms == [Term(1, "REST", "Representational State Transfer", None)]
    ensures db.relations == [TermRelation(1, 1, 2, "part_of", None)]
    ensures code == 204
  {
    assert FindKeyword(db.terms, "HTTP") == Some(1);
    var deleted := TermsRouter.DeleteTerm(db, "HTTP");
    code := StatusOf(deleted, HTTP_204_NO_CONTENT);
  }

  /**
   * create "REST" and "HTTP", relate them with "part_of", list the
   * relations of "REST", then delete "HTTP". Deleting a term does not
   * delete its relations, so the edge stays in the snapshot and listing the
   * relations of "REST" then fails to load the missing endpoint.
   */
  method RelationLifecycle() returns (codes: seq<int>, relationKeywords: (string, string), edgesAfterDelete: nat)
    ensures codes == [201, 201, 201, 200, 204, 500]
    ensures relationKeywords == ("REST", "HTTP")
    ensures edgesAfterDelete == 1
  {
    var db, created;
    db, created, relationKeywords := RelateRestToHttp();
    var edge := db.relations[0];
    assert FindKeyword(db.terms, "REST") == Some(0);
    assert FindTermId(db.terms, 1) == Some(0) && FindTermId(db.terms, 2) == Some(1);
    assert EndpointsExist(db.terms, db.relations);
    var listed := GraphRouter.GetTermRelations(db.terms, db.relations, "REST");
    assert listed.Ok?;
    var deleted := DeleteHttp(db);
    edgesAfterDelete := |GraphRouter.GetGraphData(db.terms, db.relations).edges|;
    assert FindKeyword(db.terms, "REST") == Some(0);
    var listedAfter := GraphRouter.GetTermRelations(db.terms, db.relations, "REST");
    assert GraphRouter.Outgoing(db.relations, 1) == [edge];
    assert GraphRouter.Incoming(db.relations, 1) == [];
    assert FindTermId(db.terms, 2) == None;
    assert !GraphRouter.Resolves(db.terms, db.relations[0]);
    assert listedAfter.Err?;
    codes := created + [StatusOf(listed, HTTP_200_OK), deleted, StatusOf(listedAfter, HTTP_200_OK)];
  }
}
