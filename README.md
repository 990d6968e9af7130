# Glossary store: a verified model

This project models the core of a small glossary service. The service stores
**terms** (a unique keyword, a description and an optional source) and typed,
directed **relations** between two terms. It reaches that store three ways:

- a REST facade for terms (`/terms`);
- a gRPC facade for the same term operations, which adds pagination and a
  total count;
- a REST facade for relations and for a full graph snapshot (`/graph`).

The model keeps the store as two tables in one class, `Store.Database`. The
term table and the relation table are sequences of records in store order,
and each table has an id counter that only grows. The class invariant
`Database.Valid()` says:

- term ids and relation ids are positive, ascending in store order (so
  unique) and below their counter;
- keywords are unique;
- no stored source is the empty string;
- no relation joins a term to itself;
- no two relations share (source id, target id, relation type).

Every handler keeps this invariant. Each handler is a method that either
returns its value or reports its error, and a failure changes nothing
(`unchanged(db)`). The REST facade reports errors as an HTTP status with a
detail message. The gRPC facade reports them as a status code
(`NOT_FOUND`, `ALREADY_EXISTS`) together with an empty response message.
The exception is gRPC `DeleteTerm`, which also answers a filled-in response,
`success = false` with message "Term not found" (`app/grpc_server.py:164`).
Read-only queries are functions or read-only methods over the table
contents, so the lemmas can relate them to each other.

Modules, one per source file or component:

- `Wrappers`: Option and Result.
- `Http`: the REST error shape and status codes.
- `Schemas` (`app/schemas.py`): request and response shapes, field bounds,
  defaults.
- `Models` (`app/models.py`): the two stored records and their bounds.
- `Collation`: the keyword order used by `ORDER BY keyword`. It compares
  code point by code point, and a proper prefix sorts first. This is the
  embedded store's binary collation over UTF-8.
- `Store`: queries, table invariants, and the `Database` class with its row
  operations (insert, write back, delete).
- `TermsRouter` (`app/routers/terms.py`), `GrpcServer`
  (`app/grpc_server.py`), `GraphRouter` (`app/routers/graph.py`): the
  handlers.
- `Scenarios`: the two facades agree on reads, and two end-to-end request
  sequences run against a fresh store.

Points where the code's behaviour is easy to misread:

- **Deleting a term does not delete its relations.** Both term delete
  handlers only delete the row (`app/routers/terms.py:63`,
  `app/grpc_server.py:166`).
  Relations can therefore point at a missing term. Listing such a relation
  loads a missing endpoint, and the handler raises. The framework answers
  that with HTTP 500, and the model returns `HttpError(500, ...)` there.
  `Scenarios.RelationLifecycle` walks through exactly this case.
  "Every relation's endpoints exist" (`Store.EndpointsExist`) is not an
  invariant of the model.
- **Only the gRPC update treats an empty field as "not supplied".** REST
  update tests `is not None` (`app/routers/terms.py:44-48`), and the
  request schema gives a supplied keyword or description a minimum length
  of 1, so an empty value never reaches the
  handler. REST update also never touches `source`, even when the request
  carries one. The gRPC update is the one that treats `""` as "leave
  unchanged" (`app/grpc_server.py:121-139`).
- **Only the REST facade validates field lengths.** The request schemas
  bound every REST input (`app/schemas.py:6-30`), but the gRPC handlers
  check nothing: a gRPC create can store an empty keyword. So the REST
  handlers require the schema bounds, and they keep `AllTermsWithinBounds` and
  `AllRelationsWithinBounds`. The gRPC handlers require nothing, and the
  bounds are not part of `Valid()`.
- **`source` is modelled although `app/models.py` does not declare it.**
  `app/grpc_server.py` and `app/routers/graph.py` read and write
  `term.source`, so the model's `Term` record has it. Likewise, the
  `TermRelation` record is not part of this model's sources. Its fields are
  the ones `app/routers/graph.py:50-73` writes and reads.
- **The graph router is modelled although the app never mounts it**
  (`app/main.py:16` mounts only the term router). No routing is modelled.

## Model

| member | source | states |
|---|---|---|
| `Schemas.ValidTermCreate` | app/schemas.py:6-9 | a create request is accepted when the keyword is 1..128 long, the description 1..2048 long and any source at most 512 long |
| `Schemas.ValidTermUpdate` | app/schemas.py:12-15 | an update request is accepted when each supplied field meets the same bounds as on create; absent fields are unconstrained |
| `Schemas.ValidTermRelationCreate` | app/schemas.py:26-30 | a relation request is accepted when both keywords are 1..128 long, the type at most 64 long and any description at most 512 long |
| `Schemas.EmptyUpdateIsValid` | app/schemas.py:12-15 | every update field is optional: the request with all fields left out is valid |
| `Schemas.DefaultRelationRequest` | app/schemas.py:26-30 | a relation request naming only its endpoints has type "related" and no description, and is valid when both keywords are 1..128 long |
| `Models.TermWithinBounds` | app/models.py:8-9 | the bounds declared on the stored term: keyword 1..128, description 1..2048, source at most 512 |
| `Models.RelationWithinBounds` | app/schemas.py:29-30 | the bounds a stored relation inherits from its request: type at most 64, description at most 512 |
| `Models.CreatedTermWithinBounds` | app/models.py:6-9 | a term built from a valid create request has keyword 1..128, description 1..2048 and source at most 512 long |
| `Collation.KeyLessTotal` | app/routers/terms.py:15 | the keyword order is total: two different keywords are always ordered one way or the other |
| `Collation.SortByKeyword` | app/routers/terms.py:15 | `order_by(Term.keyword)`: an insertion sort under the keyword order that returns as many rows as it was given (sorted and a permutation by `SortByKeywordCorrect`) |
| `Collation.SortByKeywordCorrect` | app/routers/terms.py:15 | ordering by keyword returns every row exactly once (same multiset), ascending |
| `Store.FindKeyword` | app/routers/terms.py:20 | the lookup by exact keyword returns the first row with that keyword, or nothing exactly when no row has it |
| `Store.FindTermId` | app/routers/graph.py:82-83 | loading a relation's endpoint by primary key finds the row with that id, or nothing exactly when no row has it |
| `Store.KeywordTakenByOther` | app/routers/terms.py:45 | the rename-conflict query: a term other than the one being renamed has the keyword; with unique keywords, exactly when the keyword lookup finds a row with another id (also app/grpc_server.py:123-128) |
| `Store.TripleExists` | app/routers/graph.py:37-43 | the duplicate query: some relation has the same source id, target id and type |
| `Store.FindRelationId` | app/routers/graph.py:130 | loading a relation by primary key finds the row with that id, or nothing exactly when none has it |
| `Store.AppendTermKeepsValid` | app/routers/terms.py:28-34 | inserting a term with a fresh keyword and the next id keeps ids ascending and keywords unique |
| `Store.ReplaceTermKeepsValid` | app/routers/terms.py:44-54 | writing back a term with the same id, under a keyword no other term owns, keeps the table valid |
| `Store.RemoveTermKeepsValid` | app/routers/terms.py:63-64 | deleting any term row keeps the term table valid |
| `Store.AppendRelationKeepsValid` | app/routers/graph.py:30-57 | inserting a non-self relation whose triple is new keeps relation ids ascending, no self-relations and triples unique |
| `Store.RemoveRelationKeepsValid` | app/routers/graph.py:133-134 | deleting any relation row keeps the relation table valid |
| `Store.TermIdsUnique` | app/models.py:7 | the id is a primary key: two term rows with the same id are the same row |
| `Store.RelationIdsUnique` | app/routers/graph.py:130 | two relation rows with the same id are the same row |
| `Store.FindKeywordUnique` | app/models.py:8 | with unique keywords, a row carrying a keyword is the one the keyword lookup finds |
| `Store.Database.Valid` | app/models.py:7-8 | the store invariant: positive ascending ids below the counters, unique keywords, no empty stored source, no self-relation, no repeated (source, target, type) |
| `Store.Database.constructor` | app/db.py:9-10 | a new store has empty tables and both id counters at 1 |
| `Store.Database.AddTerm` | app/routers/terms.py:31-34 | insert and commit: the new row gets the next id and is appended; nothing else changes |
| `Store.Database.PutTerm` | app/routers/terms.py:52-54 | commit of the in-place field changes: row `i` is replaced and nothing else changes |
| `Store.Database.DeleteTermAt` | app/routers/terms.py:63-64 | delete and commit: exactly row `i` is removed; relations are untouched |
| `Store.Database.AddRelation` | app/routers/graph.py:50-57 | insert and commit: the new relation gets the next id and is appended; terms are untouched |
| `Store.Database.DeleteRelationAt` | app/routers/graph.py:133-134 | delete and commit: exactly relation row `i` is removed |
| `TermsRouter.ListTerms` | app/routers/terms.py:13-15 | every term exactly once, sorted ascending by keyword |
| `TermsRouter.ListTermsStrictlyAscending` | app/routers/terms.py:14-15 | in a valid store the list is strictly ascending, so no keyword is listed twice |
| `TermsRouter.GetTerm` | app/routers/terms.py:18-23 | returns a stored term with exactly that keyword; 404 "Term not found" exactly when no term has it |
| `TermsRouter.CreateTerm` | app/routers/terms.py:26-35 | 409 with nothing changed if the keyword exists; otherwise one term appended with the next id, the given keyword and description and no source; uniqueness and bounds kept |
| `TermsRouter.UpdateTerm` | app/routers/terms.py:38-55 | 404 if absent; 409 with nothing changed if the new keyword belongs to a different id (its own keyword is allowed); otherwise only the supplied keyword and description change, and the id, the source and every other row stay |
| `TermsRouter.DeleteTerm` | app/routers/terms.py:58-65 | 404 if absent; otherwise exactly that term's row goes, the other terms stay, and the relations are untouched |
| `TermsRouter.RemovedKeywordIsGone` | app/routers/terms.py:62-64 | removing a term's row removes exactly the rows with its keyword |
| `TermsRouter.GetAfterCreate` | app/routers/terms.py:19-35 | create then get returns the created term field for field |
| `TermsRouter.GetAfterDelete` | app/routers/terms.py:59-65 | after delete, get of that keyword is not found |
| `TermsRouter.GetAfterUpdate` | app/routers/terms.py:40-55 | after a rename, the new keyword finds the updated row and the old keyword finds nothing |
| `GrpcServer.EncodeSource` | app/grpc_server.py:45 | a missing source is sent as ""; a present one is sent as it is |
| `GrpcServer.DecodeSource` | app/grpc_server.py:93 | an empty request source is stored as none; any other is stored as it is |
| `GrpcServer.EncodeDecodeSource` | app/grpc_server.py:93-104 | decoding a request source and encoding it back gives the same string |
| `GrpcServer.DecodeEncodeSource` | app/grpc_server.py:138-150 | every source the store can hold survives being sent and received again |
| `GrpcServer.ToMessage` | app/grpc_server.py:67-74 | the message carries the term's id, keyword and description, and its source with none sent as "" |
| `GrpcServer.ToMessages` | app/grpc_server.py:40-48 | one message per term, in the same order |
| `GrpcServer.Page` | app/grpc_server.py:31-37 | skips `offset` rows only when offset > 0 and keeps at most `limit` only when limit > 0; entry k is row offset + k |
| `GrpcServer.PageIsSlice` | app/grpc_server.py:32-37 | a page is a contiguous slice of the sorted list |
| `GrpcServer.NoWindowIsWholeList` | app/grpc_server.py:29-37 | with limit and offset both at most 0 the page is the whole list |
| `GrpcServer.ConsecutivePages` | app/grpc_server.py:32-35 | two consecutive pages of size L are the page of size 2L |
| `GrpcServer.PagesCoverList` | app/grpc_server.py:32-35 | paging with offset stepping by limit visits every row once, in order |
| `GrpcServer.PageOfSortedIsSorted` | app/grpc_server.py:29-37 | a page of the keyword-sorted list is itself sorted |
| `GrpcServer.ListTerms` | app/grpc_server.py:26-53 | total is the number of stored terms whatever the window; the page has at most `limit` entries when limit > 0; entry k is the message of sorted term offset + k |
| `GrpcServer.GetTerm` | app/grpc_server.py:55-74 | NOT_FOUND with an empty message exactly when no term has the keyword; otherwise the matching term's message |
| `GrpcServer.CreateTerm` | app/grpc_server.py:76-106 | ALREADY_EXISTS with nothing changed if the keyword exists; otherwise one term appended, with an empty source stored as none |
| `GrpcServer.NonEmptyOr` | app/grpc_server.py:121-139 | an empty request field leaves the stored value: the result is the request value or the stored one, and it is empty only when both are |
| `GrpcServer.UpdateTerm` | app/grpc_server.py:108-152 | NOT_FOUND if absent; ALREADY_EXISTS with nothing changed if a non-empty new keyword belongs to another id; otherwise non-empty fields replace the stored ones, the rest and the id stay |
| `GrpcServer.DeleteTerm` | app/grpc_server.py:154-172 | success=false with NOT_FOUND if absent; otherwise exactly that row goes and success=true; success holds exactly when the status is OK |
| `GraphRouter.Outgoing` | app/routers/graph.py:104-106 | exactly the relations whose source is the term |
| `GraphRouter.Incoming` | app/routers/graph.py:107-109 | exactly the relations whose target is the term |
| `GraphRouter.OutgoingKeepsStoreOrder` | app/routers/graph.py:104-106 | the outgoing group keeps store (ascending id) order |
| `GraphRouter.IncomingKeepsStoreOrder` | app/routers/graph.py:107-109 | the incoming group keeps store (ascending id) order |
| `GraphRouter.NoRelationInBothGroups` | app/routers/graph.py:103-112 | without self-relations no relation is both outgoing and incoming |
| `GraphRouter.Touching` | app/routers/graph.py:103-112 | exactly the relations whose source or target is the term |
| `GraphRouter.GroupsPartitionTouching` | app/routers/graph.py:103-112 | outgoing then incoming holds every relation touching the term, each exactly once |
| `GraphRouter.ReadOf` | app/routers/graph.py:84-92 | the response copies the relation's fields and adds the keywords of the terms with its source and target ids |
| `GraphRouter.ListRelations` | app/routers/graph.py:76-93 | when every endpoint loads, one enriched entry per relation, in order; otherwise HTTP 500; it answers Ok exactly when every relation's endpoints are stored terms |
| `GraphRouter.EndpointsExistInSubset` | app/routers/graph.py:103-112 | relations chosen from a table whose endpoints all exist have endpoints that all exist |
| `GraphRouter.GetTermRelations` | app/routers/graph.py:96-124 | 404 for an unknown keyword; otherwise the outgoing relations followed by the incoming ones, enriched as in the full listing; never 500 while every relation's endpoints exist |
| `GraphRouter.CreateRelation` | app/routers/graph.py:13-73 | in order: 404 missing source, 404 missing target, 400 same term, 409 existing triple, each with nothing changed; otherwise one relation appended with the resolved ids, and the response names both endpoints' keywords |
| `GraphRouter.SameTermIffSameKeyword` | app/routers/graph.py:30-34 | source and target resolve to the same id exactly when the two keywords are equal |
| `GraphRouter.DeleteRelation` | app/routers/graph.py:127-135 | 404 for an unknown id with nothing changed; otherwise only that relation goes |
| `GraphRouter.RemovedRelationIsGone` | app/routers/graph.py:130-134 | removing a relation row removes exactly the relation with that id |
| `GraphRouter.GetGraphData` | app/routers/graph.py:138-170 | one node per term and one edge per relation, in store order; each edge's source and target are the relation's source and target ids |
| `GraphRouter.SnapshotIsLossless` | app/routers/graph.py:148-168 | both tables can be read back from the snapshot, row for row |
| `GraphRouter.SnapshotEdgesAreSimple` | app/routers/graph.py:159-168 | in a valid store no edge is a loop and no two edges share source, target and type |
| `Scenarios.ListTermsAgree` | app/grpc_server.py:29-53 | without a window, gRPC lists the same terms in the same order as REST, with the total count |
| `Scenarios.GetTermAgree` | app/grpc_server.py:55-74 | a keyword lookup fails over REST exactly when it fails over gRPC, and otherwise gives the same term |
| `Scenarios.TermLifecycle` | tests/test_terms.py:26-64 | create, get, duplicate create, rename, get, delete, get answer 201, 200, 409, 200, 200, 204, 404; the get returns the created description and the rename answers keyword "APIv2" with description "Updated" |
| `Scenarios.RelateRestToHttp` | app/routers/graph.py:13-73 | two creates and a relation create on a fresh store give the expected rows and 201 three times |
| `Scenarios.DeleteHttp` | app/routers/terms.py:59-65 | deleting "HTTP" from the two-term store answers 204 and leaves the relation row in place |
| `Scenarios.RelationLifecycle` | app/routers/graph.py:96-124 | after relating REST to HTTP and deleting HTTP, the edge is still in the snapshot and listing REST's relations fails with 500 |

## Left out

- Transport is not modelled: HTTP routing, JSON encoding, protobuf encoding and the gRPC stubs.
- The framework's request validation is not modelled as an operation. A REST request that breaks a schema bound gets 422 before any handler runs, so the REST handlers require the schema predicates instead.
- `serve()`, the thread-pool server, `app/main.py`, the health endpoint and `app/db.py` are left out: process wiring, networking and concurrency. The engine and session setup are left out too.
- Races between concurrent requests are out, including a check-then-insert caught only by the UNIQUE index. The model is sequential.
- Store-internal session mechanics are out: commit, refresh and lazy loading. Each query is a function over the table contents.
- Ids come from a counter that only grows. The embedded store can give a new row the largest id again after that row is deleted. Because term deletes do not remove relations, a term created after such a delete takes over the deleted term's dangling relations: after the delete in `Scenarios.RelationLifecycle`, creating a term would make the old edge load again in the source, while in the model it stays dangling for good.
- Ids, `limit` and `offset` are unbounded integers. Protobuf's 32-bit integer width is not modelled.
- Cascade delete of relations is not modelled, because the term delete handlers do not do it.
- `locustfile.py`, `scripts/generate_grpc.py` and `scripts/generate_docs.py` are left out: load testing, code generation and file I/O.
- Keywords are sequences of characters with no normalisation. The collation model assumes the store's default binary collation.
