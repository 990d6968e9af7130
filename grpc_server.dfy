/**
 * The gRPC glossary service: the same term operations as the REST facade,
 * over protobuf messages. A protobuf string field cannot be absent, so the
 * empty string stands for "no value" in both directions.
 */
module GrpcServer {
  import opened Wrappers
  import opened Models
  import opened Collation
  import opened Store

  datatype StatusCode = OK | NOT_FOUND | ALREADY_EXISTS

  /** The status code and details set on the call context. */
  datatype Status = Status(code: StatusCode, details: string)

  const STATUS_OK: Status := Status(OK, "")

  /** A response message together with the status of the call. */
  datatype Reply<M> = Reply(response: M, status: Status)

  datatype TermMessage = TermMessage(id: int, keyword: string, description: string, source: string)

  datatype ListTermsRequest = ListTermsRequest(limit: int, offset: int)
  datatype ListTermsResponse = ListTermsResponse(terms: seq<TermMessage>, total: int)
  datatype GetTermRequest = GetTermRequest(keyword: string)
  /** `term` is None when the response is the empty message. */
  datatype GetTermResponse = GetTermResponse(term: Option<TermMessage>)
  datatype CreateTermRequest = CreateTermRequest(keyword: string, description: string, source: string)
  datatype CreateTermResponse = CreateTermResponse(term: Option<TermMessage>)
  datatype UpdateTermRequest = UpdateTermRequest(keyword: string, newKeyword: string, description: string,
                                                 source: string)
  datatype UpdateTermResponse = UpdateTermResponse(term: Option<TermMessage>)
  datatype DeleteTermRequest = DeleteTermRequest(keyword: string)
  datatype DeleteTermResponse = DeleteTermResponse(success: bool, message: string)

  // ---------------------------------------------------------------------
  // Message conversion
  // ---------------------------------------------------------------------

  /** A stored source as sent on the wire: a missing source becomes "". */
  function EncodeSource(source: Option<string>): (s: string)
    ensures s == "" <==> source.None? || source == Some("")
    ensures source.Some? ==> s == source.value
  {
    if source.Some? then source.value else ""
  }

  /** A request's source as stored: "" becomes a missing source. */
  function DecodeSource(s: string): (source: Option<string>)
    ensures source.None? <==> s == ""
    ensures source.Some? ==> source.value == s
  {
    if s != "" then Some(s) else None
  }

  /** Decoding then encoding gives back any request string. */
  lemma EncodeDecodeSource(s: string)
    ensures EncodeSource(DecodeSource(s)) == s
  {
  }

  /** Encoding then decoding gives back every source the store can hold. */
  lemma DecodeEncodeSource(source: Option<string>)
    requires source != Some("")
    ensures DecodeSource(EncodeSource(source)) == source
  {
  }

  /** The `Term` message of a stored term, field for field. */
  function ToMessage(t: Term): (m: TermMessage)
    ensures m.id == t.id && m.keyword == t.keyword && m.description == t.description
    ensures m.source == EncodeSource(t.source)
  {
    TermMessage(t.id, t.keyword, t.description, EncodeSource(t.source))
  }

  function ToMessages(terms: seq<Term>): (ms: seq<TermMessage>)
    ensures |ms| == |terms|
    ensures forall k :: 0 <= k < |terms| ==> ms[k] == ToMessage(terms[k])
  {
    seq(|terms|, k requires 0 <= k < |terms| => ToMessage(terms[k]))
  }

  // ---------------------------------------------------------------------
  // Pagination: LIMIT/OFFSET, each applied only when positive
  // ---------------------------------------------------------------------

  function Min(a: int, b: int): int { if a < b then a else b }

  /** How many rows an offset skips in a list of `n` rows. */
  function Skipped(n: nat, offset: int): (k: nat)
    ensures k <= n
  {
    if offset > 0 then Min(offset, n) else 0
  }

  /** How many rows a page of a list of `n` rows holds. */
  function PageLength(n: nat, limit: int, offset: int): nat {
    var rest := n - Skipped(n, offset);
    if limit > 0 then Min(limit, rest) else rest
  }

  /** A page of `s`: skip `offset` rows if positive, then keep at most `limit` if positive. */
  function Page<T>(s: seq<T>, limit: int, offset: int): (r: seq<T>)
    ensures |r| == PageLength(|s|, limit, offset)
    ensures limit > 0 ==> |r| <= limit
    ensures forall k :: 0 <= k < |r| ==> r[k] == s[Skipped(|s|, offset) + k]
  {
    var skipped := if offset > 0 then s[Min(offset, |s|)..] else s;
    if limit > 0 then skipped[..Min(limit, |skipped|)] else skipped
  }

  /** A page is a contiguous slice of the list it was cut from. */
  lemma PageIsSlice<T>(s: seq<T>, limit: int, offset: int)
    ensures var start := Skipped(|s|, offset);
            Page(s, limit, offset) == s[start..start + PageLength(|s|, limit, offset)]
  {
  }

  /** Without a positive limit or offset the page is the whole list. */
  lemma NoWindowIsWholeList<T>(s: seq<T>, limit: int, offset: int)
    requires limit <= 0 && offset <= 0
    ensures Page(s, limit, offset) == s
  {
  }

  /** Two consecutive pages of size `limit` make one page of size `2 * limit`. */
  lemma ConsecutivePages<T>(s: seq<T>, limit: int, offset: int)
    requires limit > 0 && offset >= 0
    ensures Page(s, limit, offset) + Page(s, limit, offset + limit) == Page(s, 2 * limit, offset)
  {
    var a, b, c := Page(s, limit, offset), Page(s, limit, offset + limit), Page(s, 2 * limit, offset);
    assert |a + b| == |c|;
    forall k | 0 <= k < |c| ensures (a + b)[k] == c[k] {
      if k >= |a| {
        assert Skipped(|s|, offset + limit) == Skipped(|s|, offset) + limit;
      }
    }
  }

  /** Every page reached by starting at `offset` and stepping by `limit`, concatenated. */
  function PagesFrom<T>(s: seq<T>, limit: int, offset: nat): seq<T>
    requires limit > 0
    decreases |s| - offset
  {
    if offset >= |s| then [] else Page(s, limit, offset) + PagesFrom(s, limit, offset + limit)
  }

  /** Paging from offset 0 in steps of `limit` visits every row once, in order. */
  lemma {:induction false} PagesCoverList<T>(s: seq<T>, limit: int, offset: nat)
    requires limit > 0 && offset <= |s|
    ensures PagesFrom(s, limit, offset) == s[offset..]
    decreases |s| - offset
  {
    if offset < |s| {
      var page := Page(s, limit, offset);
      assert page == s[offset..offset + |page|];
      PagesCoverList(s, limit, offset + |page|);
      if offset + |page| < |s| {
        assert |page| == limit;
      }
      assert s[offset..] == page + s[offset + |page|..];
    }
  }

  /** Cutting a page out of a sorted list leaves it sorted. */
  lemma PageOfSortedIsSorted(s: seq<Term>, limit: int, offset: int)
    requires SortedByKeyword(s)
    ensures SortedByKeyword(Page(s, limit, offset))
  {
  }

  // ---------------------------------------------------------------------
  // The service methods
  // ---------------------------------------------------------------------

  /**
   * `ListTerms`: one page of the keyword-sorted terms as messages, and the
   * number of all stored terms whatever the window.
   */
  function ListTerms(terms: seq<Term>, request: ListTermsRequest): (r: ListTermsResponse)
    ensures r.total == |terms|
    ensures request.limit > 0 ==> |r.terms| <= request.limit
    ensures |r.terms| == PageLength(|terms|, request.limit, request.offset)
    ensures forall k :: 0 <= k < |r.terms| ==>
      r.terms[k] == ToMessage(SortByKeyword(terms)[Skipped(|terms|, request.offset) + k])
  {
    var sorted := SortByKeyword(terms);
    var page := Page(sorted, request.limit, request.offset);
    var messages := ToMessages(page);
    assert forall k :: 0 <= k < |messages| ==> messages[k] == ToMessage(page[k]);
    ListTermsResponse(messages, |terms|)
  }

  /** `GetTerm`: the term with exactly this keyword, or NOT_FOUND with an empty message. */
  function GetTerm(terms: seq<Term>, request: GetTermRequest): (r: Reply<GetTermResponse>)
    ensures r.status.code != ALREADY_EXISTS
    ensures r.status.code == NOT_FOUND <==> forall t :: t in terms ==> t.keyword != request.keyword
    ensures r.status.code == NOT_FOUND ==>
      r == Reply(GetTermResponse(None), Status(NOT_FOUND, "Term '" + request.keyword + "' not found"))
    ensures r.status.code == OK ==>
      r.status == STATUS_OK &&
      exists i :: 0 <= i < |terms| && terms[i].keyword == request.keyword &&
                  r.response.term == Some(ToMessage(terms[i]))
  {
    match FindKeyword(terms, request.keyword)
    case None => Reply(GetTermResponse(None), Status(NOT_FOUND, "Term '" + request.keyword + "' not found"))
    case Some(i) => Reply(GetTermResponse(Some(ToMessage(terms[i]))), STATUS_OK)
  }

  /**
   * `CreateTerm`: ALREADY_EXISTS if the keyword is taken (nothing changes);
   * otherwise one new term, an empty source being stored as none.
   */
  method CreateTerm(db: Database, request: CreateTermRequest) returns (r: Reply<CreateTermResponse>)
    requires db.Valid()
    modifies db
    ensures db.Valid()
    ensures old(FindKeyword(db.terms, request.keyword)).Some? ==>
      && r == Reply(CreateTermResponse(None),
                    Status(ALREADY_EXISTS, "Term '" + request.keyword + "' already exists"))
      && unchanged(db)
    ensures old(FindKeyword(db.terms, request.keyword)).None? ==>
      var t := Term(old(db.nextTermId), request.keyword, request.description, DecodeSource(request.source));
      && r == Reply(CreateTermResponse(Some(ToMessage(t))), STATUS_OK)
      && db.terms == old(db.terms) + [t]
      && db.nextTermId == old(db.nextTermId) + 1
      && db.relations == old(db.relations) && db.nextRelationId == old(db.nextRelationId)
  {
    var existing := FindKeyword(db.terms, request.keyword);
    if existing.Some? {
      return Reply(CreateTermResponse(None), Status(ALREADY_EXISTS, "Term '" + request.keyword + "' already exists"));
    }
    var term := db.AddTerm(request.keyword, request.description, DecodeSource(request.source));
    r := Reply(CreateTermResponse(Some(ToMessage(term))), STATUS_OK);
  }

  /** `s` if it is not empty, otherwise `current`: an empty request field means "leave unchanged". */
  function NonEmptyOr(s: string, current: string): (r: string)
    ensures r == s || r == current
    ensures r == "" <==> s == "" && current == ""
  {
    if s != "" then s else current
  }

  /**
   * `UpdateTerm`: NOT_FOUND if absent; ALREADY_EXISTS, before anything
   * changes, if a non-empty new keyword belongs to another term. Otherwise
   * every non-empty field replaces the stored one and the rest stay.
   */
  method UpdateTerm(db: Database, request: UpdateTermRequest) returns (r: Reply<UpdateTermResponse>)
    requires db.Valid()
    modifies db
    ensures db.Valid()
    ensures old(FindKeyword(db.terms, request.keyword)).None? ==>
      && r == Reply(UpdateTermResponse(None), Status(NOT_FOUND, "Term '" + request.keyword + "' not found"))
      && unchanged(db)
    ensures old(FindKeyword(db.terms, request.keyword)).Some? ==>
      var i := old(FindKeyword(db.terms, request.keyword)).value;
      var t := old(db.terms)[i];
      if request.newKeyword != "" && old(KeywordTakenByOther(db.terms, request.newKeyword, t.id)) then
        && r == Reply(UpdateTermResponse(None),
                      Status(ALREADY_EXISTS, "Keyword '" + request.newKeyword + "' already in use"))
        && unchanged(db)
      else
        var u := Term(t.id, NonEmptyOr(request.newKeyword, t.keyword), NonEmptyOr(request.description, t.description),
                      if request.source != "" then Some(request.source) else t.source);
        && r == Reply(UpdateTermResponse(Some(ToMessage(u))), STATUS_OK)
        && db.terms == old(db.terms)[i := u]
        && db.relations == old(db.relations)
        && db.nextTermId == old(db.nextTermId) && db.nextRelationId == old(db.nextRelationId)
  {
    var found := FindKeyword(db.terms, request.keyword);
    if found.None? {
      return Reply(UpdateTermResponse(None), Status(NOT_FOUND, "Term '" + request.keyword + "' not found"));
    }
    var i := found.value;
    var term := db.terms[i];
    if request.newKeyword != "" {
      if KeywordTakenByOther(db.terms, request.newKeyword, term.id) {
        return Reply(UpdateTermResponse(None),
                     Status(ALREADY_EXISTS, "Keyword '" + request.newKeyword + "' already in use"));
      }
      term := term.(keyword := request.newKeyword);
    }
    if request.description != "" {
      term := term.(description := request.description);
    }
    if request.source != "" {
      term := term.(source := Some(request.source));
    }
    assert !KeywordTakenByOther(db.terms, term.keyword, term.id) by {
      if request.newKeyword == "" {
        forall j | 0 <= j < |db.terms| && db.terms[j].keyword == term.keyword
          ensures db.terms[j].id == term.id
        {
          assert j == i;
        }
      }
    }
    db.PutTerm(i, term);
    r := Reply(UpdateTermResponse(Some(ToMessage(term))), STATUS_OK);
  }

  /**
   * `DeleteTerm`: success=false with NOT_FOUND if absent; otherwise that
   * term's row alone is removed and success=true.
   */
  method DeleteTerm(db: Database, request: DeleteTermRequest) returns (r: Reply<DeleteTermResponse>)
    requires db.Valid()
    modifies db
    ensures db.Valid()
    ensures r.response.success <==> r.status.code == OK
    ensures old(FindKeyword(db.terms, request.keyword)).None? ==>
      && r == Reply(DeleteTermResponse(false, "Term not found"),
                    Status(NOT_FOUND, "Term '" + request.keyword + "' not found"))
      && unchanged(db)
    ensures old(FindKeyword(db.terms, request.keyword)).Some? ==>
      var i := old(FindKeyword(db.terms, request.keyword)).value;
      && r == Reply(DeleteTermResponse(true, "Term '" + request.keyword + "' deleted successfully"), STATUS_OK)
      && db.terms == old(db.terms)[..i] + old(db.terms)[i + 1..]
      && db.relations == old(db.relations)
      && db.nextTermId == old(db.nextTermId) && db.nextRelationId == old(db.nextRelationId)
  {
    var found := FindKeyword(db.terms, request.keyword);
    if found.None? {
      return Reply(DeleteTermResponse(false, "Term not found"),
                   Status(NOT_FOUND, "Term '" + request.keyword + "' not found"));
    }
    db.DeleteTermAt(found.value);
    r := Reply(DeleteTermResponse(true, "Term '" + request.keyword + "' deleted successfully"), STATUS_OK);
  }
}
