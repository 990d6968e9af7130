/** The REST term endpoints under `/terms`. */
module TermsRouter {
  import opened Wrappers
  import opened Schemas
  import opened Models
  import opened Collation
  import opened Store
  import opened Http

  /** `GET /terms/`: every term, ascending by keyword. */
  function ListTerms(terms: seq<Term>): (r: seq<Term>)
    ensures SortedByKeyword(r)
    ensures multiset(r) == multiset(terms)
  {
    SortByKeywordCorrect(terms);
    SortByKeyword(terms)
  }

  lemma {:induction false} InsertKeepsKeywordsUnique(t: Term, s: seq<Term>)
    requires KeywordsUnique(s)
    requires forall j :: 0 <= j < |s| ==> s[j].keyword != t.keyword
    ensures KeywordsUnique(InsertByKeyword(t, s))
  {
    if s != [] && !KeyLeq(t.keyword, s[0].keyword) {
      var rest := InsertByKeyword(t, s[1..]);
      InsertKeepsKeywordsUnique(t, s[1..]);
      InsertByKeywordMultiset(t, s[1..]);
      forall j | 0 <= j < |rest| ensures rest[j].keyword != s[0].keyword {
        assert rest[j] in multiset(rest);
        if rest[j] != t {
          assert rest[j] in multiset(s[1..]);
          var k :| 0 <= k < |s[1..]| && s[1..][k] == rest[j];
          assert s[k + 1] == rest[j];
        }
      }
      var r := [s[0]] + rest;
      forall a, b | 0 <= a < b < |r| ensures r[a].keyword != r[b].keyword {
        assert r[b] == rest[b - 1];
        if a > 0 {
          assert r[a] == rest[a - 1];
        }
      }
    }
  }

  lemma {:induction false} SortKeepsKeywordsUnique(s: seq<Term>)
    requires KeywordsUnique(s)
    ensures KeywordsUnique(SortByKeyword(s))
  {
    if s != [] {
      var rest := SortByKeyword(s[1..]);
      SortKeepsKeywordsUnique(s[1..]);
      SortByKeywordCorrect(s[1..]);
      forall j | 0 <= j < |rest| ensures rest[j].keyword != s[0].keyword {
        assert rest[j] in multiset(s[1..]);
        var k :| 0 <= k < |s[1..]| && s[1..][k] == rest[j];
        assert s[k + 1] == rest[j];
      }
      InsertKeepsKeywordsUnique(s[0], rest);
    }
  }

  /** Since stored keywords are unique, the list is strictly ascending: no keyword appears twice. */
  lemma ListTermsStrictlyAscending(terms: seq<Term>, nextId: nat)
    requires TermTableValid(terms, nextId)
    ensures StrictlyAscending(ListTerms(terms))
  {
    SortKeepsKeywordsUnique(terms);
    SortedDistinctIsStrict(ListTerms(terms));
  }

  /** `GET /terms/{keyword}`: the term with exactly this keyword, else 404. */
  function GetTerm(terms: seq<Term>, keyword: string): (r: Result<Term, HttpError>)
    ensures r.Ok? ==> r.value in terms && r.value.keyword == keyword
    ensures r.Err? <==> forall t :: t in terms ==> t.keyword != keyword
    ensures r.Err? ==> r.error == NotFound("Term not found")
  {
    match FindKeyword(terms, keyword)
    case None => Err(NotFound("Term not found"))
    case Some(i) => Ok(terms[i])
  }

  /**
   * `POST /terms/`: 409 if the keyword is taken (nothing changes); otherwise
   * one new term with the given keyword and description. The request's
   * `source` is not stored on this path.
   */
  method CreateTerm(db: Database, data: TermCreate) returns (r: Result<Term, HttpError>)
    requires db.Valid() && ValidTermCreate(data)
    modifies db
    ensures db.Valid()
    ensures old(FindKeyword(db.terms, data.keyword)).Some? ==>
      r == Err(Conflict("Term already exists")) && unchanged(db)
    ensures old(FindKeyword(db.terms, data.keyword)).None? ==>
      && r == Ok(Term(old(db.nextTermId), data.keyword, data.description, None))
      && db.terms == old(db.terms) + [r.value]
      && db.nextTermId == old(db.nextTermId) + 1
      && db.relations == old(db.relations) && db.nextRelationId == old(db.nextRelationId)
    ensures old(AllTermsWithinBounds(db.terms)) ==> AllTermsWithinBounds(db.terms)
  {
    var existing := FindKeyword(db.terms, data.keyword);
    if existing.Some? {
      return Err(Conflict("Term already exists"));
    }
    var term := db.AddTerm(data.keyword, data.description, None);
    r := Ok(term);
  }

  /**
   * `PUT /terms/{keyword}`: 404 if absent; 409 if the new keyword belongs
   * to a different term (nothing changes). Otherwise only the supplied
   * fields change; the id and the source stay, and no other term changes.
   */
  method UpdateTerm(db: Database, keyword: string, data: TermUpdate) returns (r: Result<Term, HttpError>)
    requires db.Valid() && ValidTermUpdate(data)
    modifies db
    ensures db.Valid()
    ensures old(FindKeyword(db.terms, keyword)).None? ==>
      r == Err(NotFound("Term not found")) && unchanged(db)
    ensures old(FindKeyword(db.terms, keyword)).Some? ==>
      var i := old(FindKeyword(db.terms, keyword)).value;
      var t := old(db.terms)[i];
      if data.keyword.Some? && old(KeywordTakenByOther(db.terms, data.keyword.value, t.id)) then
        r == Err(Conflict("Keyword already in use")) && unchanged(db)
      else
        && r == Ok(Term(t.id, data.keyword.GetOr(t.keyword), data.description.GetOr(t.description), t.source))
        && db.terms == old(db.terms)[i := r.value]
        && db.relations == old(db.relations)
        && db.nextTermId == old(db.nextTermId) && db.nextRelationId == old(db.nextRelationId)
    ensures old(AllTermsWithinBounds(db.terms)) ==> AllTermsWithinBounds(db.terms)
  {
    var found := FindKeyword(db.terms, keyword);
    if found.None? {
      return Err(NotFound("Term not found"));
    }
    var i := found.value;
    var term := db.terms[i];
    if data.keyword.Some? {
      if KeywordTakenByOther(db.terms, data.keyword.value, term.id) {
        return Err(Conflict("Keyword already in use"));
      }
      term := term.(keyword := data.keyword.value);
    }
    if data.description.Some? {
      term := term.(description := data.description.value);
    }
    assert !KeywordTakenByOther(db.terms, term.keyword, term.id) by {
      if data.keyword.None? {
        forall j | 0 <= j < |db.terms| && db.terms[j].keyword == term.keyword
          ensures db.terms[j].id == term.id
        {
          assert j == i;
        }
      }
    }
    db.PutTerm(i, term);
    r := Ok(term);
  }

  /** `DELETE /terms/{keyword}`: 404 if absent; otherwise that term's row alone is removed. */
  method DeleteTerm(db: Database, keyword: string) returns (r: Result<(), HttpError>)
    requires db.Valid()
    modifies db
    ensures db.Valid()
    ensures old(FindKeyword(db.terms, keyword)).None? ==>
      r == Err(NotFound("Term not found")) && unchanged(db)
    ensures old(FindKeyword(db.terms, keyword)).Some? ==>
      var i := old(FindKeyword(db.terms, keyword)).value;
      && r == Ok(())
      && db.terms == old(db.terms)[..i] + old(db.terms)[i + 1..]
      && (forall t :: t in db.terms <==> t in old(db.terms) && t.keyword != keyword)
      && db.relations == old(db.relations)
      && db.nextTermId == old(db.nextTermId) && db.nextRelationId == old(db.nextRelationId)
  {
    var found := FindKeyword(db.terms, keyword);
    if found.None? {
      return Err(NotFound("Term not found"));
    }
    RemovedKeywordIsGone(db.terms, db.nextTermId, found.value);
    db.DeleteTermAt(found.value);
    r := Ok(());
  }

  /** Removing row `i` of a valid table removes exactly the rows carrying its keyword. */
  lemma RemovedKeywordIsGone(terms: seq<Term>, nextId: nat, i: nat)
    requires TermTableValid(terms, nextId) && i < |terms|
    ensures forall t :: t in terms[..i] + terms[i + 1..] <==> t in terms && t.keyword != terms[i].keyword
  {
    var r := terms[..i] + terms[i + 1..];
    forall t ensures t in r <==> t in terms && t.keyword != terms[i].keyword {
      if t in r {
        var k :| 0 <= k < |r| && r[k] == t;
        assert r[k] == terms[if k < i then k else k + 1];
      }
      if t in terms && t.keyword != terms[i].keyword {
        var k :| 0 <= k < |terms| && terms[k] == t;
        assert k != i;
        assert t == r[if k < i then k else k - 1];
      }
    }
  }

  /** create then get: a term added under a fresh keyword is found, field for field. */
  lemma GetAfterCreate(terms: seq<Term>, t: Term)
    requires FindKeyword(terms, t.keyword).None?
    ensures GetTerm(terms + [t], t.keyword) == Ok(t)
  {
    assert (terms + [t])[|terms|] == t;
  }

  /** delete then get: once its row is gone the keyword is not found. */
  lemma GetAfterDelete(terms: seq<Term>, nextId: nat, i: nat)
    requires TermTableValid(terms, nextId) && i < |terms|
    ensures GetTerm(terms[..i] + terms[i + 1..], terms[i].keyword).Err?
  {
    RemovedKeywordIsGone(terms, nextId, i);
  }

  /**
   * update then get: after a row is rewritten under keyword `t.keyword`,
   * that keyword finds the new row and the previous keyword, if it
   * differs, finds nothing.
   */
  lemma GetAfterUpdate(terms: seq<Term>, nextId: nat, i: nat, t: Term)
    requires TermTableValid(terms, nextId) && i < |terms| && t.id == terms[i].id
    requires !KeywordTakenByOther(terms, t.keyword, t.id)
    ensures GetTerm(terms[i := t], t.keyword) == Ok(t)
    ensures t.keyword != terms[i].keyword ==> GetTerm(terms[i := t], terms[i].keyword).Err?
  {
    var r := terms[i := t];
    forall j | 0 <= j < |r| && j != i ensures r[j].keyword != t.keyword {
      assert terms[j].id != terms[i].id;
    }
    assert r[i] == t;
    assert FindKeyword(r, t.keyword) == Some(i);
    if t.keyword != terms[i].keyword {
      forall j | 0 <= j < |r| ensures r[j].keyword != terms[i].keyword {
      }
    }
  }
}
