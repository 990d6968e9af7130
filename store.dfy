/**
 * The glossary's two tables and the session operations the handlers use on
 * them. Rows keep insertion order; ids come from per-table counters that
 * only grow, so store order is also ascending id order.
 */
module Store {
  import opened Wrappers
  import opened Models

  // ---------------------------------------------------------------------
  // Queries (SELECT ... WHERE ... .first())
  // ---------------------------------------------------------------------

  /** Position of the first term whose keyword is exactly `keyword`. */
  function FindKeyword(terms: seq<Term>, keyword: string): (r: Option<nat>)
    ensures r.Some? ==> r.value < |terms| && terms[r.value].keyword == keyword
    ensures r.Some? ==> forall j :: 0 <= j < r.value ==> terms[j].keyword != keyword
    ensures r.None? <==> forall j :: 0 <= j < |terms| ==> terms[j].keyword != keyword
  {
    if |terms| == 0 then None
    else if terms[0].keyword == keyword then Some(0)
    else match FindKeyword(terms[1..], keyword)
      case None => None
      case Some(k) => Some(k + 1)
  }

  /** Position of the term whose primary key is `id` (a lazy load by key). */
  function FindTermId(terms: seq<Term>, id: int): (r: Option<nat>)
    ensures r.Some? ==> r.value < |terms| && terms[r.value].id == id
    ensures r.None? <==> forall j :: 0 <= j < |terms| ==> terms[j].id != id
  {
    if |terms| == 0 then None
    else if terms[0].id == id then Some(0)
    else match FindTermId(terms[1..], id)
      case None => None
      case Some(k) => Some(k + 1)
  }

  /** Position of the relation whose primary key is `id`. */
  function FindRelationId(relations: seq<TermRelation>, id: int): (r: Option<nat>)
    ensures r.Some? ==> r.value < |relations| && relations[r.value].id == id
    ensures r.None? <==> forall j :: 0 <= j < |relations| ==> relations[j].id != id
  {
    if |relations| == 0 then None
    else if relations[0].id == id then Some(0)
    else match FindRelationId(relations[1..], id)
      case None => None
      case Some(k) => Some(k + 1)
  }

  /**
   * Some term other than the one with key `id` has keyword `keyword`. With
   * unique keywords this is the same as the keyword lookup finding a row
   * with another id.
   */
  function KeywordTakenByOther(terms: seq<Term>, keyword: string, id: nat): (r: bool)
    ensures KeywordsUnique(terms) ==>
      (r <==> FindKeyword(terms, keyword).Some? && terms[FindKeyword(terms, keyword).value].id != id)
  {
    exists j :: 0 <= j < |terms| && terms[j].keyword == keyword && terms[j].id != id
  }

  /** Some relation already joins `sourceId` to `targetId` with this type. */
  predicate TripleExists(relations: seq<TermRelation>, sourceId: nat, targetId: nat, relationType: string) {
    exists j :: 0 <= j < |relations| && SameTriple(relations[j], sourceId, targetId, relationType)
  }

  predicate SameTriple(r: TermRelation, sourceId: nat, targetId: nat, relationType: string) {
    r.sourceId == sourceId && r.targetId == targetId && r.relationType == relationType
  }

  // ---------------------------------------------------------------------
  // Table invariants
  // ---------------------------------------------------------------------

  ghost predicate TermIdsAscending(terms: seq<Term>) {
    forall i, j :: 0 <= i < j < |terms| ==> terms[i].id < terms[j].id
  }

  ghost predicate KeywordsUnique(terms: seq<Term>) {
    forall i, j :: 0 <= i < j < |terms| ==> terms[i].keyword != terms[j].keyword
  }

  /** No stored source is the empty string: it is either absent or has text. */
  ghost predicate SourcesAbsentOrNonEmpty(terms: seq<Term>) {
    forall i :: 0 <= i < |terms| ==> terms[i].source != Some("")
  }

  ghost predicate TermTableValid(terms: seq<Term>, nextId: nat) {
    && TermIdsAscending(terms)
    && (forall i :: 0 <= i < |terms| ==> 0 < terms[i].id < nextId)
    && KeywordsUnique(terms)
    && SourcesAbsentOrNonEmpty(terms)
  }

  ghost predicate RelationIdsAscending(relations: seq<TermRelation>) {
    forall i, j :: 0 <= i < j < |relations| ==> relations[i].id < relations[j].id
  }

  ghost predicate NoSelfRelation(relations: seq<TermRelation>) {
    forall i :: 0 <= i < |relations| ==> relations[i].sourceId != relations[i].targetId
  }

  ghost predicate TriplesUnique(relations: seq<TermRelation>) {
    forall i, j :: 0 <= i < j < |relations| ==>
      !SameTriple(relations[j], relations[i].sourceId, relations[i].targetId, relations[i].relationType)
  }

  ghost predicate RelationTableValid(relations: seq<TermRelation>, nextId: nat) {
    && RelationIdsAscending(relations)
    && (forall i :: 0 <= i < |relations| ==> 0 < relations[i].id < nextId)
    && NoSelfRelation(relations)
    && TriplesUnique(relations)
  }

  /** Every relation's endpoints are stored terms. Not an invariant: deleting a term does not cascade. */
  ghost predicate EndpointsExist(terms: seq<Term>, relations: seq<TermRelation>) {
    forall i :: 0 <= i < |relations| ==>
      FindTermId(terms, relations[i].sourceId).Some? && FindTermId(terms, relations[i].targetId).Some?
  }

  // ---------------------------------------------------------------------
  // Invariant preservation, one lemma per kind of write
  // ---------------------------------------------------------------------

  lemma AppendTermKeepsValid(terms: seq<Term>, nextId: nat, t: Term)
    requires TermTableValid(terms, nextId)
    requires t.id == nextId && nextId > 0
    requires FindKeyword(terms, t.keyword).None?
    requires t.source != Some("")
    ensures TermTableValid(terms + [t], nextId + 1)
  {
    var r := terms + [t];
    forall i, j | 0 <= i < j < |r| ensures r[i].keyword != r[j].keyword {
      if j == |terms| {
        assert r[i] == terms[i];
      } else {
        assert r[i] == terms[i] && r[j] == terms[j];
      }
    }
  }

  lemma ReplaceTermKeepsValid(terms: seq<Term>, nextId: nat, i: nat, t: Term)
    requires TermTableValid(terms, nextId)
    requires i < |terms| && t.id == terms[i].id
    requires !KeywordTakenByOther(terms, t.keyword, t.id)
    requires t.source != Some("")
    ensures TermTableValid(terms[i := t], nextId)
  {
    var r := terms[i := t];
    forall a, b | 0 <= a < b < |r| ensures r[a].keyword != r[b].keyword {
      if a == i {
        assert terms[b].id != t.id;
      } else if b == i {
        assert terms[a].id != t.id;
      }
    }
  }

  /** Removing a row keeps the table invariant, whatever row it is. */
  lemma RemoveTermKeepsValid(terms: seq<Term>, nextId: nat, i: nat)
    requires TermTableValid(terms, nextId) && i < |terms|
    ensures TermTableValid(terms[..i] + terms[i + 1..], nextId)
  {
    var r := terms[..i] + terms[i + 1..];
    assert forall k :: 0 <= k < |r| ==> r[k] == terms[if k < i then k else k + 1];
  }

  lemma AppendRelationKeepsValid(relations: seq<TermRelation>, nextId: nat, rel: TermRelation)
    requires RelationTableValid(relations, nextId)
    requires rel.id == nextId && nextId > 0
    requires rel.sourceId != rel.targetId
    requires !TripleExists(relations, rel.sourceId, rel.targetId, rel.relationType)
    ensures RelationTableValid(relations + [rel], nextId + 1)
  {
    var r := relations + [rel];
    forall i, j | 0 <= i < j < |r|
      ensures !SameTriple(r[j], r[i].sourceId, r[i].targetId, r[i].relationType)
    {
      if j == |relations| {
        assert r[i] == relations[i];
        if SameTriple(rel, relations[i].sourceId, relations[i].targetId, relations[i].relationType) {
          assert SameTriple(relations[i], rel.sourceId, rel.targetId, rel.relationType);
        }
      } else {
        assert r[i] == relations[i] && r[j] == relations[j];
      }
    }
  }

  lemma RemoveRelationKeepsValid(relations: seq<TermRelation>, nextId: nat, i: nat)
    requires RelationTableValid(relations, nextId) && i < |relations|
    ensures RelationTableValid(relations[..i] + relations[i + 1..], nextId)
  {
    var r := relations[..i] + relations[i + 1..];
    assert forall k :: 0 <= k < |r| ==> r[k] == relations[if k < i then k else k + 1];
  }

  /** Ascending ids make the id a key: two rows with the same id are the same row. */
  lemma TermIdsUnique(terms: seq<Term>, nextId: nat, i: nat, j: nat)
    requires TermTableValid(terms, nextId)
    requires i < |terms| && j < |terms| && terms[i].id == terms[j].id
    ensures i == j
  {
  }

  lemma RelationIdsUnique(relations: seq<TermRelation>, nextId: nat, i: nat, j: nat)
    requires RelationTableValid(relations, nextId)
    requires i < |relations| && j < |relations| && relations[i].id == relations[j].id
    ensures i == j
  {
  }

  /**
   * With unique keywords, a keyword lookup that finds a row finds the only
   * row carrying that keyword.
   */
  lemma FindKeywordUnique(terms: seq<Term>, nextId: nat, keyword: string, j: nat)
    requires TermTableValid(terms, nextId)
    requires j < |terms| && terms[j].keyword == keyword
    ensures FindKeyword(terms, keyword) == Some(j)
  {
  }

  // ---------------------------------------------------------------------
  // The store
  // ---------------------------------------------------------------------

  /**
   * The database: the term table, the relation table and the next id each
   * table will assign. Valid() is the invariant every handler keeps.
   */
  class Database {
    var terms: seq<Term>
    var relations: seq<TermRelation>
    var nextTermId: nat
    var nextRelationId: nat

    ghost predicate Valid()
      reads this
    {
      && nextTermId > 0 && nextRelationId > 0
      && TermTableValid(terms, nextTermId)
      && RelationTableValid(relations, nextRelationId)
    }

    /** An empty store: both tables empty, ids start at 1. */
    constructor ()
      ensures Valid()
      ensures terms == [] && relations == [] && nextTermId == 1 && nextRelationId == 1
    {
      terms, relations := [], [];
      nextTermId, nextRelationId := 1, 1;
    }

    /** Insert and commit a new term; the store assigns its id. */
    method AddTerm(keyword: string, description: string, source: Option<string>) returns (t: Term)
      requires Valid()
      requires FindKeyword(terms, keyword).None?
      requires source != Some("")
      modifies this
      ensures Valid()
      ensures t == Term(old(nextTermId), keyword, description, source)
      ensures terms == old(terms) + [t] && nextTermId == old(nextTermId) + 1
      ensures relations == old(relations) && nextRelationId == old(nextRelationId)
    {
      t := Term(nextTermId, keyword, description, source);
      AppendTermKeepsValid(terms, nextTermId, t);
      terms := terms + [t];
      nextTermId := nextTermId + 1;
    }

    /** Write back a term whose fields were changed in place; its id stays. */
    method PutTerm(i: nat, t: Term)
      requires Valid()
      requires i < |terms| && t.id == terms[i].id
      requires !KeywordTakenByOther(terms, t.keyword, t.id)
      requires t.source != Some("")
      modifies this
      ensures Valid()
      ensures terms == old(terms)[i := t]
      ensures relations == old(relations) && nextTermId == old(nextTermId)
      ensures nextRelationId == old(nextRelationId)
    {
      ReplaceTermKeepsValid(terms, nextTermId, i, t);
      terms := terms[i := t];
    }

    /** Delete and commit the term row at position `i`, and nothing else. */
    method DeleteTermAt(i: nat)
      requires Valid() && i < |terms|
      modifies this
      ensures Valid()
      ensures terms == old(terms)[..i] + old(terms)[i + 1..]
      ensures relations == old(relations) && nextTermId == old(nextTermId)
      ensures nextRelationId == old(nextRelationId)
    {
      RemoveTermKeepsValid(terms, nextTermId, i);
      terms := terms[..i] + terms[i + 1..];
    }

    /** Insert and commit a new relation; the store assigns its id. */
    method AddRelation(sourceId: nat, targetId: nat, relationType: string, description: Option<string>)
      returns (rel: TermRelation)
      requires Valid()
      requires sourceId != targetId
      requires !TripleExists(relations, sourceId, targetId, relationType)
      modifies this
      ensures Valid()
      ensures rel == TermRelation(old(nextRelationId), sourceId, targetId, relationType, description)
      ensures relations == old(relations) + [rel] && nextRelationId == old(nextRelationId) + 1
      ensures terms == old(terms) && nextTermId == old(nextTermId)
    {
      rel := TermRelation(nextRelationId, sourceId, targetId, relationType, description);
      AppendRelationKeepsValid(relations, nextRelationId, rel);
      relations := relations + [rel];
      nextRelationId := nextRelationId + 1;
    }

    /** Delete and commit the relation row at position `i`, and nothing else. */
    method DeleteRelationAt(i: nat)
      requires Valid() && i < |relations|
      modifies this
      ensures Valid()
      ensures relations == old(relations)[..i] + old(relations)[i + 1..]
      ensures terms == old(terms) && nextTermId == old(nextTermId)
      ensures nextRelationId == old(nextRelationId)
    {
      RemoveRelationKeepsValid(relations, nextRelationId, i);
      relations := relations[..i] + relations[i + 1..];
    }
  }
}
