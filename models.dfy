/** The two stored records: a glossary term and a typed relation between two terms. */
module Models {
  import opened Wrappers
  import opened Schemas

  /**
   * A row of the term table. `id` is assigned by the store and is the
   * primary key; `keyword` carries a UNIQUE index.
   */
  datatype Term = Term(id: nat, keyword: string, description: string, source: Option<string>)

  /** The length bounds declared on the term record. */
  predicate TermWithinBounds(t: Term) {
    && ValidKeyword(t.keyword)
    && ValidDescription(t.description)
    && ValidOptional(t.source, SOURCE_MAX_LENGTH)
  }

  predicate AllTermsWithinBounds(terms: seq<Term>) {
    forall i :: 0 <= i < |terms| ==> TermWithinBounds(terms[i])
  }

  /** A row of the relation table: a directed, typed edge between two term ids. */
  datatype TermRelation = TermRelation(id: nat, sourceId: nat, targetId: nat, relationType: string,
                                       description: Option<string>)

  predicate RelationWithinBounds(r: TermRelation) {
    && |r.relationType| <= RELATION_TYPE_MAX_LENGTH
    && ValidOptional(r.description, RELATION_DESCRIPTION_MAX_LENGTH)
  }

  predicate AllRelationsWithinBounds(relations: seq<TermRelation>) {
    forall i :: 0 <= i < |relations| ==> RelationWithinBounds(relations[i])
  }

  /**
   * A term built from a valid create request is within the record's bounds
   * whatever source it is given, as long as that source is within bounds.
   */
  lemma CreatedTermWithinBounds(id: nat, d: TermCreate, source: Option<string>)
    requires ValidTermCreate(d) && ValidOptional(source, SOURCE_MAX_LENGTH)
    ensures TermWithinBounds(Term(id, d.keyword, d.description, source))
  {
  }
}
