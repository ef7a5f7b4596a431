/** A classified vocabulary category: the IRI index of one kind of entity
    (ClassifiedOntologyVocabularyCategoryImpl in TBoxReasonerImpl.java,
    lines 54-85). The equivalences DAG it also carries is modelled in
    Representatives. */
module VocabularyCategory {
  import opened Wrappers

  const NOT_FOUND := "NOT FOUND: "

  datatype Category<V(==, !new)> = Category(iriIndex: map<string, V>)
  {
    /** `all()`: the indexed values. */
    function All(): (r: set<V>)
      ensures forall v :: v in r <==> exists iri :: iri in iriIndex && iriIndex[iri] == v
    {
      iriIndex.Values
    }

    predicate Contains(iri: string) {
      iri in iriIndex
    }

    /** `get(iri)`: the indexed value, or a RuntimeException "NOT FOUND: "
        followed by the IRI. */
    function Get(iri: string): (r: Result<V>)
      ensures r.Ok? <==> Contains(iri)
      ensures r.Ok? ==> r.value == iriIndex[iri] && r.value in All()
      ensures r.Err? ==> r.message == NOT_FOUND + iri
    {
      if iri in iriIndex then Ok(iriIndex[iri]) else Err(NOT_FOUND + iri)
    }
  }

  /** Every value of the category is found under some IRI. */
  lemma AllValuesFound<V(!new)>(c: Category<V>, v: V)
    requires v in c.All()
    ensures exists iri :: c.Get(iri) == Ok(v)
  {
    var iri :| iri in c.iriIndex && c.iriIndex[iri] == v;
    assert c.Get(iri) == Ok(v);
  }
}
