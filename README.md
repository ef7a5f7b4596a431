# Ontop core, modelled in Dafny

This project models the sequential core of Ontop, an ontology-based data
access system. The model covers eight Java files.

- **The TBox reasoner's classification bookkeeping** (`TBoxReasonerImpl`):
  - building the inclusion graphs for object properties (closed under inverse),
    data properties, classes and data ranges from ontology axioms;
  - the name-based comparators;
  - the four passes that choose one representative per equivalence set and
    mark sets as indexed;
  - the IRI index of a classified vocabulary category.
- **The temporal target-query renderer** (`TemporalTargetQueryRenderer`). It
  turns a body of atoms into Turtle triples. It handles brace escaping, nested
  CONCAT flattening, URI-template filling, datatype and language literals,
  ordinary function calls, and the per-atom choice of subject, predicate and
  object.
- **`SesameStatement`**: an ABox assertion as an RDF statement. This covers
  the constructor's dispatch, resources, literal typing, `equals`, and
  `hashCode` with Java `int` wrap-around.
- **`DefaultSimpleGraphResultSet`**: the FIFO buffer of assertions behind
  CONSTRUCT/DESCRIBE results. Rows are turned into triples through the
  construct template and classified into class, object-property and
  data-property assertions.
- **The query model's contract-bearing types**:
  - `EvaluationResultImpl`: the status/expression invariant;
  - `TemporaryDBTypeConversionToStringFunctionSymbolImpl`: its constant
    answers;
  - `UnionNode`: the child-projection invariant and
    `hasAChildWithLiftableDefinition`;
  - `IntermediateQuery`: a tree of query nodes with navigation, ancestor and
    subtree traversals, fresh variables, and the outcomes of `applyProposal`.

## Module layout

| file | module | models |
|---|---|---|
| wrappers.dfy | `Wrappers` | `Option`, and `Result` for the Java exceptions |
| java_strings.dfy | `JavaStrings` | `String.compareTo` |
| java_int.dfy | `JavaInt` | 32-bit `int` arithmetic |
| ordering.dfy | `Ordering` | the comparator contract and `Collections.min` |
| ontology.dfy | `Ontology` | properties, classes, data ranges, axioms, comparators |
| inclusion_graphs.dfy | `InclusionGraphs` | the four `get*Graph` builders |
| representatives.dfy | `Representatives` | the equivalence sets and the `choose*Representatives` passes |
| vocabulary.dfy | `VocabularyCategory` | `ClassifiedOntologyVocabularyCategoryImpl` |
| target_query_renderer.dfy | `TargetQueryRenderer` | `TemporalTargetQueryRenderer` |
| abox.dfy | `ABox` | ABox constants and assertions |
| sesame_statement.dfy | `SesameStatement` | `SesameStatement` |
| graph_result_set.dfy | `GraphResultSet` | `DefaultSimpleGraphResultSet` |
| query_nodes.dfy | `QueryNodes` | query nodes, terms and trees |
| union_node.dfy | `Union` | `UnionNode` |
| intermediate_query.dfy | `IntermediateQueries` | `IntermediateQuery` |
| evaluation_result.dfy | `EvaluationResult` | `EvaluationResultImpl` |
| tmp_conversion_symbol.dfy | `TemporaryConversion` | `TemporaryDBTypeConversionToStringFunctionSymbolImpl` |

### Modelling choices

- **Java exceptions.** A Java exception becomes an `Err` (or `None`) result
  carrying the exception's message where the source gives one.
- **Strings.** A Dafny `char` is a Unicode scalar value, whereas a Java string is a sequence of UTF-16 code units. `compareTo`, which every comparator uses, therefore compares the UTF-16 encodings (`JavaStrings.Utf16`, with surrogate pairs above U+FFFF).
- **The reasoner.**
  - The mutable jgrapht graphs are a `Graph` class whose vertex and edge sets
    only grow. The equivalence sets are a given sequence of disjoint sets:
    the strongly connected component computation is not part of this model.
  - The `choose*Representatives` passes work in place on an `EquivalencesDAG`
    class holding one representative and one indexed flag per set.
  - The iteration order of a Java set enters as a function `first` that names
    the member a set's iterator yields first.
- **The renderer.**
  - `PrefixManager.getShortForm` is a function parameter `sf`.
  - A rendering that would throw becomes `None`.
  - `encode` returns the triples it hands to the Turtle writer, in order.
- **`SesameStatement`.** The datatype factory's `getDataTypeURI` is a parameter
  `datatypeUri`. Each RDF value's own `hashCode` is a parameter `hash`.
- **`DefaultSimpleGraphResultSet`.**
  - The tuple result set is a finite sequence of rows.
  - The ABox assertion builder is a function returning `Created`, `Ignored`
    (null) or `Inconsistent`.
  - The term factory's `getConstantLiteral` is a parameter too.
- **`IntermediateQuery`.**
  - Nodes are identifiers in a class holding the kind of each node, its
    children and its parent.
  - A ghost depth map gives the tree its termination measure.

## Model

| member | source | states |
|---|---|---|
| JavaStrings.CompareToZeroIff | mapping/core/src/main/java/it/unibz/inf/ontop/spec/ontology/impl/TBoxReasonerImpl.java:261 | `compareTo` of two names is 0 exactly when the names are equal |
| JavaStrings.CompareToAntisymmetric | mapping/core/src/main/java/it/unibz/inf/ontop/spec/ontology/impl/TBoxReasonerImpl.java:261 | swapping the arguments of `compareTo` negates the answer |
| JavaStrings.CompareToTransitive | mapping/core/src/main/java/it/unibz/inf/ontop/spec/ontology/impl/TBoxReasonerImpl.java:261 | `compareTo` orders strings transitively |
| JavaStrings.Utf16Injective | mapping/core/src/main/java/it/unibz/inf/ontop/spec/ontology/impl/TBoxReasonerImpl.java:261 | the UTF-16 units a Java string is made of determine the string, so comparing units compares strings |
| JavaStrings.SupplementaryAfterBmp | mapping/core/src/main/java/it/unibz/inf/ontop/spec/ontology/impl/TBoxReasonerImpl.java:261 | the comparison runs over UTF-16 units: U+FFFF comes after U+10000, whose first unit is the high surrogate 0xD800 |
| Ordering.MinimumIsUnique | mapping/core/src/main/java/it/unibz/inf/ontop/spec/ontology/impl/TBoxReasonerImpl.java:292 | under a comparator that answers 0 only on equal elements, a set has at most one minimum |
| Ordering.MinBy | mapping/core/src/main/java/it/unibz/inf/ontop/spec/ontology/impl/TBoxReasonerImpl.java:292 | `Collections.min` of a non-empty set returns a member no other member is below |
| Ordering.MinSelected | mapping/core/src/main/java/it/unibz/inf/ontop/spec/ontology/impl/TBoxReasonerImpl.java:361-366 | the loop over a set keeps the smallest selected member; none exactly when nothing is selected |
| Ontology.ObjectPropertyExpression.Inverse | mapping/core/src/main/java/it/unibz/inf/ontop/spec/ontology/impl/TBoxReasonerImpl.java:293 | the inverse keeps the name and flips the inverse flag |
| Ontology.ObjectPropertyCompareZeroIff | mapping/core/src/main/java/it/unibz/inf/ontop/spec/ontology/impl/TBoxReasonerImpl.java:267-281 | the object-property comparator answers 0 only when both the name and the inverse flag are equal |
| Ontology.ObjectPropertyOrder | mapping/core/src/main/java/it/unibz/inf/ontop/spec/ontology/impl/TBoxReasonerImpl.java:267-281 | different names compare as the names do; on equal names a property comes before its inverse |
| Ontology.ObjectPropertyComparatorContract | mapping/core/src/main/java/it/unibz/inf/ontop/spec/ontology/impl/TBoxReasonerImpl.java:267-281 | the object-property comparator is antisymmetric and transitive, and 0 means equal |
| Ontology.NameComparatorsContract | mapping/core/src/main/java/it/unibz/inf/ontop/spec/ontology/impl/TBoxReasonerImpl.java:258-346 | the data-property, class and datatype comparators are comparators, and 0 means equal |
| InclusionGraphs.Graph.constructor | mapping/core/src/main/java/it/unibz/inf/ontop/spec/ontology/impl/TBoxReasonerImpl.java:560 | a new graph has no vertices and no edges |
| InclusionGraphs.Graph.AddVertex | mapping/core/src/main/java/it/unibz/inf/ontop/spec/ontology/impl/TBoxReasonerImpl.java:564-565 | adding a vertex inserts it into the vertex set and leaves the edges alone |
| InclusionGraphs.Graph.AddEdge | mapping/core/src/main/java/it/unibz/inf/ontop/spec/ontology/impl/TBoxReasonerImpl.java:577-578 | adding an edge inserts it into the edge set and leaves the vertices alone |
| InclusionGraphs.GetObjectPropertyGraph | mapping/core/src/main/java/it/unibz/inf/ontop/spec/ontology/impl/TBoxReasonerImpl.java:558-582 | the loops build exactly the object-property vertices and edges of the ontology |
| InclusionGraphs.GetDataPropertyGraph | mapping/core/src/main/java/it/unibz/inf/ontop/spec/ontology/impl/TBoxReasonerImpl.java:594-606 | the loops build exactly the data-property vertices and the sub-property edges |
| InclusionGraphs.AddVertexImages | mapping/core/src/main/java/it/unibz/inf/ontop/spec/ontology/impl/TBoxReasonerImpl.java:633-634 | a loop over a set of properties adds exactly their images (domains, ranges) as vertices |
| InclusionGraphs.AddEdgeImages | mapping/core/src/main/java/it/unibz/inf/ontop/spec/ontology/impl/TBoxReasonerImpl.java:637-641 | a loop over the property edges adds exactly the image of each edge |
| InclusionGraphs.AddDomainRestrictions | mapping/core/src/main/java/it/unibz/inf/ontop/spec/ontology/impl/TBoxReasonerImpl.java:644-646 | every domain restriction of every data-property vertex becomes a vertex |
| InclusionGraphs.GetClassGraph | mapping/core/src/main/java/it/unibz/inf/ontop/spec/ontology/impl/TBoxReasonerImpl.java:622-661 | the class graph has exactly the class vertices and class edges |
| InclusionGraphs.GetDataRangeGraph | mapping/core/src/main/java/it/unibz/inf/ontop/spec/ontology/impl/TBoxReasonerImpl.java:663-687 | the data-range graph has exactly the ranges, the super ranges and their edges |
| InclusionGraphs.NamedRoleVerticesMembers | mapping/core/src/main/java/it/unibz/inf/ontop/spec/ontology/impl/TBoxReasonerImpl.java:562-567 | a property is a vertex from the declared list iff it or its inverse is declared and it is neither top nor bottom |
| InclusionGraphs.AuxiliaryRoleVerticesMembers | mapping/core/src/main/java/it/unibz/inf/ontop/spec/ontology/impl/TBoxReasonerImpl.java:569-572 | every auxiliary property is a vertex together with its inverse |
| InclusionGraphs.ObjectPropertyVerticesMembers | mapping/core/src/main/java/it/unibz/inf/ontop/spec/ontology/impl/TBoxReasonerImpl.java:562-572 | the vertices are exactly those properties and their inverses; the vertex set is closed under inverse |
| InclusionGraphs.RoleInclusionEdgesMembers | mapping/core/src/main/java/it/unibz/inf/ontop/spec/ontology/impl/TBoxReasonerImpl.java:575-579 | an edge is a sub-property axiom, directly or with both ends inverted |
| InclusionGraphs.ObjectPropertyEdgesInverseClosed | mapping/core/src/main/java/it/unibz/inf/ontop/spec/ontology/impl/TBoxReasonerImpl.java:575-579 | (R, S) is an edge iff (R⁻, S⁻) is |
| InclusionGraphs.ObjectPropertyEdgesWithinVertices | mapping/core/src/main/java/it/unibz/inf/ontop/spec/ontology/impl/TBoxReasonerImpl.java:562-579 | when axioms relate vertices, both ends of every edge are vertices |
| InclusionGraphs.AxiomEdgesMembers | mapping/core/src/main/java/it/unibz/inf/ontop/spec/ontology/impl/TBoxReasonerImpl.java:602-603 | an axiom edge is exactly an axiom |
| InclusionGraphs.DataPropertyVerticesMembers | mapping/core/src/main/java/it/unibz/inf/ontop/spec/ontology/impl/TBoxReasonerImpl.java:598-600 | a data property is a vertex iff it is declared and is neither top nor bottom |
| InclusionGraphs.NamedClassVerticesMembers | mapping/core/src/main/java/it/unibz/inf/ontop/spec/ontology/impl/TBoxReasonerImpl.java:628-630 | the named-class vertices are the declared classes other than owl:Thing and owl:Nothing |
| InclusionGraphs.ClassEdgesMembers | mapping/core/src/main/java/it/unibz/inf/ontop/spec/ontology/impl/TBoxReasonerImpl.java:637-658 | a class edge is exactly a domain edge of an object-property edge, an rdfs:Literal restriction edge of a data-property edge, or a sub-class axiom |
| InclusionGraphs.SuperRangesMembers | mapping/core/src/main/java/it/unibz/inf/ontop/spec/ontology/impl/TBoxReasonerImpl.java:681-682 | the added ranges are exactly the super sides of the sub-data-range axioms |
| InclusionGraphs.DataRangeEdgesMembers | mapping/core/src/main/java/it/unibz/inf/ontop/spec/ontology/impl/TBoxReasonerImpl.java:674-684 | a data-range edge is exactly a range edge of a data-property edge or a sub-data-range axiom |
| InclusionGraphs.DataRangeAxiomEdges | mapping/core/src/main/java/it/unibz/inf/ontop/spec/ontology/impl/TBoxReasonerImpl.java:681-684 | each sub-data-range axiom puts its super range among the vertices and itself among the edges |
| Representatives.VertexOf | mapping/core/src/main/java/it/unibz/inf/ontop/spec/ontology/impl/TBoxReasonerImpl.java:295 | `getVertex` finds the set holding an element, or none when no set holds it |
| Representatives.VertexOfMember | mapping/core/src/main/java/it/unibz/inf/ontop/spec/ontology/impl/TBoxReasonerImpl.java:295 | in a partition, the set found for a member is the set it is in |
| Representatives.EquivalencesDAG.constructor | mapping/core/src/main/java/it/unibz/inf/ontop/spec/ontology/impl/TBoxReasonerImpl.java:284-290 | the equivalence sets start with no representative and unindexed |
| Representatives.EquivalencesDAG.SetRepresentative | mapping/core/src/main/java/it/unibz/inf/ontop/spec/ontology/impl/TBoxReasonerImpl.java:306 | `setRepresentative` changes that one set's representative and nothing else |
| Representatives.EquivalencesDAG.SetIndexed | mapping/core/src/main/java/it/unibz/inf/ontop/spec/ontology/impl/TBoxReasonerImpl.java:301-304 | `setIndexed` marks that one set and changes nothing else |
| Representatives.ObjectPropertyMinimumUnique | mapping/core/src/main/java/it/unibz/inf/ontop/spec/ontology/impl/TBoxReasonerImpl.java:292 | a set of object properties has one minimum under the object-property comparator |
| Representatives.MirrorMinimum | mapping/core/src/main/java/it/unibz/inf/ontop/spec/ontology/impl/TBoxReasonerImpl.java:297-299 | the inverse of a set's minimum is the minimum of the inverse set |
| Representatives.SymmetricMinimum | mapping/core/src/main/java/it/unibz/inf/ontop/spec/ontology/impl/TBoxReasonerImpl.java:307-312 | the minimum of a set of symmetric properties is not an inverse |
| Representatives.MirrorOfMinimum | mapping/core/src/main/java/it/unibz/inf/ontop/spec/ontology/impl/TBoxReasonerImpl.java:293-295 | the inverse of a set's minimum lies in the set of inverses |
| Representatives.ObjectPropertyStep | mapping/core/src/main/java/it/unibz/inf/ontop/spec/ontology/impl/TBoxReasonerImpl.java:292-312 | one step of the object-property pass keeps every set either unchosen and unindexed, or with its minimum and indexed iff that is not an inverse |
| Representatives.ChooseObjectPropertyRepresentative | mapping/core/src/main/java/it/unibz/inf/ontop/spec/ontology/impl/TBoxReasonerImpl.java:292-312 | the body of the object-property loop gives the current set a representative and keeps the choice invariant |
| Representatives.ChooseObjectPropertyRepresentatives | mapping/core/src/main/java/it/unibz/inf/ontop/spec/ontology/impl/TBoxReasonerImpl.java:284-314 | after the pass every set has its minimum as representative and is indexed iff that minimum is not an inverse |
| Representatives.ObjectPropertyMirrorSets | mapping/core/src/main/java/it/unibz/inf/ontop/spec/ontology/impl/TBoxReasonerImpl.java:297-312 | after the pass the inverse set's representative is the inverse of the set's representative |
| Representatives.MinObjectProperty | mapping/core/src/main/java/it/unibz/inf/ontop/spec/ontology/impl/TBoxReasonerImpl.java:292 | `Collections.min` with the object-property comparator returns the minimum |
| Representatives.MinDataProperty | mapping/core/src/main/java/it/unibz/inf/ontop/spec/ontology/impl/TBoxReasonerImpl.java:323 | `Collections.min` with the data-property comparator returns the minimum |
| Representatives.ChooseDataPropertyRepresentatives | mapping/core/src/main/java/it/unibz/inf/ontop/spec/ontology/impl/TBoxReasonerImpl.java:316-329 | sets with a representative are left alone; every other set gets its smallest member and is indexed |
| Representatives.DataPropertyRepresentativeUnique | mapping/core/src/main/java/it/unibz/inf/ontop/spec/ontology/impl/TBoxReasonerImpl.java:323 | the data-property representative does not depend on iteration order |
| Representatives.ClassRepresentative | mapping/core/src/main/java/it/unibz/inf/ontop/spec/ontology/impl/TBoxReasonerImpl.java:355-386 | a singleton's member, else the smallest named class, else the domain derived from the property representative; an error exactly where the Java code would throw |
| Representatives.ClassRepresentativeNamedIff | mapping/core/src/main/java/it/unibz/inf/ontop/spec/ontology/impl/TBoxReasonerImpl.java:356-386 | the representative is a named class iff the set holds one, and then it is a member |
| Representatives.NamedClassRepresentativeUnique | mapping/core/src/main/java/it/unibz/inf/ontop/spec/ontology/impl/TBoxReasonerImpl.java:361-366 | with a named class present, the representative does not depend on iteration order |
| Representatives.ChooseClassRepresentatives | mapping/core/src/main/java/it/unibz/inf/ontop/spec/ontology/impl/TBoxReasonerImpl.java:349-392 | every set gets its class representative, and a set is indexed iff it was before or its representative is a named class; failure exactly when some set's derivation fails |
| Representatives.DataRangeRepresentative | mapping/core/src/main/java/it/unibz/inf/ontop/spec/ontology/impl/TBoxReasonerImpl.java:399-426 | a singleton's member, else the smallest named datatype, else the range derived from the data-property representative; errors where the Java code throws |
| Representatives.DataRangeRepresentativeNamedIff | mapping/core/src/main/java/it/unibz/inf/ontop/spec/ontology/impl/TBoxReasonerImpl.java:400-426 | the representative is a named datatype iff the set holds one, and then it is a member |
| Representatives.ChooseDataRangeRepresentativesAsWritten | mapping/core/src/main/java/it/unibz/inf/ontop/spec/ontology/impl/TBoxReasonerImpl.java:394-432 | as written: every set gets its representative, and no set's indexed flag changes |
| Representatives.DataRangeIndexingDiscrepancy | mapping/core/src/main/java/it/unibz/inf/ontop/spec/ontology/impl/TBoxReasonerImpl.java:428-430 | for a set represented by rdfs:Literal, the as-written indexing differs from indexing named datatypes |
| Representatives.ChooseDataRangeRepresentatives | mapping/core/src/main/java/it/unibz/inf/ontop/spec/ontology/impl/TBoxReasonerImpl.java:394-432 | corrected: as above, and a set is indexed iff it was before or its representative is a named datatype |
| VocabularyCategory.Category.All | mapping/core/src/main/java/it/unibz/inf/ontop/spec/ontology/impl/TBoxReasonerImpl.java:64-66 | `all` is exactly the set of indexed values |
| VocabularyCategory.Category.Get | mapping/core/src/main/java/it/unibz/inf/ontop/spec/ontology/impl/TBoxReasonerImpl.java:68-79 | `get` succeeds iff `contains` holds, and then returns the value indexed under that IRI; otherwise it fails with "NOT FOUND: " and the IRI |
| VocabularyCategory.AllValuesFound | mapping/core/src/main/java/it/unibz/inf/ontop/spec/ontology/impl/TBoxReasonerImpl.java:64-79 | every value in `all` is what `get` returns for some IRI |
| TargetQueryRenderer.Shorten | ontop-temporal/src/main/java/it/unibz/inf/ontop/spec/TemporalTargetQueryRenderer.java:207-218 | the short form when shortening changes the IRI, else the IRI in angle brackets; never the bare IRI |
| TargetQueryRenderer.ReplaceChar | ontop-temporal/src/main/java/it/unibz/inf/ontop/spec/TemporalTargetQueryRenderer.java:97-98 | replacing a character that does not occur changes nothing |
| TargetQueryRenderer.AppendTerm | ontop-temporal/src/main/java/it/unibz/inf/ontop/spec/TemporalTargetQueryRenderer.java:93-104 | `appendTerms` fails exactly on a function term, which it casts to a variable |
| TargetQueryRenderer.ReplaceTwice | ontop-temporal/src/main/java/it/unibz/inf/ontop/spec/TemporalTargetQueryRenderer.java:97-98 | the two `replace` calls put a backslash before every brace |
| TargetQueryRenderer.ReplaceConcat | ontop-temporal/src/main/java/it/unibz/inf/ontop/spec/TemporalTargetQueryRenderer.java:97-98 | replacement distributes over concatenation |
| TargetQueryRenderer.EscapeValueCases | ontop-temporal/src/main/java/it/unibz/inf/ontop/spec/TemporalTargetQueryRenderer.java:95-100 | a value containing "{" gets both braces escaped; any other value is written unchanged |
| TargetQueryRenderer.EscapeBracesStart | ontop-temporal/src/main/java/it/unibz/inf/ontop/spec/TemporalTargetQueryRenderer.java:96-99 | an escaped value never starts with a bare brace |
| TargetQueryRenderer.UnescapeEscape | ontop-temporal/src/main/java/it/unibz/inf/ontop/spec/TemporalTargetQueryRenderer.java:96-99 | brace escaping loses nothing: unescaping gives the value back |
| TargetQueryRenderer.Concat2Assoc | ontop-temporal/src/main/java/it/unibz/inf/ontop/spec/TemporalTargetQueryRenderer.java:107-120 | appending to the builder is associative, failures included |
| TargetQueryRenderer.LeafTextsAppend | ontop-temporal/src/main/java/it/unibz/inf/ontop/spec/TemporalTargetQueryRenderer.java:107-120 | the text of two leaf lists is the text of each, appended |
| TargetQueryRenderer.LeafTextsDefined | ontop-temporal/src/main/java/it/unibz/inf/ontop/spec/TemporalTargetQueryRenderer.java:93-104 | a leaf list renders iff no leaf is a function term |
| TargetQueryRenderer.ConcatPartIsLeaves | ontop-temporal/src/main/java/it/unibz/inf/ontop/spec/TemporalTargetQueryRenderer.java:107-120 | `getNestedConcats` writes the leaves of the function tree from left to right, and fails iff a leaf is a function |
| TargetQueryRenderer.FillTemplateDefined | ontop-temporal/src/main/java/it/unibz/inf/ontop/spec/TemporalTargetQueryRenderer.java:163-170 | filling a template succeeds iff there are at least as many arguments as "{}" placeholders |
| TargetQueryRenderer.FillTemplateSurplus | ontop-temporal/src/main/java/it/unibz/inf/ontop/spec/TemporalTargetQueryRenderer.java:170 | surplus arguments are ignored |
| TargetQueryRenderer.FillTemplateIdentity | ontop-temporal/src/main/java/it/unibz/inf/ontop/spec/TemporalTargetQueryRenderer.java:163-170 | filling every placeholder with "{}" gives the template back, so placeholders are filled in order |
| TargetQueryRenderer.VariableNames | ontop-temporal/src/main/java/it/unibz/inf/ontop/spec/TemporalTargetQueryRenderer.java:164-169 | at most one name per argument |
| TargetQueryRenderer.VariableNamesSnoc | ontop-temporal/src/main/java/it/unibz/inf/ontop/spec/TemporalTargetQueryRenderer.java:164-169 | the loop over the arguments appends "{name}" for each variable and skips every other term, in argument order |
| TargetQueryRenderer.VariableNamesMembers | ontop-temporal/src/main/java/it/unibz/inf/ontop/spec/TemporalTargetQueryRenderer.java:164-169 | every collected name is some variable argument's "{name}", and every variable argument's is collected |
| TargetQueryRenderer.JoinSnoc | ontop-temporal/src/main/java/it/unibz/inf/ontop/spec/TemporalTargetQueryRenderer.java:193-200 | the `separator` loop writes ", " before every part but the first |
| TargetQueryRenderer.AllDefined | ontop-temporal/src/main/java/it/unibz/inf/ontop/spec/TemporalTargetQueryRenderer.java:194-200 | the argument renderings succeed iff each argument does, keeping their order |
| TargetQueryRenderer.DisplayName | ontop-temporal/src/main/java/it/unibz/inf/ontop/spec/TemporalTargetQueryRenderer.java:125-228 | variables, constants and blank nodes always render |
| TargetQueryRenderer.DisplayNameDefined | ontop-temporal/src/main/java/it/unibz/inf/ontop/spec/TemporalTargetQueryRenderer.java:125-228 | `getDisplayName` fails exactly on the terms that are not renderable, whatever the prefix manager does |
| TargetQueryRenderer.SimpleDisplay | ontop-temporal/src/main/java/it/unibz/inf/ontop/spec/TemporalTargetQueryRenderer.java:131-226 | "{name}" for variables, quoted values, blank-node names; URI constants never bare; value "@" tag with a raw constant tag; value "^^" short datatype |
| TargetQueryRenderer.ConcatDisplay | ontop-temporal/src/main/java/it/unibz/inf/ontop/spec/TemporalTargetQueryRenderer.java:185-189 | a CONCAT renders as its leaves' texts, left to right, inside double quotes |
| TargetQueryRenderer.TemplateDisplay | ontop-temporal/src/main/java/it/unibz/inf/ontop/spec/TemporalTargetQueryRenderer.java:152-184 | a constant template is filled with the variable arguments, then written as "a" for rdf:type or shortened |
| TargetQueryRenderer.VariableTemplateDisplay | ontop-temporal/src/main/java/it/unibz/inf/ontop/spec/TemporalTargetQueryRenderer.java:155-158 | a template given by a variable is written as "<{name}>" |
| TargetQueryRenderer.OrdinaryDisplay | ontop-temporal/src/main/java/it/unibz/inf/ontop/spec/TemporalTargetQueryRenderer.java:190-202 | an ordinary function is its short name, then its arguments' renderings separated by ", ", in parentheses |
| TargetQueryRenderer.OrdinaryDisplayFails | ontop-temporal/src/main/java/it/unibz/inf/ontop/spec/TemporalTargetQueryRenderer.java:190-202 | an ordinary function fails to render when one of its arguments does |
| TargetQueryRenderer.AtomTripleDefined | ontop-temporal/src/main/java/it/unibz/inf/ontop/spec/TemporalTargetQueryRenderer.java:45-83 | an atom renders iff the arguments its kind reads exist and render; arity 5 gives predicate "a"; a class or property name is never written as a bare IRI |
| TargetQueryRenderer.Encode | ontop-temporal/src/main/java/it/unibz/inf/ontop/spec/TemporalTargetQueryRenderer.java:42-76 | one triple per atom, in order, each the atom's triple; failure iff some atom fails |
| JavaInt.Wrap32 | obdalib-sesame/src/main/java/it/unibz/krdb/obda/sesame/SesameStatement.java:178 | the `int` result is congruent to the mathematical value modulo 2^32 |
| JavaInt.WrapCongruent | obdalib-sesame/src/main/java/it/unibz/krdb/obda/sesame/SesameStatement.java:178 | congruent values wrap to the same `int` |
| JavaInt.WrapInRange | obdalib-sesame/src/main/java/it/unibz/krdb/obda/sesame/SesameStatement.java:178 | an `int` wraps to itself |
| JavaInt.WrapSum | obdalib-sesame/src/main/java/it/unibz/krdb/obda/sesame/SesameStatement.java:178 | wrapping after each addition equals wrapping once |
| JavaInt.WrapProduct | obdalib-sesame/src/main/java/it/unibz/krdb/obda/sesame/SesameStatement.java:178 | wrapping a factor before multiplying equals wrapping once |
| SesameStatement.GetResource | obdalib-sesame/src/main/java/it/unibz/krdb/obda/sesame/SesameStatement.java:106-113 | a blank node for a BNode, a URI for a URI constant; always a resource |
| SesameStatement.ResourceRoundTrip | obdalib-sesame/src/main/java/it/unibz/krdb/obda/sesame/SesameStatement.java:106-113 | the constant can be recovered from its resource |
| SesameStatement.GetLiteral | obdalib-sesame/src/main/java/it/unibz/krdb/obda/sesame/SesameStatement.java:115-134 | a literal whose label is the constant's value |
| SesameStatement.GetLiteralTyping | obdalib-sesame/src/main/java/it/unibz/krdb/obda/sesame/SesameStatement.java:115-134 | a language only for LITERAL_LANG; no datatype for LITERAL and LITERAL_LANG; xsd:string for OBJECT; the type's own datatype otherwise |
| SesameStatement.FromAssertion | obdalib-sesame/src/main/java/it/unibz/krdb/obda/sesame/SesameStatement.java:56-104 | the statement has a resource subject, a URI predicate, an object and a null context |
| SesameStatement.FromAssertionKinds | obdalib-sesame/src/main/java/it/unibz/krdb/obda/sesame/SesameStatement.java:58-103 | each assertion kind fills subject, predicate and object from its own parts; only data-property statements have a literal object |
| SesameStatement.SesameStatement.constructor | obdalib-sesame/src/main/java/it/unibz/krdb/obda/sesame/SesameStatement.java:48-104 | the fields assigned branch by branch give the statement of the assertion |
| SesameStatement.EqualsIff | obdalib-sesame/src/main/java/it/unibz/krdb/obda/sesame/SesameStatement.java:153-170 | `equals` is false for null and non-statements, and otherwise holds exactly on equal components |
| SesameStatement.EqualsSymmetric | obdalib-sesame/src/main/java/it/unibz/krdb/obda/sesame/SesameStatement.java:153-170 | `equals` is symmetric |
| SesameStatement.HashCodeIsWrappedSum | obdalib-sesame/src/main/java/it/unibz/krdb/obda/sesame/SesameStatement.java:172-179 | `hashCode` is 1013·context + 961·subject + 31·predicate + object, wrapped to 32 bits, with 0 for null |
| SesameStatement.HashCodeConsistent | obdalib-sesame/src/main/java/it/unibz/krdb/obda/sesame/SesameStatement.java:153-179 | statements that are `equals` have equal hash codes |
| SesameStatement.AssertionStatementHash | obdalib-sesame/src/main/java/it/unibz/krdb/obda/sesame/SesameStatement.java:172-179 | the null context of an assertion's statement adds nothing to its hash |
| GraphResultSet.GetConstant | engine/system/core/src/main/java/it/unibz/inf/ontop/answering/resultset/impl/DefaultSimpleGraphResultSet.java:173-204 | `getConstant` fails exactly when the extension binds the name to a variable |
| GraphResultSet.GetConstantCases | engine/system/core/src/main/java/it/unibz/inf/ontop/answering/resultset/impl/DefaultSimpleGraphResultSet.java:186-202 | extension constants map IRI to URI constant, literal to literal, anything else to blank node; other names read the row |
| GraphResultSet.Request | engine/system/core/src/main/java/it/unibz/inf/ontop/answering/resultset/impl/DefaultSimpleGraphResultSet.java:119-134 | rdf:type gives a class assertion; otherwise an individual object gives an object-property assertion and a literal a data-property assertion |
| GraphResultSet.FailureAt | engine/system/core/src/main/java/it/unibz/inf/ontop/answering/resultset/impl/DefaultSimpleGraphResultSet.java:104-145 | an exception on one triple is the outcome of the whole row |
| GraphResultSet.ListFailurePersists | engine/system/core/src/main/java/it/unibz/inf/ontop/answering/resultset/impl/DefaultSimpleGraphResultSet.java:107-142 | once a triple of a list fails, the later triples do not change the outcome |
| GraphResultSet.RowFailurePersists | engine/system/core/src/main/java/it/unibz/inf/ontop/answering/resultset/impl/DefaultSimpleGraphResultSet.java:104-143 | once a projection list fails, the later lists do not change the outcome |
| GraphResultSet.ProcessResults | engine/system/core/src/main/java/it/unibz/inf/ontop/answering/resultset/impl/DefaultSimpleGraphResultSet.java:98-145 | the nested loops compute the row's assertions, or the first exception |
| GraphResultSet.MissingBindingSkipped | engine/system/core/src/main/java/it/unibz/inf/ontop/answering/resultset/impl/DefaultSimpleGraphResultSet.java:109-116 | once all three constants are read without error and the subject is not a literal, a triple with any missing binding (subject, predicate or object, from the row or the extension) adds nothing |
| GraphResultSet.BoundTriple | engine/system/core/src/main/java/it/unibz/inf/ontop/answering/resultset/impl/DefaultSimpleGraphResultSet.java:118-141 | for any template, a triple whose three constants are bound (to an individual subject) fails iff the builder reports an inconsistency, with the predicate in the message; adds nothing iff it returns null; otherwise adds the built assertion |
| GraphResultSet.LiteralSubjectRejected | engine/system/core/src/main/java/it/unibz/inf/ontop/answering/resultset/impl/DefaultSimpleGraphResultSet.java:109 | a literal subject, from the row or the extension, fails the cast to ObjectConstant before the predicate and object are read |
| GraphResultSet.ConstantErrorFails | engine/system/core/src/main/java/it/unibz/inf/ontop/answering/resultset/impl/DefaultSimpleGraphResultSet.java:109-111 | an unbound-variable error of `getConstant` fails the triple with its message, reading subject, predicate and object in that order |
| GraphResultSet.ListAssertionsBound | engine/system/core/src/main/java/it/unibz/inf/ontop/answering/resultset/impl/DefaultSimpleGraphResultSet.java:107-142 | a list yields at most one assertion per triple |
| GraphResultSet.LeftoversIgnored | engine/system/core/src/main/java/it/unibz/inf/ontop/answering/resultset/impl/DefaultSimpleGraphResultSet.java:105-107 | elements past the last full triple are ignored |
| GraphResultSet.DrainedFailurePersists | engine/system/core/src/main/java/it/unibz/inf/ontop/answering/resultset/impl/DefaultSimpleGraphResultSet.java:72-74 | a failing row makes the whole drain fail |
| GraphResultSet.Pull | engine/system/core/src/main/java/it/unibz/inf/ontop/answering/resultset/impl/DefaultSimpleGraphResultSet.java:155-162 | a found batch is non-empty and consumes at least one row |
| GraphResultSet.PullMeaning | engine/system/core/src/main/java/it/unibz/inf/ontop/answering/resultset/impl/DefaultSimpleGraphResultSet.java:155-162 | the source is exhausted iff every row gives no assertions; a found batch is the first non-empty row's, and all rows before it were empty |
| GraphResultSet.SimpleGraphResultSet.constructor | engine/system/core/src/main/java/it/unibz/inf/ontop/answering/resultset/impl/DefaultSimpleGraphResultSet.java:55-68 | a new result set has an empty buffer over the given rows |
| GraphResultSet.SimpleGraphResultSet.AddNewResult | engine/system/core/src/main/java/it/unibz/inf/ontop/answering/resultset/impl/DefaultSimpleGraphResultSet.java:85-88 | `addNewResult` appends at the end and leaves the earlier entries unchanged |
| GraphResultSet.SimpleGraphResultSet.DrainSource | engine/system/core/src/main/java/it/unibz/inf/ontop/answering/resultset/impl/DefaultSimpleGraphResultSet.java:69-75 | the storing constructor's loop appends every row's assertions and empties the source, or fails as the drain does |
| GraphResultSet.SimpleGraphResultSet.HasNext | engine/system/core/src/main/java/it/unibz/inf/ontop/answering/resultset/impl/DefaultSimpleGraphResultSet.java:147-163 | true on a non-empty buffer; false without reading when storing; otherwise it reads up to the first non-empty batch and buffers it, or false when exhausted |
| GraphResultSet.SimpleGraphResultSet.Next | engine/system/core/src/main/java/it/unibz/inf/ontop/answering/resultset/impl/DefaultSimpleGraphResultSet.java:165-171 | `next` removes and returns the oldest entry, and fails on an empty buffer |
| GraphResultSet.Create | engine/system/core/src/main/java/it/unibz/inf/ontop/answering/resultset/impl/DefaultSimpleGraphResultSet.java:55-76 | with `storeResults` the constructor drains the whole source into the buffer, or fails as the drain does; otherwise the buffer starts empty |
| GraphResultSet.FifoOrder | engine/system/core/src/main/java/it/unibz/inf/ontop/answering/resultset/impl/DefaultSimpleGraphResultSet.java:84-171 | what is added later comes out after what was already buffered |
| Union.HasAChildWithLiftableDefinition | core/model/src/main/java/it/unibz/inf/ontop/iq/node/UnionNode.java:32-37 | true iff some child is a construction node whose substitution defines the variable |
| Union.LiftableVariableIsProjected | core/model/src/main/java/it/unibz/inf/ontop/iq/node/UnionNode.java:12-37 | in a union whose children project its variables, a liftable variable is projected |
| Union.UnionProjectsChildren | core/model/src/main/java/it/unibz/inf/ontop/iq/node/UnionNode.java:12-15 | a union satisfying the invariant projects exactly the variables its children produce between them |
| Union.BuildUnion | core/model/src/main/java/it/unibz/inf/ontop/iq/node/UnionNode.java:12-15 | a union built over children that all project the same variables satisfies the invariant |
| Union.Clone | core/model/src/main/java/it/unibz/inf/ontop/iq/node/UnionNode.java:17-18 | `clone` yields a union node with the same projected variables |
| IntermediateQueries.MaxLength | obdalib-core/src/main/java/org/semanticweb/ontop/pivotalrepr/IntermediateQuery.java:80-83 | a bound on the lengths of a set of names, so a longer name is new |
| IntermediateQueries.NoDuplicatesAppend | obdalib-core/src/main/java/org/semanticweb/ontop/pivotalrepr/IntermediateQuery.java:41-45 | joining two repeat-free sequences with no common element gives a repeat-free sequence |
| IntermediateQueries.PrependRoot | obdalib-core/src/main/java/org/semanticweb/ontop/pivotalrepr/IntermediateQuery.java:19 | the root followed by the nodes below it, each after its parent or under the root, is repeat-free with every node after its parent |
| IntermediateQueries.ReverseMembers | obdalib-core/src/main/java/org/semanticweb/ontop/pivotalrepr/IntermediateQuery.java:17 | reversal keeps exactly the elements, and keeps them distinct |
| IntermediateQueries.ReverseOrder | obdalib-core/src/main/java/org/semanticweb/ontop/pivotalrepr/IntermediateQuery.java:17-19 | reversing a parent-first order gives a parent-last order |
| IntermediateQueries.ReverseStep | obdalib-core/src/main/java/org/semanticweb/ontop/pivotalrepr/IntermediateQuery.java:17-19 | one position of the reversed order precedes its parent |
| IntermediateQueries.AddKeepsTree | obdalib-core/src/main/java/org/semanticweb/ontop/pivotalrepr/IntermediateQuery.java:15-32 | hanging a fresh node under an existing one keeps the tree shape |
| IntermediateQueries.IntermediateQuery.constructor | obdalib-core/src/main/java/org/semanticweb/ontop/pivotalrepr/IntermediateQuery.java:15 | a query starts as its root construction node alone |
| IntermediateQueries.IntermediateQuery.GetRootConstructionNode | obdalib-core/src/main/java/org/semanticweb/ontop/pivotalrepr/IntermediateQuery.java:15 | the root is a construction node |
| IntermediateQueries.IntermediateQuery.GetChildren | obdalib-core/src/main/java/org/semanticweb/ontop/pivotalrepr/IntermediateQuery.java:21 | the children are distinct nodes of the query, none of them the root |
| IntermediateQueries.IntermediateQuery.GetParent | obdalib-core/src/main/java/org/semanticweb/ontop/pivotalrepr/IntermediateQuery.java:28 | only the root has no parent; a parent lists the node among its children |
| IntermediateQueries.IntermediateQuery.ParentIff | obdalib-core/src/main/java/org/semanticweb/ontop/pivotalrepr/IntermediateQuery.java:21-28 | `getParent(c)` is p exactly when c is among `getChildren(p)` |
| IntermediateQueries.IntermediateQuery.GetFirstChild | obdalib-core/src/main/java/org/semanticweb/ontop/pivotalrepr/IntermediateQuery.java:32 | none iff there are no children; otherwise the first of `getChildren` |
| IntermediateQueries.IntermediateQuery.IndexOf | obdalib-core/src/main/java/org/semanticweb/ontop/pivotalrepr/IntermediateQuery.java:30 | the first position of a node among its siblings |
| IntermediateQueries.IntermediateQuery.GetNextSibling | obdalib-core/src/main/java/org/semanticweb/ontop/pivotalrepr/IntermediateQuery.java:30 | a next sibling shares the node's parent |
| IntermediateQueries.IntermediateQuery.SiblingOrder | obdalib-core/src/main/java/org/semanticweb/ontop/pivotalrepr/IntermediateQuery.java:21-32 | `getFirstChild` then `getNextSibling` visit the children in the order of `getChildren` |
| IntermediateQueries.IntermediateQuery.Ancestors | obdalib-core/src/main/java/org/semanticweb/ontop/pivotalrepr/IntermediateQuery.java:23-26 | the ancestors are nodes of the query |
| IntermediateQueries.IntermediateQuery.AncestorsChain | obdalib-core/src/main/java/org/semanticweb/ontop/pivotalrepr/IntermediateQuery.java:23-26 | the ancestors start at the parent, each is the parent of the one before, and the last is the root |
| IntermediateQueries.IntermediateQuery.GetAncestors | obdalib-core/src/main/java/org/semanticweb/ontop/pivotalrepr/IntermediateQuery.java:23-26 | the loop returns the parent chain from the parent to the oldest ancestor |
| IntermediateQueries.IntermediateQuery.GetClosestConstructionNode | obdalib-core/src/main/java/org/semanticweb/ontop/pivotalrepr/IntermediateQuery.java:74-78 | the node itself if it is a construction node, else the nearest construction-node ancestor |
| IntermediateQueries.IntermediateQuery.NotOwnDescendant | obdalib-core/src/main/java/org/semanticweb/ontop/pivotalrepr/IntermediateQuery.java:41-45 | no node lies below itself |
| IntermediateQueries.IntermediateQuery.ChildIsDescendant | obdalib-core/src/main/java/org/semanticweb/ontop/pivotalrepr/IntermediateQuery.java:41-45 | a child of a node at or below n lies below n |
| IntermediateQueries.IntermediateQuery.ClosedSetHoldsDescendants | obdalib-core/src/main/java/org/semanticweb/ontop/pivotalrepr/IntermediateQuery.java:41-45 | a set holding n's children and closed under children holds every node below n |
| IntermediateQueries.IntermediateQuery.GetSubTreeNodesInTopDownOrder | obdalib-core/src/main/java/org/semanticweb/ontop/pivotalrepr/IntermediateQuery.java:41-45 | exactly the nodes below n, each once, each after its parent, and never n itself |
| IntermediateQueries.IntermediateQuery.VisitHead | obdalib-core/src/main/java/org/semanticweb/ontop/pivotalrepr/IntermediateQuery.java:41-45 | the next queued node is new and below n |
| IntermediateQueries.IntermediateQuery.VisitChildren | obdalib-core/src/main/java/org/semanticweb/ontop/pivotalrepr/IntermediateQuery.java:41-45 | the children of the next queued node are neither output nor queued yet |
| IntermediateQueries.IntermediateQuery.Visit | obdalib-core/src/main/java/org/semanticweb/ontop/pivotalrepr/IntermediateQuery.java:41-45 | one step of the walk keeps its invariant |
| IntermediateQueries.IntermediateQuery.BelowRoot | obdalib-core/src/main/java/org/semanticweb/ontop/pivotalrepr/IntermediateQuery.java:15-26 | every node other than the root lies below the root |
| IntermediateQueries.IntermediateQuery.GetNodesInTopDownOrder | obdalib-core/src/main/java/org/semanticweb/ontop/pivotalrepr/IntermediateQuery.java:19 | every node once, the root first, every other node after its parent |
| IntermediateQueries.IntermediateQuery.GetNodesInBottomUpOrder | obdalib-core/src/main/java/org/semanticweb/ontop/pivotalrepr/IntermediateQuery.java:17 | every node once, every node before its parent, the root last |
| IntermediateQueries.IntermediateQuery.GenerateNewVariable | obdalib-core/src/main/java/org/semanticweb/ontop/pivotalrepr/IntermediateQuery.java:80-83 | the variable is used nowhere in the query |
| IntermediateQueries.IntermediateQuery.GenerateNewVariableFrom | obdalib-core/src/main/java/org/semanticweb/ontop/pivotalrepr/IntermediateQuery.java:85-91 | the variable is used nowhere in the query and differs from the former one |
| IntermediateQueries.IntermediateQuery.ApplyProposal | obdalib-core/src/main/java/org/semanticweb/ontop/pivotalrepr/IntermediateQuery.java:49-62 | a proposal is either rejected, or ends in an empty query, or returns results naming the optimised node; on results the node is replaced in place and the tree keeps its shape. Which proposals are rejected and which empty the query is the model's own rule |
| EvaluationResult.OfExpression | core/model/src/main/java/it/unibz/inf/ontop/model/term/impl/EvaluationResultImpl.java:24-27 | the expression constructor gives SIMPLIFIED_EXPRESSION and that expression |
| EvaluationResult.OfStatus | core/model/src/main/java/it/unibz/inf/ontop/model/term/impl/EvaluationResultImpl.java:29-35 | the status constructor rejects SIMPLIFIED_EXPRESSION, and otherwise gives that status and no expression |
| EvaluationResult.DeclareSimplifiedExpression | core/model/src/main/java/it/unibz/inf/ontop/model/term/impl/EvaluationResultImpl.java:47-50 | status SIMPLIFIED_EXPRESSION with the given expression |
| EvaluationResult.DeclareSameExpression | core/model/src/main/java/it/unibz/inf/ontop/model/term/impl/EvaluationResultImpl.java:52-54 | status SAME_EXPRESSION, no expression |
| EvaluationResult.DeclareIsNull | core/model/src/main/java/it/unibz/inf/ontop/model/term/impl/EvaluationResultImpl.java:56-58 | status IS_NULL, no expression |
| EvaluationResult.DeclareIsFalse | core/model/src/main/java/it/unibz/inf/ontop/model/term/impl/EvaluationResultImpl.java:60-62 | status IS_FALSE, no expression |
| EvaluationResult.DeclareIsTrue | core/model/src/main/java/it/unibz/inf/ontop/model/term/impl/EvaluationResultImpl.java:64-66 | status IS_TRUE, no expression |
| EvaluationResult.ValidResultsAreDeclared | core/model/src/main/java/it/unibz/inf/ontop/model/term/impl/EvaluationResultImpl.java:24-45 | any result the constructors can build has no expression unless simplified, and is what the matching factory returns |
| TemporaryConversion.TmpToStringSymbol.Name | core/model/src/main/java/it/unibz/inf/ontop/model/term/functionsymbol/impl/TemporaryDBTypeConversionToStringFunctionSymbolImpl.java:13-15 | the name is "TmpTo" followed by the target type's name |
| TemporaryConversion.TmpToStringSymbol.InputType | core/model/src/main/java/it/unibz/inf/ontop/model/term/functionsymbol/impl/TemporaryDBTypeConversionToStringFunctionSymbolImpl.java:17-20 | the input type is absent |
| TemporaryConversion.NameDeterminesTarget | core/model/src/main/java/it/unibz/inf/ontop/model/term/functionsymbol/impl/TemporaryDBTypeConversionToStringFunctionSymbolImpl.java:13-15 | two symbols with the same name convert to the same target type |
| TemporaryConversion.ConstantAnswers | core/model/src/main/java/it/unibz/inf/ontop/model/term/functionsymbol/impl/TemporaryDBTypeConversionToStringFunctionSymbolImpl.java:17-35 | always temporary, never post-processable, never injective for any arguments, no input type |

## Left out

- The strongly connected components and `EquivalencesDAGImpl.reduce`: `EquivalencesDAGImpl` is not part of this model. The equivalence sets are an input.
- `getEquivalenceSimplifiedReasoner`: it is reachable only from commented-out code and depends on `reduce`.
- `TBoxReasonerImpl.create`, its constructor and `toString`: plumbing between the modelled parts. The deprecated size and graph accessors are for tests only.
- InclusionGraphs.Graph.AddEdge: inserts an edge without checking that its endpoints are vertices. jgrapht's `addEdge` would throw on a missing endpoint; `ObjectPropertyEdgesWithinVertices` states when that cannot happen.
- Representatives.ChooseObjectPropertyRepresentatives: requires the sets to be closed under inverse, as the strongly connected components of the inverse-closed graph are; that closure is the caller's guarantee here.
- The iteration order of Java sets is the `first` parameter of the class and data-range passes; the default iteration order of the object- and data-property passes does not affect their result, since the minimum is unique.
- `dag()` of the vocabulary category: an accessor.
- VocabularyCategory.Category.All: a set, whereas the map's `values()` collection may list a value once per IRI; only membership is modelled.
- TemporaryConversion.NameDeterminesTarget: a DB term type is represented by its name alone, so a symbol's name determines its target type; richer type objects are not part of this model.
- The Turtle writer's layout and the prefix manager's logic: neither class is part of this model. `encode` returns the triples, and shortening is a parameter.
- TargetQueryRenderer.FillTemplate: '%' and other format specifiers in a template are copied literally, whereas `String.format` would interpret them.
- TargetQueryRenderer.Shorten: a URI constant's `toString` is taken to be its IRI.
- The `insideQuotes` flag of `getAbbreviatedName` is always false in the renderer, so shortening takes only the IRI.
- SesameStatement.GetResource: the "Invalid constant as subject" exception is not modelled, because the modelled object constants are only URIs and blank nodes.
- SesameStatement.SesameStatement.constructor: the "Invalid constant as object" exception is not modelled, because a data-property assertion's value is always a value constant here. Assertion kinds other than the three are not modelled.
- The getters of `SesameStatement` are the fields themselves. The Sesame value factory is not modelled, and each value's `hashCode` is a parameter.
- GraphResultSet.GetConstant: each `getConstant` call in the source advances the tuple result set by one row. The model reads one row per `processResults` call; that side effect belongs to the abstract row source.
- GraphResultSet.GetConstant: the unbound-variable message carries the variable's name, where the source appends the rdf4j `Var`'s `toString`; that rendering is not part of this model.
- GraphResultSet.ProcessResults: the inconsistency message is the prefix and the predicate name. The source also appends the subject and object.
- `getFetchSize` and `close` of the result set: I/O on the tuple result set.
- `acceptNodeTransformer` and the ascending/descending substitutions of `UnionNode`: interface declarations without behaviour. Their UnionNode result type holds by typing and is not stated separately.
- `IntermediateQuery.getMetadata`, `getOptionalPosition` (both overloads) and `mergeSubQuery`: the interface gives them no contract. The merge semantics live in classes that are not part of this model.
- IntermediateQueries.IntermediateQuery.ApplyProposal: modelled for a proposal that replaces one node. The other proposal kinds and the `requireUsingInternalExecutor` overload depend on executors that are not part of this model. The interface says only that a proposal may be rejected or may empty the query. The conditions used here are the model's own (a node outside the query, a root replaced by a node that is not a construction node, or an emptied root).
- IntermediateQueries.IntermediateQuery.AddChild: construction scaffolding that builds a query tree node by node. The interface has no mutator, and the builder whose `addChild` it stands for is not part of this model.
- IntermediateQueries.IntermediateQuery.GenerateNewVariable: the fresh name is built by the model itself (one longer than every used name). The source's naming scheme is not part of this model.
- The navigation methods of `IntermediateQuery` require the node to belong to the query. The source leaves the behaviour on foreign nodes unspecified.
- EvaluationResult.DeclareSameExpression: the four status-only factories return shared singleton instances in the source. Results are values here, so object identity is not modelled.
- The self-join and foreign-key left-join elimination executors, the composite executors and the command-line and loading tests: their behaviour is not part of this model.
- Concurrency and floating point: none of the modelled code uses them.

## Findings

| source | as written | input that shows it | evidently intended | confidence | as-written member | corrected member |
|---|---|---|---|---|---|---|
| mapping/core/src/main/java/it/unibz/inf/ontop/spec/ontology/impl/TBoxReasonerImpl.java:428-430 | the data-range pass marks a set indexed when its representative is an `OClass`, which no data range expression is, so no data-range set is ever indexed | one equivalence set whose representative is the named datatype rdfs:Literal | index a set whose representative is a named datatype, as the class pass does for named classes | medium, not executed | Representatives.ChooseDataRangeRepresentativesAsWritten, Representatives.DataRangeIndexingDiscrepancy | Representatives.ChooseDataRangeRepresentatives |
