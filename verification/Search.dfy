/** The two calls a page makes: lunr(config) builds an index of its documents, and index.search
    parses a query string and runs the query. */
module Search {
  import Numbering
  import FieldRefs
  import IndexBuilder
  import IndexBuilderTheory
  import SearchMeaning
  import QueryLexer
  import QueryParser
  import QueryErrors
  import QueryMeaning
  import Indexes
  import Enumeration
  import TokenSets

  datatype Outcome = Found(docs: seq<string>) | TypeError | ParseError(start: nat, end: nat)

  /** A string that is not grammatical is an error; for one that is, the documents found are those
      the clauses of its groups ask for. */
  method Run(index: Indexes.Index, queryString: string,
             separator: char -> bool, lower: string -> string, ids: TokenSets.IdSource)
    returns (outcome: Outcome)
    requires index.Valid()
    modifies ids
    ensures index.Valid()
    ensures var env := QueryParser.Setting(index.tables.fields, lower);
            var ls := QueryLexer.Lexemes(separator, queryString, 0);
            && (outcome.ParseError? <==> !exists gs :: QueryParser.Spells(env, gs, ls))
            && (outcome.ParseError? ==>
                  var o := QueryErrors.Offender(index.tables.fields, QueryErrors.Fresh, ls);
                  o.Given? && outcome == ParseError(o.value.start, o.value.end))
            && forall gs :: QueryParser.Spells(env, gs, ls) ==>
                 var cs := QueryParser.ClausesOf(env, gs);
                 && (outcome.TypeError? <==> QueryMeaning.Throws(index.tables, cs))
                 && (outcome.Found? ==> Enumeration.NoRepeats(outcome.docs)
                                        && forall d :: d in outcome.docs <==>
                                             QueryMeaning.Returned(index.tables, cs, d))
  {
    hide QueryLexer.Lexemes, QueryParser.Spells, QueryParser.ClausesOf, QueryMeaning.Throws, QueryMeaning.Returned,
         Indexes.Index.Valid;
    var query := new QueryParser.Query(index.tables.fields);
    var parser := new QueryParser.Parser(queryString, separator, lower, query);
    var parsed := parser.Parse();
    assert parser.Env() == QueryParser.Setting(index.tables.fields, lower);
    QueryErrors.ErrorsAreLocated(parser.Env(), QueryLexer.Lexemes(separator, queryString, 0));
    if parsed.Failed? { return ParseError(parsed.start, parsed.end); }
    var answer := index.Query(query.clauses, ids);
    match answer
    case TypeError => outcome := TypeError;
    case Results(docs) => outcome := Found(docs);
  }

  /** With a pipeline that keeps each term one term, as the stemmer does, every query string is a
      plain query: it never throws, and its answer is the boolean reading of its clauses. */
  lemma ParsedIsPlain(tb: QueryMeaning.Tables, lower: string -> string, gs: seq<QueryParser.Group>)
    requires tb.fields != [] && forall t, fs :: |tb.pipeline(t, fs)| == 1
    requires QueryParser.AllGrammatical(tb.fields, gs)
    ensures QueryMeaning.Plain(tb, QueryParser.ClausesOf(QueryParser.Setting(tb.fields, lower), gs))
  {
    QueryParser.ClausesNameFields(QueryParser.Setting(tb.fields, lower), gs);
  }

  /** lunr(config), for a configuration that names the fields and adds the documents; null stands
      for a thrown error: a slash in a field name, or a field called _index once a field of some
      document has two terms.  What the index returns is said in terms of the documents alone. */
  method Build(fieldNames: seq<string>, documents: seq<IndexBuilderTheory.Document>,
               searchPipeline: (string, seq<string>) -> seq<string>, score: (string, string) -> real,
               ids: TokenSets.IdSource)
    returns (index: Indexes.Index?)
    modifies ids
    ensures index != null <==>
            && (forall f :: f in fieldNames ==> '/' !in f)
            && ("_index" in fieldNames ==> IndexBuilderTheory.OneTermEach(documents, fieldNames))
    ensures index != null ==> SameMembers(index.tables.fields, fieldNames) && index.tables.pipeline == searchPipeline
    ensures index != null && QueryMeaning.INDEX !in fieldNames ==>
              && (index.Valid() <==>
                  Numbering.Tellable(IndexBuilderTheory.Vocabulary(documents, fieldNames), old(ids.nextId)))
              && forall cs, d :: QueryMeaning.Plain(index.tables, cs) ==>
                   (QueryMeaning.Returned(index.tables, cs, d) <==>
                    SearchMeaning.Finds(documents, index.tables.fields, searchPipeline, cs, d))
  {
    hide Numbering.Tellable, IndexBuilderTheory.Structure, IndexBuilderTheory.Numbered, IndexBuilderTheory.AllSeen,
         IndexBuilderTheory.PostedIs, IndexBuilderTheory.ForwardIs, IndexBuilderTheory.OneTermEach, QueryMeaning.Agrees,
         QueryMeaning.Plain, QueryMeaning.Returned, SearchMeaning.Finds, IndexBuilderTheory.Vocabulary;
    var builder := new IndexBuilder.Builder();
    for i := 0 to |fieldNames|
      invariant builder.Valid() && fresh(builder) && builder.added == [] && ids.nextId == old(ids.nextId)
      invariant SameMembers(builder.fields, fieldNames[..i])
      invariant forall f :: f in fieldNames[..i] ==> FieldRefs.JOINER !in f
    {
      var ok := builder.Field(fieldNames[i]);
      assert fieldNames[i] in fieldNames;
      if !ok { return null; }
      assert forall f :: f in fieldNames[..i + 1] <==> f in fieldNames[..i] || f == fieldNames[i];
    }
    assert fieldNames[..|fieldNames|] == fieldNames;
    for i := 0 to |documents|
      invariant builder.Valid() && fresh(builder) && builder.added == documents[..i] && ids.nextId == old(ids.nextId)
      invariant SameMembers(builder.fields, fieldNames)
    {
      builder.Add(documents[i]);
      assert documents[..i + 1] == documents[..i] + [documents[i]];
    }
    assert documents[..|documents|] == documents;
    IndexBuilderTheory.TermsAreVocabulary(documents, builder.fields, builder.inverted, builder.posted);
    IndexBuilderTheory.VectorsOfOneTerm(documents, builder.fields, builder.frequencies, builder.lengths);
    OnlyMembersMatter(documents, builder.fields, fieldNames);
    index := builder.Build(searchPipeline, score, ids);
    if index != null && QueryMeaning.INDEX !in fieldNames {
      forall cs, d | QueryMeaning.Plain(index.tables, cs)
        ensures QueryMeaning.Returned(index.tables, cs, d) <==>
                SearchMeaning.Finds(documents, index.tables.fields, searchPipeline, cs, d)
      {
        SearchMeaning.SearchResult(index.tables, documents, builder.fields, builder.posted, builder.frequencies,
                                   builder.lengths, searchPipeline, cs, d);
      }
    }
  }

  /** Two lists of names with the same members; Object.keys may list them in another order. */
  ghost predicate SameMembers(a: seq<string>, b: seq<string>) {
    forall f :: f in a <==> f in b
  }

  lemma OnlyMembersMatter(documents: seq<IndexBuilderTheory.Document>, a: seq<string>, b: seq<string>)
    requires SameMembers(a, b)
    ensures IndexBuilderTheory.Vocabulary(documents, a) == IndexBuilderTheory.Vocabulary(documents, b)
    ensures IndexBuilderTheory.OneTermEach(documents, a) <==> IndexBuilderTheory.OneTermEach(documents, b)
  {
  }

  /** Both calls together.  For documents whose words' nodes can be told apart and a pipeline that keeps each
      term one term, a query string is an error exactly if it is not grammatical, and else the answer
      is, each once, the documents that its clauses are to find; fields is the list of the field
      names as the index keeps it. */
  method Answer(fieldNames: seq<string>, documents: seq<IndexBuilderTheory.Document>, queryString: string,
                separator: char -> bool, lower: string -> string, searchPipeline: (string, seq<string>) -> seq<string>,
                score: (string, string) -> real, ids: TokenSets.IdSource)
    returns (outcome: Outcome, ghost fields: seq<string>)
    requires fieldNames != [] && forall f :: f in fieldNames ==> FieldRefs.JOINER !in f && f != QueryMeaning.INDEX
    requires Numbering.Tellable(IndexBuilderTheory.Vocabulary(documents, fieldNames), ids.nextId)
    requires forall t, fs :: |searchPipeline(t, fs)| == 1
    modifies ids
    ensures SameMembers(fields, fieldNames)
    ensures var env := QueryParser.Setting(fields, lower);
            var ls := QueryLexer.Lexemes(separator, queryString, 0);
            && !outcome.TypeError?
            && (outcome.ParseError? <==> !exists gs :: QueryParser.Spells(env, gs, ls))
            && forall gs :: QueryParser.Spells(env, gs, ls) ==>
                 && outcome.Found? && Enumeration.NoRepeats(outcome.docs)
                 && forall d :: d in outcome.docs <==>
                      SearchMeaning.Finds(documents, fields, searchPipeline, QueryParser.ClausesOf(env, gs), d)
  {
    hide Numbering.Tellable, QueryLexer.Lexemes, QueryParser.ClausesOf, QueryParser.Flat, QueryMeaning.Throws,
         QueryMeaning.Returned, QueryMeaning.Plain, SearchMeaning.Finds, IndexBuilderTheory.Vocabulary,
         Indexes.Index.Valid, IndexBuilderTheory.OneTermEach, QueryParser.AllGrammatical;
    var index := Build(fieldNames, documents, searchPipeline, score, ids);
    fields := index.tables.fields;
    assert fieldNames[0] in fields;
    outcome := Run(index, queryString, separator, lower, ids);
    forall gs | QueryParser.Spells(QueryParser.Setting(fields, lower), gs,
                                   QueryLexer.Lexemes(separator, queryString, 0))
      ensures QueryMeaning.Plain(index.tables, QueryParser.ClausesOf(QueryParser.Setting(fields, lower), gs))
      ensures !QueryMeaning.Throws(index.tables, QueryParser.ClausesOf(QueryParser.Setting(fields, lower), gs))
    {
      ParsedIsPlain(index.tables, lower, gs);
      QueryMeaning.PlainNeverThrows(index.tables, QueryParser.ClausesOf(QueryParser.Setting(fields, lower), gs));
    }
  }
}
