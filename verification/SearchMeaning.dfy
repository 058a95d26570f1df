/** From documents to answers: what a query returns from an index built of some documents, said
    in terms of those documents alone. */
module SearchMeaning {
  import opened FieldRefs
  import opened QueryMeaning
  import opened IndexBuilderTheory

  /** A version of document d has, in one of the clause's fields, a word that answers one of its terms. */
  ghost predicate Speaks(added: seq<Document>, fields: seq<string>, terms: seq<string>, c: Clause, d: string) {
    exists doc, f, t, w ::
      doc in added && doc.docRef == d && f in c.fields && f in fields
      && t in terms && w in TermsOf(doc, f) && w != "" && Hits(c.distance, t, w)
  }

  ghost predicate Added(added: seq<Document>, d: string) {
    exists doc :: doc in added && doc.docRef == d
  }

  lemma MatchIsSpeech(tb: Tables, added: seq<Document>, fields: seq<string>, posted: Occurrences, vectors: set<string>,
                      pipeline: (string, seq<string>) -> seq<string>, c: Clause, d: string)
    requires Presents(tb, fields, posted, vectors, pipeline) && PostedIs(added, fields, posted)
    ensures MatchesDoc(tb, c, d) <==> Speaks(added, fields, Terms(tb, c), c, d)
  {
    hide Hits, TermsOf;
    if MatchesDoc(tb, c, d) {
      var w, f :| Paired(tb, c, w, f) && Has(tb, w, f, d);
      var t :| t in Terms(tb, c) && Expands(tb, c, t, w);
      assert (w, f, d) in posted;
      var doc :| doc in added && doc.docRef == d && w in TermsOf(doc, f);
    }
    if Speaks(added, fields, Terms(tb, c), c, d) {
      var doc, f, t, w :|
        doc in added && doc.docRef == d && f in c.fields && f in fields
        && t in Terms(tb, c) && w in TermsOf(doc, f) && w != "" && Hits(c.distance, t, w);
      assert (w, f, d) in posted;
      assert Has(tb, w, f, d) && Expands(tb, c, t, w) && Paired(tb, c, w, f);
    }
  }

  lemma IndexedIsAdded(tb: Tables, added: seq<Document>, fields: seq<string>, posted: Occurrences,
                       frequencies: map<string, map<string, nat>>, lengths: map<string, nat>,
                       pipeline: (string, seq<string>) -> seq<string>, d: string)
    requires forall f :: f in fields ==> JOINER !in f
    requires Presents(tb, fields, posted, frequencies.Keys, pipeline) && ForwardIs(added, fields, frequencies, lengths)
    ensures Indexed(tb, d) <==> fields != [] && Added(added, d)
  {
    hide Counts, TermsOf;
    forall f | f in fields ensures ToString(FieldRef(d, f)) in frequencies <==> Added(added, d) {
      RoundTrip(FieldRef(d, f));
      assert ForwardAt(added, fields, frequencies, lengths, ToString(FieldRef(d, f)));
    }
    if fields != [] { assert fields[0] in fields; }
  }

  /** The documents a plain query is to find: those added for which every required clause speaks
      and no prohibited one does, and, unless all clauses are prohibited, some other clause speaks. */
  ghost predicate Finds(added: seq<Document>, fields: seq<string>, pipeline: (string, seq<string>) -> seq<string>,
                        cs: seq<Clause>, d: string)
  {
    && fields != [] && Added(added, d)
    && (forall c :: c in cs && c.presence.Required? ==> Speaks(added, fields, TermsBy(pipeline, c), c, d))
    && (forall c :: c in cs && c.presence.Prohibited? ==> !Speaks(added, fields, TermsBy(pipeline, c), c, d))
    && (Negated(cs) ||
        exists c :: c in cs && !c.presence.Prohibited? && Speaks(added, fields, TermsBy(pipeline, c), c, d))
  }

  /** A plain query finds them in a built index. */
  lemma SearchResult(tb: Tables, added: seq<Document>, fields: seq<string>, posted: Occurrences,
                     frequencies: map<string, map<string, nat>>, lengths: map<string, nat>,
                     pipeline: (string, seq<string>) -> seq<string>, cs: seq<Clause>, d: string)
    requires forall f :: f in fields ==> JOINER !in f
    requires Presents(tb, fields, posted, frequencies.Keys, pipeline) && Agrees(tb) && Plain(tb, cs)
    requires PostedIs(added, fields, posted) && ForwardIs(added, fields, frequencies, lengths)
    ensures Returned(tb, cs, d) <==> Finds(added, fields, pipeline, cs, d)
  {
    hide PostedIs, ForwardIs, Speaks, MatchesDoc, Plain, Agrees, Returned, Added, Indexed, Has;
    PlainQuery(tb, cs, d);
    IndexedIsAdded(tb, added, fields, posted, frequencies, lengths, pipeline, d);
    forall c ensures MatchesDoc(tb, c, d) <==> Speaks(added, fields, Terms(tb, c), c, d) {
      MatchIsSpeech(tb, added, fields, posted, frequencies.Keys, pipeline, c, d);
    }
  }
}
