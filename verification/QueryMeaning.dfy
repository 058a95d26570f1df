/** What a query over an index means, independent of how Index.query computes it. */
module QueryMeaning {
  import opened FieldRefs
  import TermExpansion
  import Glob
  import Fuzzy

  /** lunr.Query.presence */
  datatype Presence = Optional | Required | Prohibited

  /** Whether a clause has an editDistance. */
  datatype Distance = Exactly | UpTo(edits: nat)

  /** lunr.Query~Clause with its defaults filled in; wildcards are part of the term by then. */
  datatype Clause = Clause(term: string, fields: seq<string>, boost: nat, distance: Distance,
                           usePipeline: bool, presence: Presence)

  /** The parts of an index that are plain data: term -> field -> documents, the field references
      that have a vector, the field names and the search pipeline. */
  datatype Tables = Tables(inverted: map<string, map<string, set<string>>>, vectors: set<string>,
                           fields: seq<string>, pipeline: (string, seq<string>) -> seq<string>)

  /** The name under which a posting keeps its term's number instead of a field's documents. */
  const INDEX := "_index"

  predicate Has(tb: Tables, w: string, f: string, d: string) {
    w in tb.inverted && f in tb.inverted[w] && d in tb.inverted[w][f]
  }

  /** What Builder.build leaves behind, unless a field is called _index. */
  ghost predicate Agrees(tb: Tables) {
    && (forall f :: f in tb.fields ==> JOINER !in f && f != INDEX)
    && (forall w, f :: w in tb.inverted ==> (f in tb.inverted[w] <==> f in tb.fields))
    && (forall w, f, d :: Has(tb, w, f, d) ==> ToString(FieldRef(d, f)) in tb.vectors)
    && (forall r :: r in tb.vectors ==> FromString(r).Ref? && FromString(r).ref.fieldName in tb.fields)
  }

  function Terms(tb: Tables, c: Clause): seq<string> {
    TermsBy(tb.pipeline, c)
  }

  /** Unless its pipeline is disabled, a clause's term passes through it. */
  function TermsBy(pipeline: (string, seq<string>) -> seq<string>, c: Clause): seq<string> {
    if c.usePipeline then pipeline(c.term, c.fields) else [c.term]
  }

  function PatternOf(c: Clause, t: string): TermExpansion.Pattern {
    match c.distance
    case Exactly => TermExpansion.Wildcard(t)
    case UpTo(k) => TermExpansion.Within(t, k)
  }

  /** The word w is what the term t asks for: as a wildcard pattern, or up to so many edits. */
  ghost predicate Hits(distance: Distance, t: string, w: string) {
    match distance
    case Exactly => Glob.GlobMatch(t, w)
    case UpTo(k) => Fuzzy.Near(t, k, w)
  }

  /** The indexed word w answers the term t of clause c. */
  ghost predicate Expands(tb: Tables, c: Clause, t: string, w: string) {
    w != "" && w in tb.inverted && Hits(c.distance, t, w)
  }

  /** A clause whose term was written with a star is looked up by that term alone, any other by
      what the pipeline makes of its term. */
  lemma StarsPassBy(pipeline: (string, seq<string>) -> seq<string>, c: Clause, written: string)
    requires c.usePipeline <==> '*' !in written
    ensures '*' in written ==> TermsBy(pipeline, c) == [c.term]
    ensures '*' !in written ==> TermsBy(pipeline, c) == pipeline(c.term, c.fields)
  {
  }

  ghost predicate Barren(tb: Tables, c: Clause, t: string) {
    forall w :: !Expands(tb, c, t, w)
  }

  ghost predicate NothingBarren(tb: Tables, c: Clause) {
    forall t :: t in Terms(tb, c) ==> !Barren(tb, c, t)
  }

  ghost predicate Paired(tb: Tables, c: Clause, w: string, f: string) {
    f in c.fields && exists t :: t in Terms(tb, c) && Expands(tb, c, t, w)
  }

  /** Clause c matches document d: some word answering it occurs in one of its fields of d. */
  ghost predicate MatchesDoc(tb: Tables, c: Clause, d: string) {
    exists w, f :: Paired(tb, c, w, f) && Has(tb, w, f, d)
  }

  /** A required clause asks for more: none of its terms may be without an answer. */
  ghost predicate Meets(tb: Tables, c: Clause, d: string) {
    MatchesDoc(tb, c, d) && NothingBarren(tb, c)
  }

  predicate Negated(cs: seq<Clause>) {
    forall c :: c in cs ==> c.presence.Prohibited?
  }

  predicate Demands(c: Clause, f: string) {
    c.presence.Required? && f in c.fields
  }

  ghost predicate Prohibits(tb: Tables, cs: seq<Clause>, d: string) {
    exists c :: c in cs && c.presence.Prohibited? && MatchesDoc(tb, c, d)
  }

  /** The documents a query returns. */
  ghost predicate Returned(tb: Tables, cs: seq<Clause>, d: string) {
    && (if Negated(cs) then exists f :: f in tb.fields && ToString(FieldRef(d, f)) in tb.vectors
        else exists c :: c in cs && !c.presence.Prohibited? && MatchesDoc(tb, c, d))
    && (forall c, f :: c in cs && f in tb.fields && Demands(c, f) ==> Meets(tb, c, d))
    && !Prohibits(tb, cs, d)
  }

  // ---------------------------------------------------------------- when a query throws

  /** Looking up a posting's documents under f works: for the fields of the index, and for _index,
      where the term's number passes for an empty set of documents.  A prohibited clause asks for no
      more; any other then misses the query vector of the field. */
  predicate CanTouch(tb: Tables, c: Clause, f: string) {
    f in tb.fields || (c.presence.Prohibited? && f == INDEX)
  }

  /** A field the index does not have is looked up as soon as a word was found for the clause. */
  ghost predicate TouchesUnknownField(tb: Tables, c: Clause) {
    && (exists f :: f in c.fields && !CanTouch(tb, c, f))
    && var ts := Terms(tb, c);
       if c.presence.Required? then ts != [] && !Barren(tb, c, ts[0])
       else exists t :: t in ts && !Barren(tb, c, t)
  }

  /** A required clause the pipeline leaves without terms never opens the sets it then narrows;
      cs are the clauses before it. */
  ghost predicate NarrowsNothing(tb: Tables, cs: seq<Clause>, c: Clause) {
    && c.presence.Required? && Terms(tb, c) == []
    && exists f :: f in c.fields && forall e :: e in cs ==> !Demands(e, f)
  }

  ghost predicate Fails(tb: Tables, cs: seq<Clause>, c: Clause) {
    TouchesUnknownField(tb, c) || NarrowsNothing(tb, cs, c)
  }

  ghost predicate Throws(tb: Tables, cs: seq<Clause>) {
    exists i :: 0 <= i < |cs| && Fails(tb, cs[..i], cs[i])
  }

  // ---------------------------------------------------------------- the usual case

  /** Every clause stays one term and names fields of the index, as the query parser's do. */
  ghost predicate Plain(tb: Tables, cs: seq<Clause>) {
    forall c :: c in cs ==>
      |Terms(tb, c)| == 1 && c.fields != [] && forall f :: f in c.fields ==> f in tb.fields
  }

  /** The boolean reading: all required clauses, no prohibited one, and something that matches
      unless there are only prohibitions. */
  ghost predicate Answers(tb: Tables, cs: seq<Clause>, d: string) {
    && (forall c :: c in cs && c.presence.Required? ==> MatchesDoc(tb, c, d))
    && (forall c :: c in cs && c.presence.Prohibited? ==> !MatchesDoc(tb, c, d))
    && (Negated(cs) || exists c :: c in cs && !c.presence.Prohibited? && MatchesDoc(tb, c, d))
  }

  ghost predicate Indexed(tb: Tables, d: string) {
    exists f :: f in tb.fields && ToString(FieldRef(d, f)) in tb.vectors
  }

  lemma MatchedIsIndexed(tb: Tables, c: Clause, d: string)
    requires Agrees(tb) && MatchesDoc(tb, c, d)
    ensures Indexed(tb, d)
  {
    var w, f :| Paired(tb, c, w, f) && Has(tb, w, f, d);
  }

  lemma PlainClauseHolds(tb: Tables, cs: seq<Clause>, i: nat)
    requires Plain(tb, cs) && i < |cs|
    ensures !Fails(tb, cs[..i], cs[i])
  {
    hide Barren;
    assert cs[i] in cs;
  }

  lemma PlainNeverThrows(tb: Tables, cs: seq<Clause>)
    requires Plain(tb, cs)
    ensures !Throws(tb, cs)
  {
    hide Fails;
    forall i | 0 <= i < |cs| ensures !Fails(tb, cs[..i], cs[i]) { PlainClauseHolds(tb, cs, i); }
  }

  /** A single term that found something is not barren. */
  lemma PlainMatchMeets(tb: Tables, c: Clause, d: string)
    requires |Terms(tb, c)| == 1
    ensures Meets(tb, c, d) <==> MatchesDoc(tb, c, d)
  {
    if MatchesDoc(tb, c, d) {
      var w, f :| Paired(tb, c, w, f) && Has(tb, w, f, d);
      var t :| t in Terms(tb, c) && Expands(tb, c, t, w);
      assert Terms(tb, c) == [t];
    }
  }

  /** With one term to a clause and known fields nothing throws, and what comes back is the
      boolean reading of the query over the indexed documents. */
  lemma PlainQuery(tb: Tables, cs: seq<Clause>, d: string)
    requires Agrees(tb) && Plain(tb, cs)
    ensures !Throws(tb, cs)
    ensures Returned(tb, cs, d) <==> Indexed(tb, d) && Answers(tb, cs, d)
  {
    hide Throws, Agrees, Meets, MatchesDoc, Terms;
    PlainNeverThrows(tb, cs);
    forall c | c in cs ensures Meets(tb, c, d) <==> MatchesDoc(tb, c, d) { PlainMatchMeets(tb, c, d); }
    forall c | c in cs && MatchesDoc(tb, c, d) ensures Indexed(tb, d) { MatchedIsIndexed(tb, c, d); }
    forall c | c in cs && c.presence.Required? ensures exists f :: f in tb.fields && Demands(c, f) {
      assert Demands(c, c.fields[0]);
    }
  }
}
