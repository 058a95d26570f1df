/** lunr.Index.query, without scores and metadata: which documents come back, and when it throws. */
module Indexes {
  import opened TokenGraph
  import opened TokenSets
  import opened FieldRefs
  import opened QueryMeaning
  import opened QueryProgress
  import Sets
  import Enumeration
  import TermExpansion
  import Glob
  import Fuzzy

  /** Some of the field references is one of document d. */
  ghost predicate ReferredTo(refs: seq<string>, d: string) {
    exists r :: r in refs && FieldRefs.FromString(r).Ref? && FieldRefs.FromString(r).ref.docRef == d
  }

  lemma ReferredOneMore(refs: seq<string>, i: nat)
    requires i < |refs| && FieldRefs.FromString(refs[i]).Ref?
    ensures forall d :: ReferredTo(refs[..i + 1], d) <==>
              ReferredTo(refs[..i], d) || d == FieldRefs.FromString(refs[i]).ref.docRef
  {
    assert forall r :: r in refs[..i + 1] <==> r in refs[..i] || r == refs[i];
    assert refs[i] in refs[..i + 1];
    forall d | ReferredTo(refs[..i], d) ensures ReferredTo(refs[..i + 1], d) {
      var r :| r in refs[..i] && FieldRefs.FromString(r).Ref? && FieldRefs.FromString(r).ref.docRef == d;
      assert r in refs[..i + 1];
    }
  }

  /** The outcome of a query: documents, or a TypeError. */
  datatype Outcome = Results(docs: seq<string>) | TypeError

  class Index {
    const tables: Tables
    const tokenSet: TokenSet
    ghost const nodes: set<TokenSet>
    ghost const rank: map<TokenSet, nat>

    /** The tables agree and the automaton accepts exactly the indexed words. */
    ghost predicate Valid()
      reads nodes`final, nodes`edges
    {
      && Agrees(tables)
      && tokenSet in nodes && Ranked(Snapshot(nodes), rank)
      && forall w :: w != "" ==> (Accepts(Snapshot(nodes), tokenSet, w) <==> w in tables.inverted)
    }

    constructor (tables: Tables, tokenSet: TokenSet, ghost nodes: set<TokenSet>, ghost rank: map<TokenSet, nat>)
      ensures this.tables == tables && this.tokenSet == tokenSet && this.nodes == nodes && this.rank == rank
    {
      this.tables, this.tokenSet, this.nodes, this.rank := tables, tokenSet, nodes, rank;
    }

    /** The words of the index that answer a term. */
    method ExpandTerm(c: Clause, t: string, ids: IdSource) returns (words: seq<string>)
      requires Valid()
      modifies ids
      ensures Valid()
      ensures forall w :: w in words <==> Expands(tables, c, t, w)
      ensures c.distance.Exactly? ==>
                forall w :: w in words <==> w != "" && w in tables.inverted && Glob.GlobMatch(t, w)
      ensures c.distance.UpTo? ==>
                forall w :: w in words <==> w != "" && w in tables.inverted && Fuzzy.Near(t, c.distance.edits, w)
    {
      hide Snapshot, Ranked, Accepts, Agrees, Glob.GlobMatch, Fuzzy.Near;
      ghost var g := Snapshot(nodes);
      words := TermExpansion.Expand(tokenSet, PatternOf(c, t), ids, nodes, rank);
      assert Snapshot(nodes) == g;
    }

    /** matchingFields gets an entry for each document of the posting. */
    method Collect(p: Progress, w: string, f: string, refs: seq<string>) returns (p': Progress)
      ensures p'.required == p.required && p'.prohibited == p.prohibited
      ensures p'.cached == p.cached + {TermField(w, f)}
      ensures forall r :: r in p'.matching <==>
                r in p.matching || exists d :: d in refs && r == ToString(FieldRef(d, f))
    {
      hide ToString;
      var matching := p.matching;
      for l := 0 to |refs|
        invariant forall r :: r in matching <==>
                    r in p.matching || exists d :: d in refs[..l] && r == ToString(FieldRef(d, f))
      {
        matching := matching + {ToString(FieldRef(refs[l], f))};
        assert forall d :: d in refs[..l + 1] <==> d in refs[..l] || d == refs[l];
      }
      assert refs[..|refs|] == refs;
      p' := p.(matching := matching, cached := p.cached + {TermField(w, f)});
    }

    /** The innermost step of query: one word in one of the clause's fields. */
    method AddPair(c: Clause, w: string, f: string, p: Progress, matches: Sets.Set,
                   ghost p0: Progress, ghost shown0: Pairs, ghost pairs: Pairs)
      returns (p': Progress, matches': Sets.Set)
      requires Agrees(tables) && w in tables.inverted && f in tables.fields
      requires Midway(tables, c, p0, shown0, p, matches, pairs)
      ensures Midway(tables, c, p0, shown0, p', matches', pairs + {(w, f)})
    {
      hide Shows, Keyed, Barred, Covers, HasField, Opened, ToString, TermField, Sets.Contains;
      var posting := tables.inverted[w];
      assert f in posting;
      var matchingDocumentRefs := Sets.Keys(posting[f]);
      var matchingDocumentsSet := Sets.New(matchingDocumentRefs);
      assert forall d :: Sets.Contains(matchingDocumentsSet, d) <==> Has(tables, w, f, d);
      ghost var pairs' := pairs + {(w, f)};
      forall d { CoversOneMore(tables, pairs, w, f, d); }
      OpenedOneMore(c, p0.required, p.required, pairs, w, f);
      p', matches' := p, matches;
      if c.presence.Required? {
        matches' := Sets.Union(matches', matchingDocumentsSet);
        if f !in p'.required { p' := p'.(required := p'.required[f := Sets.Complete]); }
      }
      if c.presence.Prohibited? {
        var before := if f in p'.prohibited then p'.prohibited[f] else Sets.Empty;
        var after := Sets.Union(before, matchingDocumentsSet);
        BarredGrows(p'.prohibited, f, before, after, posting[f]);
        p' := p'.(prohibited := p'.prohibited[f := after]);
        return;
      }
      ghost var shown := shown0 + pairs;
      assert shown0 + pairs' == shown + {(w, f)};
      assert Tallies(tables, p', shown);
      if TermField(w, f) in p'.cached {
        CachedIsShown(tables, p', shown, w, f);
        assert shown + {(w, f)} == shown;
        return;
      }
      var q := Collect(p', w, f, matchingDocumentRefs);
      MatchingGrows(tables, p', shown, w, f, q.matching, q.cached);
      assert q == p'.(matching := q.matching, cached := q.cached);
      p' := q;
    }

    /** The same under _index, for a prohibited clause: no documents are found there. */
    method AddNumber(c: Clause, w: string, p: Progress, matches: Sets.Set,
                     ghost p0: Progress, ghost shown0: Pairs, ghost pairs: Pairs) returns (p': Progress)
      requires Agrees(tables) && c.presence.Prohibited? && Midway(tables, c, p0, shown0, p, matches, pairs)
      ensures Midway(tables, c, p0, shown0, p', matches, pairs + {(w, INDEX)})
    {
      hide Sets.Contains;
      var matchingDocumentsSet := Sets.New([]);
      var before := if INDEX in p.prohibited then p.prohibited[INDEX] else Sets.Empty;
      NothingUnderIndex(tables, p, if c.presence.Prohibited? then shown0 else shown0 + pairs);
      var after := Sets.Union(before, matchingDocumentsSet);
      NumberKeepsMidway(tables, c, w, p0, shown0, p, matches, pairs, after);
      p' := p.(prohibited := p.prohibited[INDEX := after]);
    }

    /** All fields of the clause for one word; false for the TypeError of an unknown field. */
    method AddWord(c: Clause, w: string, p: Progress, matches: Sets.Set,
                   ghost p0: Progress, ghost shown0: Pairs, ghost pairs: Pairs)
      returns (ok: bool, p': Progress, matches': Sets.Set, ghost pairs': Pairs)
      requires Agrees(tables) && w in tables.inverted
      requires Midway(tables, c, p0, shown0, p, matches, pairs)
      ensures ok <==> forall f :: f in c.fields ==> CanTouch(tables, c, f)
      ensures ok ==> Midway(tables, c, p0, shown0, p', matches', pairs')
      ensures ok ==> forall v, f :: (v, f) in pairs' <==> (v, f) in pairs || (v == w && f in c.fields)
    {
      hide Midway;
      p', matches', pairs' := p, matches, pairs;
      for k := 0 to |c.fields|
        invariant forall f :: f in c.fields[..k] ==> CanTouch(tables, c, f)
        invariant Midway(tables, c, p0, shown0, p', matches', pairs')
        invariant forall v, f :: (v, f) in pairs' <==> (v, f) in pairs || (v == w && f in c.fields[..k])
      {
        var f := c.fields[k];
        assert f in c.fields;
        if f in tables.inverted[w] {
          p', matches' := AddPair(c, w, f, p', matches', p0, shown0, pairs');
        } else if f == INDEX && c.presence.Prohibited? {
          p' := AddNumber(c, w, p', matches', p0, shown0, pairs');
        } else {
          return false, p', matches', pairs';
        }
        pairs' := pairs' + {(w, f)};
        assert forall g :: g in c.fields[..k + 1] <==> g in c.fields[..k] || g == f;
      }
      assert c.fields[..|c.fields|] == c.fields;
      ok := true;
    }

    /** All words for one term of the clause; false for the TypeError. */
    method AddWords(c: Clause, words: seq<string>, p: Progress, matches: Sets.Set,
                    ghost p0: Progress, ghost shown0: Pairs, ghost pairs: Pairs)
      returns (ok: bool, p': Progress, matches': Sets.Set, ghost pairs': Pairs)
      requires Agrees(tables) && forall w :: w in words ==> w in tables.inverted
      requires Midway(tables, c, p0, shown0, p, matches, pairs)
      ensures ok <==> words == [] || forall f :: f in c.fields ==> CanTouch(tables, c, f)
      ensures ok ==> Midway(tables, c, p0, shown0, p', matches', pairs')
      ensures ok ==> forall v, f :: (v, f) in pairs' <==> (v, f) in pairs || (v in words && f in c.fields)
    {
      hide Midway;
      p', matches', pairs' := p, matches, pairs;
      for j := 0 to |words|
        invariant j > 0 ==> forall f :: f in c.fields ==> CanTouch(tables, c, f)
        invariant Midway(tables, c, p0, shown0, p', matches', pairs')
        invariant forall v, f :: (v, f) in pairs' <==> (v, f) in pairs || (v in words[..j] && f in c.fields)
      {
        ok, p', matches', pairs' := AddWord(c, words[j], p', matches', p0, shown0, pairs');
        if !ok { return; }
        assert forall v :: v in words[..j + 1] <==> v in words[..j] || v == words[j];
      }
      assert words[..|words|] == words;
      ok := true;
    }

    /** requiredMatches[field] = empty for every field of the clause */
    method Close(c: Clause, p: Progress) returns (p': Progress)
      ensures p' == p.(required := p'.required)
      ensures forall f :: f in p'.required <==> f in p.required || f in c.fields
      ensures forall f :: f in p'.required ==> p'.required[f] == if f in c.fields then Sets.Empty else p.required[f]
    {
      var required := p.required;
      for k := 0 to |c.fields|
        invariant forall f :: f in required <==> f in p.required || f in c.fields[..k]
        invariant forall f :: f in required ==> required[f] == if f in c.fields[..k] then Sets.Empty else p.required[f]
      {
        required := required[c.fields[k] := Sets.Empty];
        assert forall f :: f in c.fields[..k + 1] <==> f in c.fields[..k] || f == c.fields[k];
      }
      assert c.fields[..|c.fields|] == c.fields;
      p' := p.(required := required);
    }

    /** requiredMatches[field] = requiredMatches[field].intersect(clauseMatches); false for the
        TypeError of a set that was never grown. */
    method Narrow(c: Clause, p: Progress, matches: Sets.Set) returns (ok: bool, p': Progress)
      ensures ok <==> forall f :: f in c.fields ==> f in p.required
      ensures ok ==> p' == p.(required := p'.required) && p'.required.Keys == p.required.Keys
      ensures ok ==> forall f :: f in p.required ==> Restricts(p'.required[f], p.required[f], f in c.fields, matches)
    {
      var required := p.required;
      p' := p;
      for k := 0 to |c.fields|
        invariant forall f :: f in c.fields[..k] ==> f in p.required
        invariant required.Keys == p.required.Keys
        invariant forall f :: f in p.required ==> Restricts(required[f], p.required[f], f in c.fields[..k], matches)
      {
        var field := c.fields[k];
        assert field in c.fields;
        if field !in required { return false, p; }
        var narrowed := Sets.Intersect(required[field], matches);
        assert Restricts(narrowed, p.required[field], true, matches);
        required := required[field := narrowed];
        assert forall f :: f in c.fields[..k + 1] <==> f in c.fields[..k] || f == field;
      }
      assert c.fields[..|c.fields|] == c.fields;
      ok, p' := true, p.(required := required);
    }

    /** The terms of a clause, up to the first one nothing answers if the clause is required; before
        is the state when that one is met, and from then on all fields of the clause are closed. */
    method AddTerms(c: Clause, p: Progress, ids: IdSource, ghost shown: Pairs)
      returns (ending: Ending, p': Progress, matches: Sets.Set, ghost before: Progress, ghost ts: seq<string>,
               ghost pairs: Pairs)
      requires Valid() && Tallies(tables, p, shown)
      modifies ids
      ensures Valid()
      ensures ending.Failed? <==> TouchesUnknownField(tables, c)
      ensures !ending.Failed? ==> Ended(tables, c, p, shown, before, p', matches, ts, pairs, ending)
    {
      hide Accepts, Snapshot, Ranked, Agrees, Midway, Tallies, Expands, Barred, Opened, AllPaired;
      var terms := Terms(tables, c);
      matches, pairs := Sets.Empty, {};
      MidwayAtStart(tables, c, p, shown);
      p', before, ts := p, p, [];
      NoPairsYet(tables, c);
      for m := 0 to |terms|
        invariant Valid() && p' == before && ts == terms[..m]
        invariant Midway(tables, c, p, shown, before, matches, pairs) && AllPaired(tables, c, ts, pairs)
        invariant c.presence.Required? ==> forall t :: t in ts ==> !Barren(tables, c, t)
        invariant forall t, f :: t in ts && !Barren(tables, c, t) && f in c.fields ==> CanTouch(tables, c, f)
      {
        assert terms[..m + 1] == ts + [terms[m]];
        assert m > 0 ==> terms[0] in ts;
        var expandedTerms := ExpandTerm(c, terms[m], ids);
        BarrenIsEmpty(tables, c, terms[m], expandedTerms);
        if expandedTerms == [] && c.presence.Required? {
          p' := Close(c, p');
          return Stopped, p', matches, before, ts, pairs;
        }
        ghost var pairs0 := pairs;
        var ok;
        ok, p', matches, pairs := AddWords(c, expandedTerms, p', matches, p, shown, pairs);
        if !ok { return Failed, p', matches, before, ts, pairs; }
        PairedByOneMore(tables, c, ts, terms[m], pairs0, pairs);
        before, ts := p', terms[..m + 1];
      }
      ending := Done;
    }

    /** One clause of the query; false for a TypeError. */
    method AddClause(c: Clause, p: Progress, ids: IdSource, ghost shown: Pairs)
      returns (ok: bool, p': Progress, ghost shown': Pairs)
      requires Valid() && Tallies(tables, p, shown)
      modifies ids
      ensures Valid()
      ensures ok <==> !TouchesUnknownField(tables, c)
                      && (c.presence.Required? && Terms(tables, c) == [] ==>
                          forall f :: f in c.fields ==> f in p.required)
      ensures ok ==> Tallies(tables, p', shown') && Contributes(tables, c, shown, shown')
      ensures ok ==> forall d :: Barred(p'.prohibited, d) <==>
                Barred(p.prohibited, d) || (c.presence.Prohibited? && MatchesDoc(tables, c, d))
      ensures ok ==> Tightens(tables, c, p.required, p'.required)
    {
      hide Accepts, Snapshot, Ranked, Agrees, Midway, Tallies, Expands, Barred, Opened, AllPaired, Closes, Restricts,
           TouchesUnknownField, Contributes, Meets, MatchesDoc, NothingBarren;
      var ending, q, matches;
      ghost var before, ts, pairs;
      ending, q, matches, before, ts, pairs := AddTerms(c, p, ids, shown);
      p', shown' := q, if c.presence.Prohibited? then shown else shown + pairs;
      if ending.Failed? { return false, p', shown'; }
      ok := true;
      if c.presence.Required? {
        ok, p' := Narrow(c, q, matches);
        FieldsAreOpen(tables, c, p, shown, before, q, matches, ts, pairs, ending);
        if !ok { return; }
        ClauseTightens(tables, c, p, shown, before, q, matches, ts, pairs, ending, p'.required);
      }
      ClauseEnds(tables, c, p, shown, before, q, matches, ts, pairs, ending, p');
    }

    /** The loop over all clauses; false for a TypeError. */
    method AddClauses(cs: seq<Clause>, ids: IdSource) returns (ok: bool, p: Progress, ghost shown: Pairs)
      requires Valid()
      modifies ids
      ensures Valid()
      ensures !ok <==> Throws(tables, cs)
      ensures ok ==> Tallies(tables, p, shown) && ShownIs(tables, cs, shown)
      ensures ok ==> RequiredIs(tables, cs, p.required) && ProhibitedIs(tables, cs, p.prohibited)
    {
      hide Accepts, Snapshot, Ranked, Agrees, Tallies, ShownIs, RequiredIs, ProhibitedIs, Contributes, Tightens, Fails;
      p, shown := Progress(map[], map[], {}, {}), {};
      NothingYet(tables, p);
      for i := 0 to |cs|
        invariant Valid() && Tallies(tables, p, shown) && ShownIs(tables, cs[..i], shown)
        invariant RequiredIs(tables, cs[..i], p.required) && ProhibitedIs(tables, cs[..i], p.prohibited)
        invariant forall j :: 0 <= j < i ==> !Fails(tables, cs[..j], cs[j])
      {
        assert cs[..i + 1] == cs[..i] + [cs[i]];
        WhenAClauseFails(tables, cs[..i], cs[i], p.required);
        ghost var p0, shown0 := p, shown;
        ok, p, shown := AddClause(cs[i], p, ids, shown);
        if !ok { return; }
        RequiredStep(tables, cs[..i], cs[i], p0.required, p.required);
        ProhibitedStep(tables, cs[..i], cs[i], p0.prohibited, p.prohibited);
        ShownStep(tables, cs[..i], cs[i], shown0, shown);
      }
      assert cs[..|cs|] == cs;
      ok := true;
    }

    /** allRequiredMatches: what all fields of the index require. */
    method AllRequired(required: map<string, Sets.Set>) returns (all: Sets.Set)
      ensures forall d :: Sets.Contains(all, d) <==>
                forall f :: f in tables.fields && f in required ==> Sets.Contains(required[f], d)
    {
      all := Sets.Complete;
      for i := 0 to |tables.fields|
        invariant forall d :: Sets.Contains(all, d) <==>
                    forall f :: f in tables.fields[..i] && f in required ==> Sets.Contains(required[f], d)
      {
        var field := tables.fields[i];
        assert forall f :: f in tables.fields[..i + 1] <==> f in tables.fields[..i] || f == field;
        if field in required { all := Sets.Intersect(all, required[field]); }
      }
      assert tables.fields[..|tables.fields|] == tables.fields;
    }

    /** allProhibitedMatches: what some field of the index prohibits. */
    method AllProhibited(prohibited: map<string, Sets.Set>) returns (all: Sets.Set)
      requires forall f :: f in prohibited ==> f in tables.fields || Hollow(prohibited[f])
      ensures forall d :: Sets.Contains(all, d) <==> Barred(prohibited, d)
    {
      all := Sets.Empty;
      for i := 0 to |tables.fields|
        invariant forall d :: Sets.Contains(all, d) <==>
                    exists f :: f in tables.fields[..i] && f in prohibited && Sets.Contains(prohibited[f], d)
      {
        var field := tables.fields[i];
        assert forall f :: f in tables.fields[..i + 1] <==> f in tables.fields[..i] || f == field;
        if field in prohibited { all := Sets.Union(all, prohibited[field]); }
      }
      assert tables.fields[..|tables.fields|] == tables.fields;
    }

    /** The documents of the field references, each once, that pass both filters. */
    method Gather(refs: seq<string>, required: Sets.Set, prohibited: Sets.Set) returns (results: seq<string>)
      requires forall r :: r in refs ==> FieldRefs.FromString(r).Ref?
      ensures Enumeration.NoRepeats(results)
      ensures forall d :: d in results <==>
                ReferredTo(refs, d) && Sets.Contains(required, d) && !Sets.Contains(prohibited, d)
    {
      hide FieldRefs.FromString;
      results := [];
      var matches: set<string> := {};
      for i := 0 to |refs|
        invariant Enumeration.NoRepeats(results) && forall d :: d in matches <==> d in results
        invariant forall d :: d in results <==>
                    ReferredTo(refs[..i], d) && Sets.Contains(required, d) && !Sets.Contains(prohibited, d)
      {
        ReferredOneMore(refs, i);
        var docRef := FieldRefs.FromString(refs[i]).ref.docRef;
        if !Sets.Contains(required, docRef) { continue; }
        if Sets.Contains(prohibited, docRef) { continue; }
        if docRef !in matches {
          matches := matches + {docRef};
          results := results + [docRef];
        }
      }
      assert refs[..|refs|] == refs;
    }

    /** Query.isNegated */
    method IsNegated(cs: seq<Clause>) returns (negated: bool)
      ensures negated <==> Negated(cs)
    {
      for i := 0 to |cs|
        invariant forall c :: c in cs[..i] ==> c.presence.Prohibited?
      {
        assert cs[i] in cs;
        if !cs[i].presence.Prohibited? { return false; }
      }
      assert cs[..|cs|] == cs;
      negated := true;
    }

    /** A query throws exactly when some clause does, and otherwise returns each document the query
        asks for once. */
    method Query(cs: seq<Clause>, ids: IdSource) returns (outcome: Outcome)
      requires Valid()
      modifies ids
      ensures Valid()
      ensures outcome.TypeError? <==> Throws(tables, cs)
      ensures outcome.Results? ==> Enumeration.NoRepeats(outcome.docs)
      ensures outcome.Results? ==> forall d :: d in outcome.docs <==> Returned(tables, cs, d)
    {
      hide Accepts, Snapshot, Ranked, ShownIs, RequiredIs, ProhibitedIs, Throws, Returned, Sets.Contains, Barred,
           Negated, Shows, Keyed, Has;
      var ok, p;
      ghost var shown;
      ok, p, shown := AddClauses(cs, ids);
      if !ok { return TypeError; }
      var required := AllRequired(p.required);
      var prohibited := AllProhibited(p.prohibited);
      var refs := Sets.Keys(p.matching);
      var negated := IsNegated(cs);
      if negated { refs := Sets.Keys(tables.vectors); }
      MatchingIsWellFormed(tables, p, shown);
      var docs := Gather(refs, required, prohibited);
      forall d ensures d in docs <==> Returned(tables, cs, d) {
        CandidatesAreReturned(tables, cs, p, shown, d);
        assert ReferredTo(refs, d) <==> Candidate(tables, cs, p.matching, d);
      }
      outcome := Results(docs);
    }
  }
}
