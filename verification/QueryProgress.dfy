/** The state Index.query keeps while it goes through the clauses, and what it amounts to. */
module QueryProgress {
  import opened FieldRefs
  import opened QueryMeaning
  import Sets

  /** The objects query fills as it goes: requiredMatches, prohibitedMatches, and the keys of
      matchingFields and of termFieldCache. */
  datatype Progress = Progress(required: map<string, Sets.Set>, prohibited: map<string, Sets.Set>,
                               matching: set<string>, cached: set<string>)

  /** Pairs of a word and a field. */
  type Pairs = set<(string, string)>

  ghost predicate Covers(tb: Tables, pairs: Pairs, d: string) {
    exists w, f :: (w, f) in pairs && Has(tb, w, f, d)
  }

  ghost predicate Shows(tb: Tables, shown: Pairs, r: string) {
    exists w, f, d :: (w, f) in shown && Has(tb, w, f, d) && r == ToString(FieldRef(d, f))
  }

  ghost predicate Keyed(shown: Pairs, key: string) {
    exists w, f :: (w, f) in shown && key == TermField(w, f)
  }

  ghost predicate Barred(m: map<string, Sets.Set>, d: string) {
    exists f :: f in m && Sets.Contains(m[f], d)
  }

  /** matchingFields and the cache hold what the shown pairs say, no more and no less. */
  ghost predicate Tallies(tb: Tables, p: Progress, shown: Pairs) {
    && (forall w, f :: (w, f) in shown ==> w in tb.inverted && f in tb.fields)
    && (forall r :: r in p.matching <==> Shows(tb, shown, r))
    && (forall key :: key in p.cached <==> Keyed(shown, key))
    && (forall f :: f in p.prohibited ==> f in tb.fields || Hollow(p.prohibited[f]))
  }

  ghost predicate Hollow(s: Sets.Set) {
    forall d :: !Sets.Contains(s, d)
  }

  /** The state in the middle of clause c, begun in p0 with shown0; pairs are those of c so far. */
  ghost predicate Midway(tb: Tables, c: Clause, p0: Progress, shown0: Pairs, p: Progress, matches: Sets.Set,
                         pairs: Pairs) {
    && Tallies(tb, p, if c.presence.Prohibited? then shown0 else shown0 + pairs)
    && (forall d :: Sets.Contains(matches, d) <==> c.presence.Required? && Covers(tb, pairs, d))
    && (forall d :: Barred(p.prohibited, d) <==>
        Barred(p0.prohibited, d) || (c.presence.Prohibited? && Covers(tb, pairs, d)))
    && Opened(c, p0.required, p.required, pairs)
  }

  ghost predicate HasField(pairs: Pairs, f: string) {
    exists w :: (w, f) in pairs
  }

  /** A required clause opens a complete set for each field it meets. */
  ghost predicate Opened(c: Clause, r0: map<string, Sets.Set>, r: map<string, Sets.Set>, pairs: Pairs) {
    && (forall f :: f in r <==> f in r0 || (c.presence.Required? && HasField(pairs, f)))
    && (forall f :: f in r ==> r[f] == if f in r0 then r0[f] else Sets.Complete)
  }

  lemma MidwayAtStart(tb: Tables, c: Clause, p: Progress, shown: Pairs)
    requires Tallies(tb, p, shown)
    ensures Midway(tb, c, p, shown, p, Sets.Empty, {})
  {
    assert shown + {} == shown;
  }

  // ---------------------------------------------------------------- one word in one field

  /** The matching documents of one more pair enter matchingFields. */
  lemma MatchingGrows(tb: Tables, p: Progress, shown: Pairs, w: string, f: string, matching: set<string>,
                      cached: set<string>)
    requires Tallies(tb, p, shown) && w in tb.inverted && f in tb.fields
    requires forall r :: r in matching <==>
               r in p.matching || exists d :: Has(tb, w, f, d) && r == ToString(FieldRef(d, f))
    requires cached == p.cached + {TermField(w, f)}
    ensures Tallies(tb, p.(matching := matching, cached := cached), shown + {(w, f)})
  {
    var shown' := shown + {(w, f)};
    forall r ensures r in matching <==> Shows(tb, shown', r) {
      if Shows(tb, shown', r) {
        var w', f', d :| (w', f') in shown' && Has(tb, w', f', d) && r == ToString(FieldRef(d, f'));
        if (w', f') in shown { assert Shows(tb, shown, r); }
      }
      if r in p.matching {
        var w', f', d :| (w', f') in shown && Has(tb, w', f', d) && r == ToString(FieldRef(d, f'));
        assert (w', f') in shown';
      }
    }
    forall key ensures key in cached <==> Keyed(shown', key) {
      if key in p.cached {
        var w', f' :| (w', f') in shown && key == TermField(w', f');
        assert (w', f') in shown';
      }
      if Keyed(shown', key) {
        var w', f' :| (w', f') in shown' && key == TermField(w', f');
        if (w', f') in shown { assert Keyed(shown, key); }
      }
    }
  }

  /** What the cache skips has been dealt with: its keys are not ambiguous. */
  lemma CachedIsShown(tb: Tables, p: Progress, shown: Pairs, w: string, f: string)
    requires Agrees(tb) && Tallies(tb, p, shown) && f in tb.fields && TermField(w, f) in p.cached
    ensures (w, f) in shown
  {
    var w', f' :| (w', f') in shown && TermField(w, f) == TermField(w', f');
    TermFieldInjective(w, f, w', f');
  }

  lemma CoversOneMore(tb: Tables, pairs: Pairs, w: string, f: string, d: string)
    ensures Covers(tb, pairs + {(w, f)}, d) <==> Covers(tb, pairs, d) || Has(tb, w, f, d)
  {
    var pairs' := pairs + {(w, f)};
    if Covers(tb, pairs, d) {
      var w', f' :| (w', f') in pairs && Has(tb, w', f', d);
      assert (w', f') in pairs';
    }
    if Has(tb, w, f, d) { assert (w, f) in pairs'; }
    if Covers(tb, pairs', d) {
      var w', f' :| (w', f') in pairs' && Has(tb, w', f', d);
      if (w', f') in pairs { assert Covers(tb, pairs, d); }
    }
  }

  lemma OpenedOneMore(c: Clause, r0: map<string, Sets.Set>, r: map<string, Sets.Set>, pairs: Pairs, w: string,
                      f: string)
    requires Opened(c, r0, r, pairs)
    ensures var r' := if c.presence.Required? && f !in r then r[f := Sets.Complete] else r;
            Opened(c, r0, r', pairs + {(w, f)})
  {
    var pairs' := pairs + {(w, f)};
    forall g ensures HasField(pairs', g) <==> HasField(pairs, g) || g == f {
      if HasField(pairs, g) {
        var w' :| (w', g) in pairs;
        assert (w', g) in pairs';
      }
      if g == f { assert (w, g) in pairs'; }
    }
  }

  /** The prohibited documents of a field after a union. */
  lemma BarredGrows(m: map<string, Sets.Set>, f: string, before: Sets.Set, after: Sets.Set, docs: set<string>)
    requires before == if f in m then m[f] else Sets.Empty
    requires forall d :: Sets.Contains(after, d) <==> Sets.Contains(before, d) || d in docs
    ensures forall d :: Barred(m[f := after], d) <==> Barred(m, d) || d in docs
  {
    var m' := m[f := after];
    forall d ensures Barred(m', d) <==> Barred(m, d) || d in docs {
      if Barred(m, d) {
        var g :| g in m && Sets.Contains(m[g], d);
        assert g in m' && Sets.Contains(m'[g], d);
      }
      if d in docs { assert f in m' && Sets.Contains(m'[f], d); }
    }
  }

  // ---------------------------------------------------------------- one word under _index

  lemma NothingUnderIndex(tb: Tables, p: Progress, shown: Pairs)
    requires Agrees(tb) && Tallies(tb, p, shown)
    ensures Hollow(Sets.Empty) && (INDEX in p.prohibited ==> Hollow(p.prohibited[INDEX]))
  {
    hide Shows, Keyed;
    assert INDEX !in tb.fields;
  }

  /** An empty set under _index changes nothing a clause is about. */
  lemma NumberKeepsMidway(tb: Tables, c: Clause, w: string, p0: Progress, shown0: Pairs, p: Progress,
                          matches: Sets.Set, pairs: Pairs, after: Sets.Set)
    requires Agrees(tb) && c.presence.Prohibited? && Midway(tb, c, p0, shown0, p, matches, pairs)
    requires Hollow(after)
    ensures Midway(tb, c, p0, shown0, p.(prohibited := p.prohibited[INDEX := after]), matches, pairs + {(w, INDEX)})
  {
    hide Shows, Keyed, Barred, Covers, HasField, Opened, Agrees, Has, Sets.Contains;
    forall d ensures Covers(tb, pairs + {(w, INDEX)}, d) <==> Covers(tb, pairs, d) {
      NumberIsNoDocument(tb, w, d);
      CoversOneMore(tb, pairs, w, INDEX, d);
    }
    NothingUnderIndex(tb, p, shown0);
    OpenedOneMore(c, p0.required, p.required, pairs, w, INDEX);
    var before := if INDEX in p.prohibited then p.prohibited[INDEX] else Sets.Empty;
    BarredGrows(p.prohibited, INDEX, before, after, {});
  }

  lemma NumberIsNoDocument(tb: Tables, w: string, d: string)
    requires Agrees(tb)
    ensures !Has(tb, w, INDEX, d)
  {
    assert w in tb.inverted ==> (INDEX in tb.inverted[w] <==> INDEX in tb.fields);
  }

  // ---------------------------------------------------------------- one clause

  /** Paired, for the first terms of a clause only. */
  ghost predicate PairedBy(tb: Tables, c: Clause, ts: seq<string>, w: string, f: string) {
    f in c.fields && exists t :: t in ts && Expands(tb, c, t, w)
  }

  ghost predicate AllPaired(tb: Tables, c: Clause, ts: seq<string>, pairs: Pairs) {
    forall w, f :: (w, f) in pairs <==> PairedBy(tb, c, ts, w, f)
  }

  lemma PairedByOneMore(tb: Tables, c: Clause, ts: seq<string>, t: string, pairs: Pairs, pairs': Pairs)
    requires AllPaired(tb, c, ts, pairs)
    requires forall w, f :: (w, f) in pairs' <==> (w, f) in pairs || (Expands(tb, c, t, w) && f in c.fields)
    ensures AllPaired(tb, c, ts + [t], pairs')
  {
    forall w, f ensures (w, f) in pairs' <==> PairedBy(tb, c, ts + [t], w, f) {
      assert forall u :: u in ts + [t] <==> u in ts || u == t;
    }
  }

  lemma CoversIsMatch(tb: Tables, c: Clause, pairs: Pairs, d: string)
    requires AllPaired(tb, c, Terms(tb, c), pairs)
    ensures Covers(tb, pairs, d) <==> MatchesDoc(tb, c, d)
  {
    if Covers(tb, pairs, d) {
      var w, f :| (w, f) in pairs && Has(tb, w, f, d);
      assert Paired(tb, c, w, f);
    }
    if MatchesDoc(tb, c, d) {
      var w, f :| Paired(tb, c, w, f) && Has(tb, w, f, d);
      assert PairedBy(tb, c, Terms(tb, c), w, f);
    }
  }

  /** What a clause adds to the shown pairs: all of its own, unless it is prohibited or broken off. */
  ghost predicate Contributes(tb: Tables, c: Clause, shown: Pairs, shown': Pairs) {
    && shown <= shown'
    && (forall w, f :: (w, f) in shown' ==> (w, f) in shown || (!c.presence.Prohibited? && Paired(tb, c, w, f)))
    && (!c.presence.Prohibited? && (c.presence.Required? ==> NothingBarren(tb, c)) ==>
          forall w, f :: Paired(tb, c, w, f) ==> (w, f) in shown')
  }

  /** What a required clause does to requiredMatches: its fields now ask for it, too. */
  ghost predicate Tightens(tb: Tables, c: Clause, r: map<string, Sets.Set>, r': map<string, Sets.Set>) {
    if !c.presence.Required? then r' == r else
      && (forall f :: f in r' <==> f in r || f in c.fields)
      && (forall f :: f in r' ==> AsksToo(tb, c, f, if f in r then r[f] else Sets.Complete, r'[f]))
  }

  ghost predicate AsksToo(tb: Tables, c: Clause, f: string, s: Sets.Set, s': Sets.Set) {
    forall d :: Sets.Contains(s', d) <==> Sets.Contains(s, d) && (f in c.fields ==> Meets(tb, c, d))
  }

  lemma TightensAtTheEnd(tb: Tables, c: Clause, r: map<string, Sets.Set>, grown: map<string, Sets.Set>,
                         matches: Sets.Set, pairs: Pairs, r': map<string, Sets.Set>)
    requires c.presence.Required? && NothingBarren(tb, c) && AllPaired(tb, c, Terms(tb, c), pairs)
    requires Opened(c, r, grown, pairs) && r'.Keys == grown.Keys
    requires forall d :: Sets.Contains(matches, d) <==> Covers(tb, pairs, d)
    requires forall f :: f in c.fields ==> f in grown
    requires forall f :: f in grown ==> Restricts(r'[f], grown[f], f in c.fields, matches)
    ensures Tightens(tb, c, r, r')
  {
    hide Covers;
    forall d ensures Sets.Contains(matches, d) <==> Meets(tb, c, d) { CoversIsMatch(tb, c, pairs, d); }
    hide Meets;
    forall f ensures f in r' <==> f in r || f in c.fields {
      if HasField(pairs, f) {
        var w :| (w, f) in pairs;
        assert PairedBy(tb, c, Terms(tb, c), w, f);
      }
    }
  }

  lemma TightensWhenClosed(tb: Tables, c: Clause, t: string, r: map<string, Sets.Set>, grown: map<string, Sets.Set>,
                           matches: Sets.Set, ts: seq<string>, pairs: Pairs, closed: map<string, Sets.Set>,
                           r': map<string, Sets.Set>)
    requires c.presence.Required? && t in Terms(tb, c) && Barren(tb, c, t) && AllPaired(tb, c, ts, pairs)
    requires Opened(c, r, grown, pairs)
    requires forall f :: f in closed <==> f in grown || f in c.fields
    requires forall f :: f in closed ==> closed[f] == if f in c.fields then Sets.Empty else grown[f]
    requires r'.Keys == closed.Keys
    requires forall f :: f in closed ==> Restricts(r'[f], closed[f], f in c.fields, matches)
    ensures Tightens(tb, c, r, r')
  {
    assert !NothingBarren(tb, c);
    forall f ensures f in r' <==> f in r || f in c.fields {
      if HasField(pairs, f) {
        var w :| (w, f) in pairs;
        assert PairedBy(tb, c, ts, w, f);
      }
    }
  }

  /** How the loop over a clause's terms ends: at the end, by its break, or by a TypeError. */
  datatype Ending = Done | Stopped | Failed

  ghost predicate Closes(c: Clause, p: Progress, p': Progress) {
    && p' == p.(required := p'.required)
    && (forall f :: f in p'.required <==> f in p.required || f in c.fields)
    && (forall f :: f in p'.required ==> p'.required[f] == if f in c.fields then Sets.Empty else p.required[f])
  }

  lemma NoPairsYet(tb: Tables, c: Clause)
    ensures AllPaired(tb, c, [], {})
  {
  }

  lemma BarrenIsEmpty(tb: Tables, c: Clause, t: string, words: seq<string>)
    requires forall w :: w in words <==> Expands(tb, c, t, w)
    ensures Barren(tb, c, t) <==> words == []
    ensures forall w :: w in words ==> w in tb.inverted
  {
    if words != [] { assert words[0] in words; }
  }

  /** The state after a clause's terms, as AddTerms leaves it. */
  ghost predicate Ended(tb: Tables, c: Clause, p0: Progress, shown0: Pairs, before: Progress, q: Progress,
                        matches: Sets.Set, ts: seq<string>, pairs: Pairs, ending: Ending)
  {
    && Midway(tb, c, p0, shown0, before, matches, pairs) && AllPaired(tb, c, ts, pairs)
    && (ending.Done? ==> q == before && ts == Terms(tb, c) && (c.presence.Required? ==> NothingBarren(tb, c)))
    && (ending.Stopped? ==> c.presence.Required? && !NothingBarren(tb, c) && ts <= Terms(tb, c) && Closes(c, before, q))
    && !ending.Failed?
  }

  /** Narrowing finds every set open, unless the clause had no terms to open them. */
  lemma FieldsAreOpen(tb: Tables, c: Clause, p0: Progress, shown0: Pairs, before: Progress, q: Progress,
                      matches: Sets.Set, ts: seq<string>, pairs: Pairs, ending: Ending)
    requires c.presence.Required? && Ended(tb, c, p0, shown0, before, q, matches, ts, pairs, ending)
    ensures (forall f :: f in c.fields ==> f in q.required) <==>
            (Terms(tb, c) == [] ==> forall f :: f in c.fields ==> f in p0.required)
  {
    hide Covers, Tallies, Expands, Has;
    if Terms(tb, c) != [] && ending.Done? {
      var t := Terms(tb, c)[0];
      assert t in Terms(tb, c) && !Barren(tb, c, t);
      var w :| Expands(tb, c, t, w);
      forall f | f in c.fields ensures HasField(pairs, f) {
        assert PairedBy(tb, c, ts, w, f);
      }
    }
    if Terms(tb, c) == [] {
      forall f ensures !HasField(pairs, f) {
        forall w ensures (w, f) !in pairs { assert !PairedBy(tb, c, ts, w, f); }
      }
    }
  }

  lemma ClauseTightens(tb: Tables, c: Clause, p0: Progress, shown0: Pairs, before: Progress, q: Progress,
                       matches: Sets.Set, ts: seq<string>, pairs: Pairs, ending: Ending, r': map<string, Sets.Set>)
    requires c.presence.Required? && Ended(tb, c, p0, shown0, before, q, matches, ts, pairs, ending)
    requires r'.Keys == q.required.Keys && forall f :: f in c.fields ==> f in q.required
    requires forall f :: f in q.required ==> Restricts(r'[f], q.required[f], f in c.fields, matches)
    ensures Tightens(tb, c, p0.required, r')
  {
    hide Tallies, Covers, Restricts, Tightens, Opened, AllPaired, Barred;
    if ending.Done? {
      TightensAtTheEnd(tb, c, p0.required, q.required, matches, pairs, r');
    } else {
      var t :| t in Terms(tb, c) && Barren(tb, c, t);
      TightensWhenClosed(tb, c, t, p0.required, before.required, matches, ts, pairs, q.required, r');
    }
  }

  lemma ClauseEnds(tb: Tables, c: Clause, p0: Progress, shown0: Pairs, before: Progress, q: Progress, matches: Sets.Set,
                   ts: seq<string>, pairs: Pairs, ending: Ending, p': Progress)
    requires Ended(tb, c, p0, shown0, before, q, matches, ts, pairs, ending) && Tallies(tb, p0, shown0)
    requires p' == q.(required := p'.required)
    ensures var shown' := if c.presence.Prohibited? then shown0 else shown0 + pairs;
            Tallies(tb, p', shown') && Contributes(tb, c, shown0, shown')
    ensures forall d :: Barred(p'.prohibited, d) <==>
              Barred(p0.prohibited, d) || (c.presence.Prohibited? && MatchesDoc(tb, c, d))
    ensures !c.presence.Required? ==> q.required == p0.required
  {
    hide Covers, Shows, Keyed, Barred, Expands, Has, MatchesDoc, HasField;
    forall w, f | (w, f) in pairs ensures Paired(tb, c, w, f) {
      assert PairedBy(tb, c, ts, w, f);
    }
    if ending.Done? {
      forall w, f | Paired(tb, c, w, f) ensures (w, f) in pairs {
        assert PairedBy(tb, c, ts, w, f);
      }
      forall d { CoversIsMatch(tb, c, pairs, d); }
    }
  }

  /** The set x is a, or its intersection with b. */
  ghost predicate Restricts(x: Sets.Set, a: Sets.Set, both: bool, b: Sets.Set) {
    forall d :: Sets.Contains(x, d) <==> Sets.Contains(a, d) && (both ==> Sets.Contains(b, d))
  }

  // ---------------------------------------------------------------- all clauses

  ghost predicate Demanded(cs: seq<Clause>, f: string) {
    exists c :: c in cs && Demands(c, f)
  }

  ghost predicate AllMet(tb: Tables, cs: seq<Clause>, f: string, d: string) {
    forall c :: c in cs && Demands(c, f) ==> Meets(tb, c, d)
  }

  ghost predicate RequiredIs(tb: Tables, cs: seq<Clause>, r: map<string, Sets.Set>) {
    && (forall f :: f in r <==> Demanded(cs, f))
    && (forall f :: f in r ==> AsksFor(tb, cs, f, r[f]))
  }

  ghost predicate AsksFor(tb: Tables, cs: seq<Clause>, f: string, s: Sets.Set) {
    forall d :: Sets.Contains(s, d) <==> AllMet(tb, cs, f, d)
  }

  ghost predicate ProhibitedIs(tb: Tables, cs: seq<Clause>, m: map<string, Sets.Set>) {
    forall d :: Barred(m, d) <==> Prohibits(tb, cs, d)
  }

  ghost predicate Offered(tb: Tables, cs: seq<Clause>, w: string, f: string) {
    exists c :: c in cs && !c.presence.Prohibited? && Paired(tb, c, w, f)
  }

  /** The shown pairs are those of the clauses that are not prohibited; a required clause that was
      broken off may miss some. */
  ghost predicate ShownIs(tb: Tables, cs: seq<Clause>, shown: Pairs) {
    && (forall w, f :: (w, f) in shown ==> Offered(tb, cs, w, f))
    && (forall c, w, f :: c in cs && !c.presence.Prohibited?
                          && (c.presence.Required? ==> NothingBarren(tb, c)) && Paired(tb, c, w, f)
          ==> (w, f) in shown)
  }

  lemma InOneMore(cs: seq<Clause>, c: Clause)
    ensures forall e :: e in cs + [c] <==> e in cs || e == c
  {
  }

  lemma RequiredStep(tb: Tables, cs: seq<Clause>, c: Clause, r: map<string, Sets.Set>, r': map<string, Sets.Set>)
    requires RequiredIs(tb, cs, r) && Tightens(tb, c, r, r')
    ensures RequiredIs(tb, cs + [c], r')
  {
    hide Meets;
    InOneMore(cs, c);
    var cs' := cs + [c];
    forall f ensures f in r' <==> Demanded(cs', f) {
      if Demanded(cs, f) {
        var e :| e in cs && Demands(e, f);
        assert e in cs';
      }
      if Demanded(cs', f) && !Demanded(cs, f) { assert Demands(c, f); }
      if Demands(c, f) { assert c in cs'; }
    }
    forall f | f in r' ensures AsksFor(tb, cs', f, r'[f]) {
      forall d ensures Sets.Contains(r'[f], d) <==> AllMet(tb, cs', f, d) {
        assert AllMet(tb, cs', f, d) <==> AllMet(tb, cs, f, d) && (Demands(c, f) ==> Meets(tb, c, d));
        assert f !in r ==> AllMet(tb, cs, f, d);
        if c.presence.Required? {
          assert AsksToo(tb, c, f, if f in r then r[f] else Sets.Complete, r'[f]);
        }
      }
    }
  }

  lemma ProhibitedStep(tb: Tables, cs: seq<Clause>, c: Clause, m: map<string, Sets.Set>, m': map<string, Sets.Set>)
    requires ProhibitedIs(tb, cs, m)
    requires forall d :: Barred(m', d) <==> Barred(m, d) || (c.presence.Prohibited? && MatchesDoc(tb, c, d))
    ensures ProhibitedIs(tb, cs + [c], m')
  {
    hide MatchesDoc, Barred;
    InOneMore(cs, c);
    forall d ensures Prohibits(tb, cs + [c], d) <==>
        Prohibits(tb, cs, d) || (c.presence.Prohibited? && MatchesDoc(tb, c, d)) {
      if Prohibits(tb, cs, d) {
        var e :| e in cs && e.presence.Prohibited? && MatchesDoc(tb, e, d);
        assert e in cs + [c];
      }
      if c.presence.Prohibited? && MatchesDoc(tb, c, d) { assert c in cs + [c]; }
    }
  }

  lemma ShownStep(tb: Tables, cs: seq<Clause>, c: Clause, shown: Pairs, shown': Pairs)
    requires ShownIs(tb, cs, shown) && Contributes(tb, c, shown, shown')
    ensures ShownIs(tb, cs + [c], shown')
  {
    hide Paired, NothingBarren;
    InOneMore(cs, c);
    var cs' := cs + [c];
    forall w, f | (w, f) in shown' ensures Offered(tb, cs', w, f) {
      if (w, f) in shown {
        var e :| e in cs && !e.presence.Prohibited? && Paired(tb, e, w, f);
        assert e in cs';
      } else {
        assert c in cs';
      }
    }
  }

  /** Which field references are looked at for a query's results. */
  ghost predicate Candidate(tb: Tables, cs: seq<Clause>, matching: set<string>, d: string) {
    exists r :: r in (if Negated(cs) then tb.vectors else matching) && FromString(r).Ref?
        && FromString(r).ref.docRef == d
  }

  lemma NegatedCandidates(tb: Tables, cs: seq<Clause>, matching: set<string>, d: string)
    requires Agrees(tb) && Negated(cs)
    ensures Candidate(tb, cs, matching, d) <==> Indexed(tb, d)
  {
    if Candidate(tb, cs, matching, d) {
      var r :| r in tb.vectors && FromString(r).Ref? && FromString(r).ref.docRef == d;
      ReadThenWrite(r);
      assert r == ToString(FieldRef(d, FromString(r).ref.fieldName));
    }
    if Indexed(tb, d) {
      var f :| f in tb.fields && ToString(FieldRef(d, f)) in tb.vectors;
      RoundTrip(FieldRef(d, f));
    }
  }

  lemma PlainCandidates(tb: Tables, cs: seq<Clause>, p: Progress, shown: Pairs, d: string)
    requires Agrees(tb) && !Negated(cs) && Tallies(tb, p, shown)
    ensures Candidate(tb, cs, p.matching, d) <==> Covers(tb, shown, d)
  {
    if Candidate(tb, cs, p.matching, d) {
      var r :| r in p.matching && FromString(r).Ref? && FromString(r).ref.docRef == d;
      var w, f, e :| (w, f) in shown && Has(tb, w, f, e) && r == ToString(FieldRef(e, f));
      RoundTrip(FieldRef(e, f));
    }
    if Covers(tb, shown, d) {
      var w, f :| (w, f) in shown && Has(tb, w, f, d);
      RoundTrip(FieldRef(d, f));
      assert Shows(tb, shown, ToString(FieldRef(d, f)));
    }
  }

  /** A document that meets all demands was not lost by breaking off a clause. */
  lemma CoveredIsMatched(tb: Tables, cs: seq<Clause>, shown: Pairs, d: string)
    requires Agrees(tb) && ShownIs(tb, cs, shown)
    ensures Covers(tb, shown, d) ==> exists c :: c in cs && !c.presence.Prohibited? && MatchesDoc(tb, c, d)
    ensures (forall c, f :: c in cs && f in tb.fields && Demands(c, f) ==> Meets(tb, c, d)) ==>
              (exists c :: c in cs && !c.presence.Prohibited? && MatchesDoc(tb, c, d)) ==> Covers(tb, shown, d)
  {
    if Covers(tb, shown, d) {
      var w, f :| (w, f) in shown && Has(tb, w, f, d);
      var c :| c in cs && !c.presence.Prohibited? && Paired(tb, c, w, f);
      assert MatchesDoc(tb, c, d);
    }
    if (forall c, f :: c in cs && f in tb.fields && Demands(c, f) ==> Meets(tb, c, d))
       && exists c :: c in cs && !c.presence.Prohibited? && MatchesDoc(tb, c, d)
    {
      var c :| c in cs && !c.presence.Prohibited? && MatchesDoc(tb, c, d);
      var w, f :| Paired(tb, c, w, f) && Has(tb, w, f, d);
      assert c.presence.Required? ==> Demands(c, f);
    }
  }

  /** The candidates that are in all required sets and in no prohibited one are the answer. */
  lemma CandidatesAreReturned(tb: Tables, cs: seq<Clause>, p: Progress, shown: Pairs, d: string)
    requires Agrees(tb) && Tallies(tb, p, shown) && ShownIs(tb, cs, shown)
    requires RequiredIs(tb, cs, p.required) && ProhibitedIs(tb, cs, p.prohibited)
    ensures Returned(tb, cs, d) <==>
            Candidate(tb, cs, p.matching, d) && !Barred(p.prohibited, d)
            && forall f :: f in tb.fields && f in p.required ==> Sets.Contains(p.required[f], d)
  {
    hide Candidate, Covers, Meets, MatchesDoc, Agrees, Tallies, ShownIs, Barred, Sets.Contains;
    CoveredIsMatched(tb, cs, shown, d);
    if Negated(cs) { NegatedCandidates(tb, cs, p.matching, d); } else { PlainCandidates(tb, cs, p, shown, d); }
    if forall f :: f in tb.fields && f in p.required ==> Sets.Contains(p.required[f], d) {
      forall c, f | c in cs && f in tb.fields && Demands(c, f) ensures Meets(tb, c, d) {
        assert Demanded(cs, f) && AllMet(tb, cs, f, d);
      }
    }
  }

  lemma NothingYet(tb: Tables, p: Progress)
    requires p == Progress(map[], map[], {}, {})
    ensures Tallies(tb, p, {}) && ShownIs(tb, [], {}) && RequiredIs(tb, [], p.required)
              && ProhibitedIs(tb, [], p.prohibited)
  {
  }

  /** The sets opened by earlier clauses are those of the fields they demand. */
  lemma WhenAClauseFails(tb: Tables, cs: seq<Clause>, c: Clause, r: map<string, Sets.Set>)
    requires RequiredIs(tb, cs, r)
    ensures !Fails(tb, cs, c) <==>
            !TouchesUnknownField(tb, c)
            && (c.presence.Required? && Terms(tb, c) == [] ==> forall f :: f in c.fields ==> f in r)
  {
    hide TouchesUnknownField;
    forall f ensures f in r <==> exists e :: e in cs && Demands(e, f) {
      assert f in r <==> Demanded(cs, f);
    }
  }

  lemma MatchingIsWellFormed(tb: Tables, p: Progress, shown: Pairs)
    requires Agrees(tb) && Tallies(tb, p, shown)
    ensures forall r :: r in p.matching ==> FromString(r).Ref?
  {
    forall r | r in p.matching ensures FromString(r).Ref? {
      var w, f, d :| (w, f) in shown && Has(tb, w, f, d) && r == ToString(FieldRef(d, f));
      RoundTrip(FieldRef(d, f));
    }
  }
}
