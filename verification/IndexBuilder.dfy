/** lunr.Builder: documents go into an inverted index and a forward index; build makes vectors
    and an automaton of them and hands both to an Index. */
module IndexBuilder {
  import opened TokenGraph
  import opened FieldRefs
  import opened IndexBuilderTheory
  import TokenSets
  import TokenSetBuilder
  import BuilderFinish
  import Numbering
  import Minimization
  import QueryMeaning
  import Indexes
  import Vectors
  import Sets
  import Enumeration

  /** A field vector; Odd is the one whose only entry has an object for its index. */
  datatype FieldVector = Regular(vector: Vectors.Vector) | Odd(score: real)

  class Builder {
    var fields: seq<string>
    var documents: set<string>
    var documentCount: nat
    var inverted: map<string, Posting>
    var frequencies: map<string, map<string, nat>>
    var lengths: map<string, nat>
    var termIndex: nat

    /** The occurrences seen, the terms in the order of their numbers, and the documents added. */
    ghost var posted: Occurrences
    ghost var order: seq<string>
    ghost var added: seq<Document>

    ghost predicate Postings()
      reads this`fields, this`inverted, this`posted, this`order, this`termIndex
    {
      && (forall f :: f in fields ==> JOINER !in f)
      && Structure(fields, inverted, posted)
      && Numbered(fields, inverted, order) && termIndex == |order|
    }

    ghost predicate Sound()
      reads this`fields, this`inverted, this`posted, this`order, this`termIndex
    {
      Postings() && AllSeen(inverted.Keys, posted)
    }

    ghost predicate Valid()
      reads this
    {
      && Sound()
      && documentCount == |added| && (added == [] ==> inverted == map[])
      && PostedIs(added, fields, posted)
      && ForwardIs(added, fields, frequencies, lengths)
    }

    constructor ()
      ensures Valid() && fields == [] && added == []
    {
      fields, documents, documentCount := [], {}, 0;
      inverted, frequencies, lengths, termIndex := map[], map[], map[], 0;
      posted, order, added := {}, [], [];
    }

    /** All fields are to be named before the first document; false is the RangeError. */
    method Field(fieldName: string) returns (ok: bool)
      requires Valid() && added == []
      modifies this`fields
      ensures Valid()
      ensures ok <==> JOINER !in fieldName
      ensures forall f :: f in fields <==> f in old(fields) || (ok && f == fieldName)
    {
      if JOINER in fieldName { return false; }
      ghost var before := fields;
      if fieldName !in fields { fields := fields + [fieldName]; }
      forall r ensures ForwardAt(added, fields, frequencies, lengths, r) {
        assert ForwardAt(added, before, frequencies, lengths, r);
      }
      ok := true;
    }

    /** The posting of a term seen for the first time takes the next number. */
    method NewPosting(term: string)
      requires Postings() && term !in inverted
      modifies this`inverted, this`termIndex, this`order
      ensures Postings() && inverted.Keys == old(inverted.Keys) + {term}
    {
      hide AllSeen;
      var posting: Posting := map[INDEX := Number(termIndex)];
      ghost var order0, inverted0 := order, inverted;
      termIndex := termIndex + 1;
      for k := 0 to |fields|
        invariant INDEX in posting
                    && (if INDEX in fields[..k] then posting[INDEX].Documents? else posting[INDEX] == Number(|order0|))
        invariant forall f :: f in fields[..k] ==> f in posting && posting[f] == Documents({})
      {
        posting := posting[fields[k] := Documents({})];
      }
      assert fields[..|fields|] == fields;
      inverted := inverted[term := posting];
      order := order + [term];
    }

    /** One token of a field. */
    method AddTerm(term: string, fieldName: string, docRef: string)
      requires Sound() && fieldName in fields
      modifies this`inverted, this`termIndex, this`order, this`posted
      ensures Sound()
      ensures posted == old(posted) + {(term, fieldName, docRef)}
    {
      hide Structure, Numbered, AllSeen, Lists;
      AllSeenStill(inverted.Keys, posted, term, fieldName, docRef);
      if term !in inverted { NewPosting(term); }
      DocumentPosted(fields, inverted, posted, order, term, fieldName, docRef);
      var posting := inverted[term];
      posting := posting[fieldName := Documents(posting[fieldName].refs + {docRef})];
      inverted := inverted[term := posting];
      posted := posted + {(term, fieldName, docRef)};
      assert inverted.Keys == old(inverted.Keys) + {term};
    }

    /** fieldTerms[term] += 1, from 0 if there is none yet */
    method Count(fieldRef: string, term: string)
      requires fieldRef in frequencies
      modifies this`frequencies
      ensures frequencies == old(frequencies)[fieldRef := Increased(old(frequencies)[fieldRef], term)]
    {
      var fieldTerms := frequencies[fieldRef];
      if term !in fieldTerms { fieldTerms := fieldTerms[term := 0]; }
      fieldTerms := fieldTerms[term := fieldTerms[term] + 1];
      assert fieldTerms == Increased(frequencies[fieldRef], term);
      frequencies := frequencies[fieldRef := fieldTerms];
    }

    method AddTerms(fieldName: string, docRef: string, fieldRef: string, terms: seq<string>)
      requires Sound() && fieldName in fields && fieldRef in frequencies && frequencies[fieldRef] == map[]
      modifies this`inverted, this`termIndex, this`order, this`posted, this`frequencies
      ensures Sound() && Gains(old(posted), posted, fieldName, docRef, terms)
      ensures frequencies == old(frequencies)[fieldRef := Counts(terms)]
    {
      hide Sound, Counts, Increased, Gains;
      ghost var posted0, frequencies0 := posted, frequencies;
      NothingCounted();
      NothingGained(posted, fieldName, docRef);
      for j := 0 to |terms|
        invariant Sound() && Gains(posted0, posted, fieldName, docRef, terms[..j])
        invariant frequencies == frequencies0[fieldRef := Counts(terms[..j])]
      {
        assert terms[..j + 1] == terms[..j] + [terms[j]];
        CountsOneMore(terms[..j], terms[j]);
        GainsOneMore(posted0, posted, fieldName, docRef, terms[..j], terms[j]);
        Count(fieldRef, terms[j]);
        AddTerm(terms[j], fieldName, docRef);
      }
      assert terms[..|terms|] == terms;
    }

    /** One field of a document; the entries of the forward index are made first and then filled. */
    method AddField(fieldName: string, docRef: string, terms: seq<string>)
      requires Sound() && fieldName in fields
      modifies this`inverted, this`termIndex, this`order, this`posted, this`frequencies, this`lengths
      ensures Sound() && Gains(old(posted), posted, fieldName, docRef, terms)
      ensures frequencies == old(frequencies)[ToString(FieldRef(docRef, fieldName)) := Counts(terms)]
      ensures lengths == old(lengths)[ToString(FieldRef(docRef, fieldName)) := |terms|]
    {
      hide ToString, Sound, Counts, Gains;
      var fieldRef := ToString(FieldRef(docRef, fieldName));
      frequencies := frequencies[fieldRef := map[]];
      lengths := lengths[fieldRef := 0];
      lengths := lengths[fieldRef := lengths[fieldRef] + |terms|];
      AddTerms(fieldName, docRef, fieldRef, terms);
    }

    method Add(doc: Document)
      requires Valid()
      modifies this
      ensures Valid() && fields == old(fields) && added == old(added) + [doc]
      ensures forall f :: f in fields ==>
                var r, ts := f + "/" + doc.docRef, if f in doc.content then doc.content[f] else [];
                r in frequencies && frequencies[r] == Counts(ts) && r in lengths && lengths[r] == |ts|
    {
      hide Structure, Numbered, AllSeen, Counts, PostedIs, ForwardIs, TermsOf, ToString, FromString;
      ghost var posted0, frequencies0, lengths0 := posted, frequencies, lengths;
      documents := documents + {doc.docRef};
      documentCount := documentCount + 1;
      for i := 0 to |fields|
        invariant Sound() && fields == old(fields) && added == old(added) && documentCount == |added| + 1
        invariant forall t, f, d :: (t, f, d) in posted <==>
                    (t, f, d) in posted0 || (f in fields[..i] && d == doc.docRef && t in TermsOf(doc, f))
        invariant Replaced(fields[..i], frequencies0, lengths0, doc, frequencies, lengths)
      {
        ghost var frequencies1, lengths1 := frequencies, lengths;
        assert fields[..i + 1] == fields[..i] + [fields[i]];
        AddField(fields[i], doc.docRef, TermsOf(doc, fields[i]));
        ReplacedOneMore(fields[..i], fields[i], frequencies0, lengths0, doc, frequencies1, lengths1, frequencies,
                        lengths);
      }
      assert fields[..|fields|] == fields;
      PostedStep(added, fields, posted0, doc, posted);
      ForwardStep(added, fields, frequencies0, lengths0, doc, frequencies, lengths);
      added := added + [doc];
      forall f | f in fields
        ensures var r, ts := f + "/" + doc.docRef, if f in doc.content then doc.content[f] else [];
                r in frequencies && frequencies[r] == Counts(ts) && r in lengths && lengths[r] == |ts|
      {
        ForwardHasLast(added, fields, frequencies, lengths, doc, f);
      }
    }

    /** What a field vector holds once some terms are in it. */
    ghost predicate Filled(made: FieldVector, terms: set<string>, weight: string -> real)
      reads this`fields, this`order, if made.Regular? then {made.vector} else {}
    {
      if made.Odd? then
        INDEX in fields && exists t :: terms == {t} && made.score == weight(t)
      else
        && made.vector.Valid() && Weighs(made.vector.Contents(), terms, order, weight)
        && (INDEX in fields ==> terms == {} && made.vector.elements == [])
    }

    /** fieldVector.insert(termIndex, score).  A posting object for a number goes into an empty vector
        unseen; comparing it with an entry that is there already throws: then the result is false. */
    method InsertTerm(made: FieldVector, term: string, ghost done: set<string>, weight: string -> real)
      returns (ok: bool, made': FieldVector)
      requires Sound() && term in inverted && term !in done && Filled(made, done, weight)
      modifies if made.Regular? then {made.vector} else {}
      ensures ok <==> INDEX !in fields || done == {}
      ensures ok ==> Filled(made', done + {term}, weight)
      ensures made'.Regular? ==> made' == made
    {
      hide Structure, Weighs, At, Vectors.Meaning, Vectors.Ascending, Vectors.SumOfSquares;
      assert term in order;
      ghost var i :| 0 <= i < |order| && order[i] == term;
      if made.Odd? { return false, made; }
      var slot := inverted[term][INDEX];
      if slot.Documents? {
        assert made.vector.elements == [] && done + {term} == {term};
        return true, Odd(weight(term));
      }
      WeighsOneMore(made.vector.Contents(), done, order, weight, i);
      var thrown := made.vector.Insert(At(slot.n), weight(term));
      return true, made;
    }

    /** The vector of one field reference: one entry for each of its terms, under the term's number.
        False for the TypeError over a field called _index. */
    method MakeFieldVector(fieldRef: string, score: (string, string) -> real) returns (ok: bool, made: FieldVector)
      requires Valid() && fieldRef in frequencies
      ensures ok <==> INDEX !in fields || |frequencies[fieldRef]| <= 1
      ensures made.Regular? ==> fresh(made.vector)
      ensures ok ==> Filled(made, frequencies[fieldRef].Keys, WeightIn(score, fieldRef))
    {
      hide Structure, Numbered, AllSeen, PostedIs, ForwardIs, Weighs, Vectors.Meaning, Vectors.Ascending,
           Vectors.SumOfSquares, Vectors.Vector.Valid;
      CountedIsInverted(added, fields, inverted, posted, frequencies, lengths, fieldRef);
      var vector := new Vectors.Vector();
      made := Regular(vector);
      var weight := WeightIn(score, fieldRef);
      var terms := Sets.Keys(frequencies[fieldRef].Keys);
      NothingWeighs(order, weight);
      assert Numbering.WordsOf(terms[..0]) == {};
      Enumeration.ListedOnce(terms, frequencies[fieldRef].Keys);
      for j := 0 to |terms|
        invariant made.Regular? ==> made.vector == vector
        invariant INDEX in fields ==> j <= 1
        invariant Filled(made, Numbering.WordsOf(terms[..j]), weight)
      {
        assert terms[j] in terms && terms[j] in frequencies[fieldRef];
        ghost var done := Numbering.WordsOf(terms[..j]);
        assert Numbering.WordsOf(terms[..j + 1]) == done + {terms[j]};
        assert j > 0 ==> terms[0] in done;
        ok, made := InsertTerm(made, terms[j], done, weight);
        if !ok { return; }
      }
      assert Numbering.WordsOf(terms[..|terms|]) == frequencies[fieldRef].Keys;
      ok := true;
    }

    /** createFieldVectors: insert never meets a number twice, so "duplicate index" is never thrown;
        what may throw is a field called _index, as soon as some field of a document has two terms. */
    method CreateFieldVectors(score: (string, string) -> real)
      returns (ok: bool, fieldVectors: map<string, FieldVector>)
      requires Valid()
      ensures ok <==> INDEX !in fields || forall r :: r in frequencies ==> |frequencies[r]| <= 1
      ensures ok ==> fieldVectors.Keys == frequencies.Keys
      ensures ok ==> forall r :: r in fieldVectors ==> Filled(fieldVectors[r], frequencies[r].Keys, WeightIn(score, r))
      ensures ok && INDEX !in fields ==>
                forall r :: r in fieldVectors ==>
                  && fieldVectors[r].Regular? && fieldVectors[r].vector.Valid()
                  && Scores(fieldVectors[r].vector.Contents(), frequencies[r].Keys, inverted, t => score(r, t))
    {
      hide WeightIn, Builder.Filled, Builder.Valid, Scores;
      fieldVectors := map[];
      var fieldRefs := Sets.Keys(frequencies.Keys);
      for i := 0 to |fieldRefs|
        invariant forall r :: r in fieldVectors <==> r in fieldRefs[..i]
        invariant forall r :: r in fieldRefs[..i] ==> INDEX !in fields || |frequencies[r]| <= 1
        invariant forall r :: r in fieldVectors ==> Filled(fieldVectors[r], frequencies[r].Keys, WeightIn(score, r))
      {
        var fieldRef := fieldRefs[i];
        assert fieldRef in fieldRefs;
        var made;
        ok, made := MakeFieldVector(fieldRef, score);
        if !ok { return; }
        assert forall r :: r in fieldVectors ==> Filled(fieldVectors[r], frequencies[r].Keys, WeightIn(score, r));
        assert forall r :: r in fieldRefs[..i + 1] <==> r in fieldRefs[..i] || r == fieldRef;
        fieldVectors := fieldVectors[fieldRef := made];
      }
      assert fieldRefs[..|fieldRefs|] == fieldRefs;
      ok := true;
      if INDEX !in fields { FilledAreScored(fieldVectors, score); }
    }

    lemma FilledAreScored(fieldVectors: map<string, FieldVector>, score: (string, string) -> real)
      requires Valid() && INDEX !in fields && fieldVectors.Keys == frequencies.Keys
      requires forall r :: r in fieldVectors ==> Filled(fieldVectors[r], frequencies[r].Keys, WeightIn(score, r))
      ensures forall r :: r in fieldVectors ==>
                && fieldVectors[r].Regular? && fieldVectors[r].vector.Valid()
                && Scores(fieldVectors[r].vector.Contents(), frequencies[r].Keys, inverted, t => score(r, t))
    {
      hide WeightIn, Builder.Filled, Builder.Valid, Scores;
      forall r | r in fieldVectors
        ensures fieldVectors[r].Regular? && fieldVectors[r].vector.Valid()
        ensures Scores(fieldVectors[r].vector.Contents(), frequencies[r].Keys, inverted, t => score(r, t))
      {
        FilledIsScored(fieldVectors[r], frequencies[r].Keys, r, score);
      }
    }

    lemma FilledIsScored(made: FieldVector, terms: set<string>, r: string, score: (string, string) -> real)
      requires Valid() && INDEX !in fields && Filled(made, terms, WeightIn(score, r))
      ensures made.Regular? && made.vector.Valid()
      ensures Scores(made.vector.Contents(), terms, inverted, t => score(r, t))
    {
      hide Structure, Numbered, AllSeen, PostedIs, ForwardIs, Weighs, Scores, Vectors.Meaning, Vectors.Ascending;
      WeighsIsScores(made.vector.Contents(), terms, order, WeightIn(score, r), fields, inverted);
      SameScores(made.vector.Contents(), terms, inverted, score, r);
    }

    lemma SameScores(c: map<real, real>, terms: set<string>, inverted: map<string, Posting>,
                     score: (string, string) -> real, r: string)
      requires Scores(c, terms, inverted, WeightIn(score, r))
      ensures Scores(c, terms, inverted, t => score(r, t))
    {
      forall t | t in terms ensures ScoresTerm(c, t, inverted, t => score(r, t)) {
        assert ScoresTerm(c, t, inverted, WeightIn(score, r));
      }
    }

    /** createTokenSet: the automaton of all terms */
    method CreateTokenSet(ids: TokenSets.IdSource)
      returns (tokenSet: TokenSets.TokenSet, ghost nodes: set<TokenSets.TokenSet>,
               ghost rank: map<TokenSets.TokenSet, nat>)
      modifies ids
      ensures fresh(nodes) && tokenSet in nodes && Ranked(TokenSets.Snapshot(nodes), rank)
      ensures Numbering.Tellable(inverted.Keys, old(ids.nextId)) ==>
                forall w :: Accepts(TokenSets.Snapshot(nodes), tokenSet, w) <==> w in inverted
      ensures !Numbering.Tellable(inverted.Keys, old(ids.nextId)) ==>
                exists w :: w != "" && !(Accepts(TokenSets.Snapshot(nodes), tokenSet, w) <==> w in inverted)
    {
      hide TokenSets.Snapshot, Ranked, Accepts, Numbering.Telling, Numbering.Tellable, BuilderFinish.Minimal,
           BuilderFinish.Trim;
      var words := SortedKeys(inverted.Keys);
      assert Numbering.WordsOf(words) == inverted.Keys;
      Numbering.TellableList(words, ids.nextId);
      tokenSet, nodes, rank := TokenSetBuilder.FromArray(words, ids);
    }

    /** build: what the index answers is decided by the documents added; null stands for the TypeError
        over a field called _index.  With such a field an index may be built, but its postings have
        lost their numbers, so nothing is promised about querying it. */
    method Build(searchPipeline: (string, seq<string>) -> seq<string>, score: (string, string) -> real,
                 ids: TokenSets.IdSource)
      returns (index: Indexes.Index?)
      requires Valid()
      modifies ids
      ensures index != null <==> INDEX !in fields || forall r :: r in frequencies ==> |frequencies[r]| <= 1
      ensures index != null ==> Presents(index.tables, fields, posted, frequencies.Keys, searchPipeline)
      ensures INDEX !in fields ==> index != null && QueryMeaning.Agrees(index.tables)
      ensures INDEX !in fields ==> (index.Valid() <==> Numbering.Tellable(inverted.Keys, old(ids.nextId)))
    {
      hide Structure, Numbered, AllSeen, PostedIs, ForwardIs, Builder.Filled, Presents, TokenSets.Snapshot, Ranked,
           Accepts, Numbering.Tellable, QueryMeaning.Agrees;
      var ok, fieldVectors := CreateFieldVectors(score);
      if !ok { return null; }
      var tokenSet, nodes, rank := CreateTokenSet(ids);
      PostingsListDocuments(fields, inverted, posted);
      var tables := TablesOf(fields, inverted, frequencies.Keys, searchPipeline);
      TablesPresent(fields, inverted, posted, frequencies.Keys, searchPipeline);
      if INDEX !in fields {
        TablesAgree(added, fields, inverted, posted, frequencies, lengths, searchPipeline);
      }
      index := new Indexes.Index(tables, tokenSet, nodes, rank);
    }
  }

  /** Array.sort puts a word behind all that are not greater. */
  function Inserted(ks: seq<string>, w: string): (r: seq<string>)
    requires Numbering.InOrder(ks)
    ensures Numbering.InOrder(r) && forall v :: v in r <==> v in ks || v == w
    ensures r != [] && (r[0] == w || (ks != [] && r[0] == ks[0]))
  {
    if ks == [] then [w]
    else if Minimization.Before(w, ks[0]) then
      Numbering.BeforeIsOneWay(w, ks[0]);
      [w] + ks
    else
      [ks[0]] + Inserted(ks[1..], w)
  }

  method SortedKeys(s: set<string>) returns (words: seq<string>)
    ensures Numbering.InOrder(words)
    ensures forall w :: w in words <==> w in s
  {
    hide Numbering.InOrder, Inserted;
    words := [];
    var ks := Sets.Keys(s);
    NothingInOrder();
    for i := 0 to |ks|
      invariant Numbering.InOrder(words)
      invariant forall w :: w in words <==> w in ks[..i]
    {
      words := Inserted(words, ks[i]);
    }
    assert ks[..|ks|] == ks;
  }

  lemma NothingInOrder()
    ensures Numbering.InOrder([])
  {
  }
}
