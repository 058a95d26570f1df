/** What the inverted index of a lunr.Builder holds, in terms of the documents added to it. */
module IndexBuilderTheory {
  import opened FieldRefs
  import QueryMeaning

  /** A document as the tokenizer and the pipeline leave it: a reference and the terms of each field. */
  datatype Document = Document(docRef: string, content: map<string, seq<string>>)

  function TermsOf(doc: Document, f: string): seq<string> {
    if f in doc.content then doc.content[f] else []
  }

  /** A document without a field counts as one in which it is empty. */
  lemma TermsOfFields(doc: Document, f: string)
    ensures f in doc.content ==> TermsOf(doc, f) == doc.content[f]
    ensures f !in doc.content ==> TermsOf(doc, f) == []
  {
  }

  /** What a posting holds under a name: the number of the term under "_index", and the documents
      of a field under the field's name. */
  datatype Slot = Number(n: nat) | Documents(refs: set<string>)

  type Posting = map<string, Slot>

  const INDEX := QueryMeaning.INDEX

  /** Occurrences: term, field, document */
  type Occurrences = set<(string, string, string)>

  /** The posting of a term lists, under each field, the documents the term was seen in. */
  ghost predicate Lists(fields: seq<string>, t: string, posting: Posting, posted: Occurrences) {
    && INDEX in posting
    && forall f :: f in fields ==>
         f in posting && posting[f].Documents? && forall d :: d in posting[f].refs <==> (t, f, d) in posted
  }

  /** Each term seen has its posting. */
  ghost predicate Structure(fields: seq<string>, inverted: map<string, Posting>, posted: Occurrences) {
    && (forall t :: t in inverted ==> Lists(fields, t, inverted[t], posted))
    && (forall t, f, d :: (t, f, d) in posted ==> t in inverted && f in fields)
  }

  /** And no posting is of a term never seen. */
  ghost predicate AllSeen(terms: set<string>, posted: Occurrences) {
    forall t :: t in terms ==> Seen(t, posted)
  }

  ghost predicate Seen(t: string, posted: Occurrences) {
    exists f, d :: (t, f, d) in posted
  }

  lemma AllSeenStill(terms: set<string>, posted: Occurrences, t: string, f: string, d: string)
    requires AllSeen(terms, posted)
    ensures AllSeen(terms + {t}, posted + {(t, f, d)})
  {
    var posted' := posted + {(t, f, d)};
    assert (t, f, d) in posted';
    forall u | u in terms ensures Seen(u, posted') {
      var g, e :| (u, g, e) in posted;
      assert (u, g, e) in posted';
    }
  }

  /** The terms in the order of their numbers: _index numbers them 0, 1, ... without gap or
      repetition, unless a field is called _index. */
  ghost predicate Numbered(fields: seq<string>, inverted: map<string, Posting>, order: seq<string>) {
    && (forall t :: t in inverted <==> t in order)
    && (forall i, j :: 0 <= i < j < |order| ==> order[i] != order[j])
    && (forall t :: t in inverted ==> INDEX in inverted[t])
    && (INDEX !in fields ==> forall i :: 0 <= i < |order| ==> inverted[order[i]][INDEX] == Number(i))
    && (INDEX in fields ==> forall t :: t in inverted ==> inverted[t][INDEX].Documents?)
  }

  /** One more document under a field of a term's posting. */
  lemma DocumentPosted(fields: seq<string>, inverted: map<string, Posting>, posted: Occurrences, order: seq<string>,
                       t: string, f: string, d: string)
    requires Structure(fields, inverted, posted) && Numbered(fields, inverted, order) && t in inverted && f in fields
    ensures f in inverted[t] && inverted[t][f].Documents?
    ensures var inverted' := inverted[t := inverted[t][f := Documents(inverted[t][f].refs + {d})]];
            Structure(fields, inverted', posted + {(t, f, d)}) && Numbered(fields, inverted', order)
  {
    assert Lists(fields, t, inverted[t], posted);
    var posting := inverted[t][f := Documents(inverted[t][f].refs + {d})];
    var inverted', posted' := inverted[t := posting], posted + {(t, f, d)};
    forall u | u in inverted' ensures Lists(fields, u, inverted'[u], posted') {
      assert Lists(fields, u, inverted[u], posted);
    }
  }

  /** The terms of one field of a document, added to the occurrences. */
  ghost predicate Gains(posted: Occurrences, posted': Occurrences, f: string, d: string, ts: seq<string>) {
    forall t, g, e :: (t, g, e) in posted' <==> (t, g, e) in posted || (g == f && e == d && t in ts)
  }

  lemma NothingGained(posted: Occurrences, f: string, d: string)
    ensures Gains(posted, posted, f, d, [])
  {
  }

  lemma GainsOneMore(posted: Occurrences, posted': Occurrences, f: string, d: string, ts: seq<string>, t: string)
    requires Gains(posted, posted', f, d, ts)
    ensures Gains(posted, posted' + {(t, f, d)}, f, d, ts + [t])
  {
  }

  /** How often each term occurs. */
  function Counts(ts: seq<string>): map<string, nat> {
    map t | t in ts :: multiset(ts)[t]
  }

  ghost function Sum(m: map<string, nat>): nat {
    if m == map[] then 0 else
      var k :| k in m;
      m[k] + Sum(m - {k})
  }

  lemma {:induction false} SumWithout(m: map<string, nat>, k: string)
    requires k in m
    ensures Sum(m) == m[k] + Sum(m - {k})
  {
    var j :| j in m && Sum(m) == m[j] + Sum(m - {j});
    if j != k {
      SumWithout(m - {j}, k);
      SumWithout(m - {k}, j);
      assert m - {j} - {k} == m - {k} - {j};
    }
  }

  function Increased(m: map<string, nat>, t: string): map<string, nat> {
    m[t := (if t in m then m[t] else 0) + 1]
  }

  lemma CountsOneMore(ts: seq<string>, t: string)
    ensures Counts(ts + [t]) == Increased(Counts(ts), t)
  {
  }

  /** The frequencies of a field add up to its length. */
  lemma {:induction false} CountsSum(ts: seq<string>)
    ensures Sum(Counts(ts)) == |ts|
    decreases |ts|
  {
    if ts != [] {
      var ts', t := ts[..|ts| - 1], ts[|ts| - 1];
      assert ts == ts' + [t];
      CountsSum(ts');
      CountsOneMore(ts', t);
      SumWithout(Counts(ts), t);
      assert Counts(ts) - {t} == Counts(ts') - {t};
      if t in ts' {
        SumWithout(Counts(ts'), t);
      } else {
        assert Counts(ts') - {t} == Counts(ts');
      }
    }
  }

  // ---------------------------------------------------------------- history

  /** Documents added so far: the last one under a reference. */
  function Latest(added: seq<Document>, d: string): (r: seq<Document>)
    ensures |r| <= 1 && (r == [] <==> forall k :: 0 <= k < |added| ==> added[k].docRef != d)
    ensures r != [] ==> r[0] in added && r[0].docRef == d
  {
    if added == [] then []
    else if added[|added| - 1].docRef == d then [added[|added| - 1]]
    else Latest(added[..|added| - 1], d)
  }

  /** The inverted index remembers every version of a document. */
  ghost predicate PostedIs(added: seq<Document>, fields: seq<string>, posted: Occurrences) {
    forall t, f, d :: (t, f, d) in posted <==>
      f in fields && exists doc :: doc in added && doc.docRef == d && t in TermsOf(doc, f)
  }

  /** The words that occur in the indexed fields. */
  ghost function Vocabulary(added: seq<Document>, fields: seq<string>): set<string> {
    set doc, f, t | doc in added && f in fields && t in TermsOf(doc, f) :: t
  }

  lemma TermsAreVocabulary(added: seq<Document>, fields: seq<string>, inverted: map<string, Posting>,
                           posted: Occurrences)
    requires Structure(fields, inverted, posted) && AllSeen(inverted.Keys, posted) && PostedIs(added, fields, posted)
    ensures inverted.Keys == Vocabulary(added, fields)
  {
    forall t ensures t in inverted <==> t in Vocabulary(added, fields) {
      if t in inverted {
        assert Seen(t, posted);
        var f, d :| (t, f, d) in posted;
        var doc :| doc in added && doc.docRef == d && t in TermsOf(doc, f);
      }
      if t in Vocabulary(added, fields) {
        var doc, f :| doc in added && f in fields && t in TermsOf(doc, f);
        assert (t, f, doc.docRef) in posted;
      }
    }
  }

  /** The forward index knows the last one. */
  ghost predicate ForwardIs(added: seq<Document>, fields: seq<string>,
                            frequencies: map<string, map<string, nat>>, lengths: map<string, nat>)
  {
    forall r :: ForwardAt(added, fields, frequencies, lengths, r)
  }

  ghost predicate ForwardAt(added: seq<Document>, fields: seq<string>,
                            frequencies: map<string, map<string, nat>>, lengths: map<string, nat>, r: string)
  {
    var p := FromString(r);
    && (r in frequencies <==> p.Ref? && p.ref.fieldName in fields && Latest(added, p.ref.docRef) != [])
    && (r in lengths <==> r in frequencies)
    && (r in frequencies ==>
          var ts := TermsOf(Latest(added, p.ref.docRef)[0], p.ref.fieldName);
          frequencies[r] == Counts(ts) && lengths[r] == |ts|)
  }

  /** No field of a document as last added has two different terms. */
  ghost predicate OneTermEach(added: seq<Document>, fields: seq<string>) {
    forall d, f :: f in fields && Latest(added, d) != [] ==> OneTerm(TermsOf(Latest(added, d)[0], f))
  }

  ghost predicate OneTerm(ts: seq<string>) {
    forall t, u :: t in ts && u in ts ==> t == u
  }

  lemma CountsOfOneTerm(ts: seq<string>)
    ensures |Counts(ts)| <= 1 <==> OneTerm(ts)
  {
    var keys := Counts(ts).Keys;
    assert |Counts(ts)| == |keys|;
    if ts != [] {
      var rest := keys - {ts[0]};
      assert ts[0] in ts && keys == {ts[0]} + rest && |keys| == 1 + |rest|;
      if OneTerm(ts) { assert rest == {}; }
      if |keys| <= 1 {
        assert rest == {};
        forall t | t in ts ensures t == ts[0] { assert t in keys; }
      }
    }
  }

  lemma VectorsOfOneTerm(added: seq<Document>, fields: seq<string>,
                         frequencies: map<string, map<string, nat>>, lengths: map<string, nat>)
    requires ForwardIs(added, fields, frequencies, lengths) && forall f :: f in fields ==> JOINER !in f
    ensures (forall r :: r in frequencies ==> |frequencies[r]| <= 1) <==> OneTermEach(added, fields)
  {
    hide Counts, TermsOf, OneTerm, FromString, ToString;
    if forall r :: r in frequencies ==> |frequencies[r]| <= 1 {
      forall d, f | f in fields && Latest(added, d) != [] ensures OneTerm(TermsOf(Latest(added, d)[0], f)) {
        var r := ToString(FieldRef(d, f));
        RoundTrip(FieldRef(d, f));
        assert ForwardAt(added, fields, frequencies, lengths, r);
        CountsOfOneTerm(TermsOf(Latest(added, d)[0], f));
      }
    }
    if OneTermEach(added, fields) {
      forall r | r in frequencies ensures |frequencies[r]| <= 1 {
        assert ForwardAt(added, fields, frequencies, lengths, r);
        var p := FromString(r).ref;
        CountsOfOneTerm(TermsOf(Latest(added, p.docRef)[0], p.fieldName));
      }
    }
  }

  /** With a field called _index, a document with the one term "hello" in it can be built into an
      index, one with two terms cannot. */
  lemma IndexFieldExamples()
    ensures OneTermEach([Document("d", map[INDEX := ["hello"]])], [INDEX])
    ensures !OneTermEach([Document("d", map[INDEX := ["hello", "world"]])], [INDEX])
  {
    var one, two := Document("d", map[INDEX := ["hello"]]), Document("d", map[INDEX := ["hello", "world"]]);
    assert [one][..0] == [];
    assert forall d :: Latest([one], d) == if d == "d" then [one] else [];
    assert Latest([two], "d") == [two];
    var ts := TermsOf(Latest([two], "d")[0], INDEX);
    assert ts == ["hello", "world"] && "hello" in ts && "world" in ts && "hello"[0] != "world"[0];
    assert INDEX in [INDEX] && !OneTerm(ts);
  }

  /** How often a term occurs in a field of a document, as the forward index has it. */
  function Frequency(frequencies: map<string, map<string, nat>>, t: string, f: string, d: string): nat {
    var r := ToString(FieldRef(d, f));
    if r in frequencies && t in frequencies[r] then frequencies[r][t] else 0
  }

  /** A field of a document is up to date: no earlier version had a term the last one lacks. */
  ghost predicate UpToDate(added: seq<Document>, f: string, d: string) {
    forall doc, t :: doc in added && doc.docRef == d && t in TermsOf(doc, f) ==> t in TermsOf(Latest(added, d)[0], f)
  }

  /** Inverted and forward index agree on a field of a document exactly if it is up to date. */
  lemma IndexesAgree(added: seq<Document>, fields: seq<string>, posted: Occurrences,
                     frequencies: map<string, map<string, nat>>, lengths: map<string, nat>, f: string, d: string)
    requires PostedIs(added, fields, posted) && ForwardIs(added, fields, frequencies, lengths)
    requires f in fields && JOINER !in f && Latest(added, d) != []
    ensures (forall t :: (t, f, d) in posted <==> Frequency(frequencies, t, f, d) > 0) <==> UpToDate(added, f, d)
  {
    RoundTrip(FieldRef(d, f));
    var r := ToString(FieldRef(d, f));
    var last := Latest(added, d)[0];
    assert ForwardAt(added, fields, frequencies, lengths, r);
    forall t ensures Frequency(frequencies, t, f, d) > 0 <==> t in TermsOf(last, f) {}
    assert forall t :: t in TermsOf(last, f) ==> (t, f, d) in posted;
    if forall t :: (t, f, d) in posted <==> Frequency(frequencies, t, f, d) > 0 {
      forall doc, t | doc in added && doc.docRef == d && t in TermsOf(doc, f) ensures t in TermsOf(last, f) {
        assert (t, f, d) in posted;
      }
    }
  }

  /** Documents with distinct references are up to date. */
  lemma {:induction false} DistinctIsUpToDate(added: seq<Document>, f: string, d: string)
    requires forall i, j :: 0 <= i < j < |added| ==> added[i].docRef != added[j].docRef
    ensures UpToDate(added, f, d)
  {
    if Latest(added, d) != [] {
      var last := Latest(added, d)[0];
      forall doc | doc in added && doc.docRef == d ensures doc == last {}
    }
  }

  lemma PostedStep(added: seq<Document>, fields: seq<string>, posted: Occurrences, doc: Document, posted': Occurrences)
    requires PostedIs(added, fields, posted)
    requires forall t, f, d :: (t, f, d) in posted' <==>
               (t, f, d) in posted || (f in fields && d == doc.docRef && t in TermsOf(doc, f))
    ensures PostedIs(added + [doc], fields, posted')
  {
    hide TermsOf;
    assert forall e :: e in added + [doc] <==> e in added || e == doc;
  }

  /** The reference of one of the fields of a document. */
  ghost predicate Own(fields: seq<string>, doc: Document, r: string) {
    var p := FromString(r);
    p.Ref? && p.ref.docRef == doc.docRef && p.ref.fieldName in fields
  }

  /** The entries under a field reference after one more document. */
  ghost predicate ReplacedAt(fields: seq<string>, frequencies: map<string, map<string, nat>>, lengths: map<string, nat>,
                             doc: Document, frequencies': map<string, map<string, nat>>, lengths': map<string, nat>,
                             r: string)
  {
    if Own(fields, doc, r) then
      && r in frequencies' && r in lengths'
      && var ts := TermsOf(doc, FromString(r).ref.fieldName);
         frequencies'[r] == Counts(ts) && lengths'[r] == |ts|
    else
      && (r in frequencies' <==> r in frequencies) && (r in lengths' <==> r in lengths)
      && (r in frequencies ==> frequencies'[r] == frequencies[r])
      && (r in lengths ==> lengths'[r] == lengths[r])
  }

  ghost predicate Replaced(fields: seq<string>, frequencies: map<string, map<string, nat>>, lengths: map<string, nat>,
                           doc: Document, frequencies': map<string, map<string, nat>>, lengths': map<string, nat>)
  {
    forall r :: ReplacedAt(fields, frequencies, lengths, doc, frequencies', lengths', r)
  }

  lemma ForwardStep(added: seq<Document>, fields: seq<string>, frequencies: map<string, map<string, nat>>,
                    lengths: map<string, nat>, doc: Document,
                    frequencies': map<string, map<string, nat>>, lengths': map<string, nat>)
    requires ForwardIs(added, fields, frequencies, lengths)
    requires Replaced(fields, frequencies, lengths, doc, frequencies', lengths')
    ensures ForwardIs(added + [doc], fields, frequencies', lengths')
  {
    hide Counts, TermsOf, FromString;
    var added' := added + [doc];
    assert added'[..|added|] == added;
    forall r ensures ForwardAt(added', fields, frequencies', lengths', r) {
      assert ForwardAt(added, fields, frequencies, lengths, r);
      assert ReplacedAt(fields, frequencies, lengths, doc, frequencies', lengths', r);
    }
  }

  lemma NothingCounted()
    ensures Counts([]) == map[]
  {
  }

  /** What the forward index has for the document added last. */
  lemma ForwardHasLast(added: seq<Document>, fields: seq<string>,
                       frequencies: map<string, map<string, nat>>, lengths: map<string, nat>, doc: Document, f: string)
    requires ForwardIs(added, fields, frequencies, lengths) && f in fields && JOINER !in f
    requires added != [] && added[|added| - 1] == doc
    ensures var r, ts := f + "/" + doc.docRef, if f in doc.content then doc.content[f] else [];
            r in frequencies && frequencies[r] == Counts(ts) && r in lengths && lengths[r] == |ts|
  {
    hide Counts, FromString;
    RoundTrip(FieldRef(doc.docRef, f));
    TermsOfFields(doc, f);
    assert ForwardAt(added, fields, frequencies, lengths, ToString(FieldRef(doc.docRef, f)));
  }

  lemma ReplacedOneMore(fields: seq<string>, f: string, frequencies: map<string, map<string, nat>>,
                        lengths: map<string, nat>, doc: Document,
                        frequencies1: map<string, map<string, nat>>, lengths1: map<string, nat>,
                        frequencies': map<string, map<string, nat>>, lengths': map<string, nat>)
    requires JOINER !in f && Replaced(fields, frequencies, lengths, doc, frequencies1, lengths1)
    requires var r := ToString(FieldRef(doc.docRef, f));
             var ts := TermsOf(doc, f);
             frequencies' == frequencies1[r := Counts(ts)] && lengths' == lengths1[r := |ts|]
    ensures Replaced(fields + [f], frequencies, lengths, doc, frequencies', lengths')
  {
    hide Counts, TermsOf, FromString;
    RoundTrip(FieldRef(doc.docRef, f));
    var fields' := fields + [f];
    assert forall g :: g in fields' <==> g in fields || g == f;
    forall r ensures ReplacedAt(fields', frequencies, lengths, doc, frequencies', lengths', r) {
      assert ReplacedAt(fields, frequencies, lengths, doc, frequencies1, lengths1, r);
      ReadThenWrite(r);
    }
  }

  /** Every term the forward index counts has a posting. */
  lemma CountedIsInverted(added: seq<Document>, fields: seq<string>, inverted: map<string, Posting>,
                          posted: Occurrences, frequencies: map<string, map<string, nat>>,
                          lengths: map<string, nat>, r: string)
    requires Structure(fields, inverted, posted) && PostedIs(added, fields, posted)
    requires ForwardIs(added, fields, frequencies, lengths) && r in frequencies
    ensures frequencies[r].Keys <= inverted.Keys
  {
    assert ForwardAt(added, fields, frequencies, lengths, r);
    var p := FromString(r).ref;
    var last := Latest(added, p.docRef)[0];
    forall t | t in frequencies[r] ensures t in inverted {
      assert t in TermsOf(last, p.fieldName);
      assert (t, p.fieldName, p.docRef) in posted;
    }
  }

  // ---------------------------------------------------------------- vectors

  /** A term's number as the index of a vector. */
  function At(i: nat): real { i as real }

  lemma AtInjective(i: nat, j: nat)
    ensures At(i) == At(j) <==> i == j
  {
  }

  /** x is the index of one of the terms. */
  ghost predicate IndexOfSome(x: real, terms: set<string>, order: seq<string>) {
    exists i :: 0 <= i < |order| && order[i] in terms && x == At(i)
  }

  /** A vector's map has the weight of each of the terms under the term's number, and nothing else. */
  ghost predicate Weighs(c: map<real, real>, terms: set<string>, order: seq<string>, weight: string -> real) {
    && (forall t :: t in terms ==> t in order)
    && (forall i :: 0 <= i < |order| && order[i] in terms ==> At(i) in c && c[At(i)] == weight(order[i]))
    && (forall x :: x in c ==> IndexOfSome(x, terms, order))
  }

  /** The same, said with the numbers in the postings: one entry for each term, under its number. */
  ghost predicate Scores(c: map<real, real>, terms: set<string>, inverted: map<string, Posting>,
                         weight: string -> real) {
    && (forall t :: t in terms ==> ScoresTerm(c, t, inverted, weight))
    && (forall x :: x in c ==> exists t :: t in terms && HasNumber(inverted, t, x))
  }

  ghost predicate HasNumber(inverted: map<string, Posting>, t: string, x: real) {
    t in inverted && "_index" in inverted[t] && inverted[t]["_index"].Number? && x == inverted[t]["_index"].n as real
  }

  ghost predicate ScoresTerm(c: map<real, real>, t: string, inverted: map<string, Posting>, weight: string -> real) {
    exists x :: x in c && HasNumber(inverted, t, x) && c[x] == weight(t)
  }

  lemma WeighsIsScores(c: map<real, real>, terms: set<string>, order: seq<string>, weight: string -> real,
                       fields: seq<string>, inverted: map<string, Posting>)
    requires Weighs(c, terms, order, weight) && Numbered(fields, inverted, order) && INDEX !in fields
    ensures Scores(c, terms, inverted, weight)
  {
    forall t | t in terms ensures ScoresTerm(c, t, inverted, weight) {
      var i :| 0 <= i < |order| && order[i] == t;
      assert HasNumber(inverted, t, At(i));
    }
    forall x | x in c ensures exists t :: t in terms && HasNumber(inverted, t, x) {
      assert IndexOfSome(x, terms, order);
      var i :| 0 <= i < |order| && order[i] in terms && x == At(i);
      assert HasNumber(inverted, order[i], x);
    }
  }

  /** The score of each term in one field of one document. */
  function WeightIn(score: (string, string) -> real, fieldRef: string): string -> real {
    t => score(fieldRef, t)
  }

  lemma NothingWeighs(order: seq<string>, weight: string -> real)
    ensures Weighs(map[], {}, order, weight)
  {
  }

  /** Numbers are not given twice, so the next term's is not in the vector yet. */
  lemma WeighsOneMore(c: map<real, real>, terms: set<string>, order: seq<string>, weight: string -> real, i: nat)
    requires Weighs(c, terms, order, weight) && i < |order| && order[i] !in terms
    requires forall i, j :: 0 <= i < j < |order| ==> order[i] != order[j]
    ensures At(i) !in c
    ensures Weighs(c[At(i) := weight(order[i])], terms + {order[i]}, order, weight)
  {
    hide At;
    var c', terms' := c[At(i) := weight(order[i])], terms + {order[i]};
    forall j | 0 <= j < |order| { AtInjective(i, j); }
    forall x | x in c' ensures IndexOfSome(x, terms', order) {
      if x in c {
        var j :| 0 <= j < |order| && order[j] in terms && x == At(j);
        assert order[j] in terms';
      } else {
        assert order[i] in terms';
      }
    }
  }

  // ---------------------------------------------------------------- what the index gets

  ghost predicate ListsDocuments(fields: seq<string>, inverted: map<string, Posting>) {
    forall t, f :: t in inverted && f in fields ==> f in inverted[t] && inverted[t][f].Documents?
  }

  lemma PostingsListDocuments(fields: seq<string>, inverted: map<string, Posting>, posted: Occurrences)
    requires Structure(fields, inverted, posted)
    ensures ListsDocuments(fields, inverted)
  {
    forall t, f | t in inverted && f in fields ensures f in inverted[t] && inverted[t][f].Documents? {
      assert Lists(fields, t, inverted[t], posted);
    }
  }

  /** The documents under each field of each posting. */
  function PostingsOf(fields: seq<string>, inverted: map<string, Posting>): map<string, map<string, set<string>>>
    requires ListsDocuments(fields, inverted)
  {
    map t | t in inverted :: map f | f in fields :: inverted[t][f].refs
  }

  function TablesOf(fields: seq<string>, inverted: map<string, Posting>, vectors: set<string>,
                    pipeline: (string, seq<string>) -> seq<string>): QueryMeaning.Tables
    requires ListsDocuments(fields, inverted)
  {
    QueryMeaning.Tables(PostingsOf(fields, inverted), vectors, fields, pipeline)
  }

  /** An index's tables say what occurrences there are, and nothing else. */
  ghost predicate Presents(tb: QueryMeaning.Tables, fields: seq<string>, posted: Occurrences, vectors: set<string>,
                           pipeline: (string, seq<string>) -> seq<string>)
  {
    && tb.fields == fields && tb.pipeline == pipeline && tb.vectors == vectors
    && forall t, f, d :: QueryMeaning.Has(tb, t, f, d) <==> (t, f, d) in posted
  }

  lemma TablesPresent(fields: seq<string>, inverted: map<string, Posting>, posted: Occurrences, vectors: set<string>,
                      pipeline: (string, seq<string>) -> seq<string>)
    requires Structure(fields, inverted, posted) && ListsDocuments(fields, inverted)
    ensures Presents(TablesOf(fields, inverted, vectors, pipeline), fields, posted, vectors, pipeline)
  {
    forall t, f, d
      ensures QueryMeaning.Has(TablesOf(fields, inverted, vectors, pipeline), t, f, d) <==> (t, f, d) in posted
    {
      if t in inverted { assert Lists(fields, t, inverted[t], posted); }
    }
  }

  lemma TablesAgree(added: seq<Document>, fields: seq<string>, inverted: map<string, Posting>, posted: Occurrences,
                    frequencies: map<string, map<string, nat>>, lengths: map<string, nat>,
                    pipeline: (string, seq<string>) -> seq<string>)
    requires forall f :: f in fields ==> JOINER !in f && f != INDEX
    requires Structure(fields, inverted, posted) && ListsDocuments(fields, inverted)
    requires PostedIs(added, fields, posted) && ForwardIs(added, fields, frequencies, lengths)
    ensures QueryMeaning.Agrees(TablesOf(fields, inverted, frequencies.Keys, pipeline))
  {
    hide Counts;
    var tb := TablesOf(fields, inverted, frequencies.Keys, pipeline);
    TablesPresent(fields, inverted, posted, frequencies.Keys, pipeline);
    forall w, f, d | QueryMeaning.Has(tb, w, f, d) ensures ToString(FieldRef(d, f)) in frequencies {
      assert (w, f, d) in posted;
      RoundTrip(FieldRef(d, f));
      assert ForwardAt(added, fields, frequencies, lengths, ToString(FieldRef(d, f)));
    }
    forall r | r in frequencies ensures FromString(r).Ref? && FromString(r).ref.fieldName in fields {
      assert ForwardAt(added, fields, frequencies, lengths, r);
    }
  }
}
