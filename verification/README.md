# Verified models of the configurator repository

Dafny models of the three parts of the repository whose behaviour is not visible from any one
function, with proofs of what they promise.

**The lunr search engine of the documentation site** (`docs/_site/assets/js/lunr/lunr.js`).
`lunr.TokenSet.Builder` folds sorted words into an automaton, `fromString` and `fromFuzzyString`
compile query terms into automata, `intersect` multiplies the two with a work stack and `toArray`
lists the result. `TokenGraph` to `TermExpansion` prove these steps, on mutable node objects, against
the languages of the automata, and end in one statement about word lists and patterns; `Numbering`
and the `Builder` modules settle exactly which word lists the builder gets right. `FieldRef`,
`Set`, `QueryMeaning`, `QueryProgress` and `Index` do the same for `Index.query`: what it returns is
the boolean reading of the clauses, and it throws in exactly two ways. `IndexBuilder` adds documents,
numbers terms, builds the field vectors and hands over to `Index`; `SearchMeaning` then speaks of
documents and words only. `QueryLexer` and `QueryParser` are the two state machines in front,
`QueryText` writes queries for them to read back, `QueryErrors` says where they are rejected, and
`Search` joins it all: building an index of documents, and searching it with a query string. `Vector`
is the sparse vector kept as a flat list.

**The ConfigMap and Secret version protocol** (`controllers/core`). `VersionStore` is an abstract
store: an append-only log of versions, the marks "current" and "latest", the ConfigMap.
`VersionProtocol` proves what holds over all runs of user steps and reconciles.
`ConfigMapReconciler` has the controller's lists, gets, updates and creates as separate requests to a
server with optimistic concurrency and proves that each reconcile amounts to one abstract step.
`SecretRollback` is the Secret's rollback with its annotation map shared by two objects on the heap.

**Throttle and debounce** (`jquery.ba-throttle-debounce.js`). `Throttle` is the closure with its
timers, `ThrottleTheory` what it does over all traces of calls and timers that fire.

Methods stand for code that changes state and are proved against functions and predicates on values;
lemmas say what those functions and predicates mean. Arguments called `ids` stand for the global
counter `lunr.TokenSet._nextId`, `separator` for `lunr.tokenizer.separator`, `lower` for
`toLowerCase`, `searchPipeline` for the search pipeline, `score` for the term weights and `sqrt` for
`Math.sqrt`. `dafny verify dfyconfig.toml` checks everything.

## What the proofs found

- Node keys join labels and ids without a separator, so different nodes can share one, and then one
  of them replaces the other. The automaton is right exactly for lists that are `Telling`: if the
  prefixes of the words are numbered in order, and those behind which the same is left to read share
  the first one's number, no two different nodes get the same key. That holds for every list without digits behind a shared prefix
  (`Indexable`), and for every list whose ids have equally many digits. It fails, with ids from 1 on,
  for `0 1xxxxxx 20 21y 3xxxxx 40z 41` (`MisreadList`): two nodes get the key `002112`.
- A star in a fuzzy term is not a letter: the automaton reads it as any one character. The fuzzy
  theorem says so instead of excluding it; `EditScript` is about terms without stars.
- `Index.query` throws a TypeError for a required clause the pipeline leaves without terms, unless
  earlier required clauses named all its fields; and a required clause without fields is never
  enforced. An empty query counts as negated and returns every document.
- A second document under the same reference leaves the first one's terms in the inverted index.
  `IndexesAgree` says when that matters.
- A field called `_index` overwrites the term numbers. An index can then be built only as long as
  no field of a document has two different terms, since an empty vector takes anything. A prohibited
  clause on `_index` passes for one that matches nothing, any other for one with an unknown field.
- A ConfigMap whose annotation map is nil makes the controller panic when an edit has to be
  committed; it recovers on the next reconcile. One created with a version annotation but without
  snapshots is never versioned. If a snapshot cannot be created while current and latest are the same
  object, both marks are lost.
- A Secret recorded without annotations of its own, the ordinary case, cannot be rolled back: its
  snapshot has no annotation map to write into and the controller panics. A snapshot without labels
  makes it panic after the Secret is stored.
- A version annotation can spell the rest of another ConfigMap's snapshot name. The rollback then
  takes that one's content, gives it the current mark and loses its own; `RollbackHitsOther`,
  `ForeignSnapshot` and `ForeignMark` say when and with what effect on either side.
- A rollback that names the current version while an edit is pending does not discard the edit.
- `$.debounce(delay, undefined, callback)` executes at the beginning, although its documentation
  says an unspecified `at_begin` counts as false.

## Model

| member | source | states |
|---|---|---|
| Search.Run | docs/_site/assets/js/lunr/lunr.js:1928-1933 | a query string is an error exactly when its lexemes are not clauses of the query grammar, and the error stands at the first lexeme that cannot go on or at the last one if something is missing; otherwise the search finds, each once, exactly the documents the clauses ask for, or throws exactly when one of the known failures occurs |
| Search.Build | docs/_site/assets/js/lunr/lunr.js:40-55 | lunr(config) from field names and documents to an index: it throws exactly for a slash in a field name, or for a field called _index when some field of a document has two different terms; the index is valid, apart from such a field, exactly if the keys of its words' nodes tell them apart, and its answers to plain queries are said in terms of the documents alone: added, every required clause answered in one of its fields, no prohibited one, and some other one unless all are prohibited |
| Search.Answer | docs/_site/assets/js/lunr/lunr.js:1928-1933 | building and searching together: for words whose nodes can be told apart and a pipeline that keeps each term one term, a query string is an error exactly if it is not grammatical, and otherwise the answer is, each once, the documents its clauses are to find, with nothing but documents and words in the statement |
| Search.ParsedIsPlain | docs/_site/assets/js/lunr/lunr.js:1928-1933 | with a pipeline that keeps each term one term, every query string that parses is a plain query, so it never throws and the boolean reading applies |
| SearchMeaning.SearchResult | docs/_site/assets/js/lunr/lunr.js:1960-2242 | what a query returns from a built index's tables is what its documents say: no index structure is left in the statement |
| SearchMeaning.MatchIsSpeech | docs/_site/assets/js/lunr/lunr.js:2041-2063 | looking up expanded words in the inverted index finds a document exactly when some version of it contains, in one of the clause's fields, a word that answers a term of the clause |
| SearchMeaning.IndexedIsAdded | docs/_site/assets/js/lunr/lunr.js:2188-2196 | what an all-prohibited query starts from is the set of all documents added |
| Indexes.Index.Query | docs/_site/assets/js/lunr/lunr.js:1960-2242 | Index.query refines the boolean reading: TypeError iff a clause fails in one of the two ways the code has, a prohibited clause on _index not being one, else each document of the answer once and nothing else |
| QueryMeaning.PlainQuery | docs/_site/assets/js/lunr/lunr.js:1960-2242 | with one term per clause and known fields the query never throws and returns a document iff all required clauses match it, no prohibited one does, and some non-prohibited one does or the query is negated |
| Indexes.Index.AddClauses | docs/_site/assets/js/lunr/lunr.js:1986-2152 | after the loop over the clauses the required, prohibited and matching sets hold what the clauses mean, although sets count elements twice and a required clause without an expansion is broken off |
| Indexes.Index.AddClause | docs/_site/assets/js/lunr/lunr.js:1995-2151 | one clause tightens exactly the required sets of its own fields, bars exactly the documents it prohibits, and contributes all its matches unless it was broken off |
| Indexes.Index.AddTerms | docs/_site/assets/js/lunr/lunr.js:2007-2138 | the loop over a clause's terms stops early only at a term nothing answers, and fails only by touching a field the index does not have, unless the clause is prohibited and the field is _index |
| Indexes.Index.AddPair | docs/_site/assets/js/lunr/lunr.js:2049-2136 | one word in one field: nothing is lost by skipping pairs the cache has seen |
| Indexes.Index.Narrow | docs/_site/assets/js/lunr/lunr.js:2146-2151 | required sets become their intersection with the clause's matches; TypeError exactly if a field's set was never opened |
| Indexes.Index.ExpandTerm | docs/_site/assets/js/lunr/lunr.js:2023-2024 | the words looked up for a term, by way of three automata, are the non-empty indexed words that the term matches as a wildcard pattern or, for a clause with an edit distance, those within that distance of it |
| QueryMeaning.StarsPassBy | docs/_site/assets/js/lunr/lunr.js:1999-2005 | a clause whose term was written with a star is looked up by that term alone, any other by what the pipeline makes of its term |
| Indexes.Index.AllRequired | docs/_site/assets/js/lunr/lunr.js:2159-2167 | a document passes the global filter iff it passes the required set of every indexed field that has one |
| Indexes.Index.AllProhibited | docs/_site/assets/js/lunr/lunr.js:2160-2172 | a document is barred globally iff some field bars it |
| Indexes.Index.Gather | docs/_site/assets/js/lunr/lunr.js:2198-2234 | each document is put into the results once, however many of its fields match |
| Indexes.Index.IsNegated | docs/_site/assets/js/lunr/lunr.js:2926-2934 | a query is negated iff it has no clause that is not prohibited, so also if it has none |
| QueryProgress.CachedIsShown | docs/_site/assets/js/lunr/lunr.js:2111-2113 | skipping a term and field found in the cache loses nothing, since no two pairs share a cache key |
| QueryProgress.RequiredStep | docs/_site/assets/js/lunr/lunr.js:2146-2151 | required sets keep meaning the conjunction of all required clauses over their fields |
| QueryProgress.CoveredIsMatched | docs/_site/assets/js/lunr/lunr.js:2032-2039 | breaking off a required clause loses no document that could still be returned |
| QueryProgress.CandidatesAreReturned | docs/_site/assets/js/lunr/lunr.js:2159-2234 | the field references looked at, filtered by the two global sets, give exactly the documents of the query's meaning |
| QueryProgress.WhenAClauseFails | docs/_site/assets/js/lunr/lunr.js:2146-2151 | a required clause the pipeline leaves without terms throws iff one of its fields was demanded by no earlier clause |
| Sets.Intersect | docs/_site/assets/js/lunr/lunr.js:262-289 | membership in both, exact although the smaller side is chosen by lengths that may count repetitions |
| Sets.Union | docs/_site/assets/js/lunr/lunr.js:300-310 | membership in either, also with the complete and the empty set |
| Sets.New | docs/_site/assets/js/lunr/lunr.js:188-202 | the set of an array's elements; its length is the array's, repetitions included |
| FieldRefs.RoundTrip | docs/_site/assets/js/lunr/lunr.js:158-177 | a reference is the field, a slash and the document; writing and reading gives it back iff the field name has no slash, whatever the document is called |
| FieldRefs.ReadThenWrite | docs/_site/assets/js/lunr/lunr.js:158-169 | reading fails exactly on strings without a slash, and otherwise writing gives the string back |
| FieldRefs.TermFieldInjective | docs/_site/assets/js/lunr/lunr.js:2062-2062 | term/field cache keys are unambiguous even for terms that contain a slash |
| IndexBuilder.Builder.Build | docs/_site/assets/js/lunr/lunr.js:2647-2658 | the built index lists exactly the occurrences seen; building fails iff a field is called _index and some field of a document has two different terms; without such a field the index is valid iff the keys of the terms' nodes tell them apart |
| IndexBuilder.Builder.Add | docs/_site/assets/js/lunr/lunr.js:2468-2536 | after any documents the inverted index holds every version of each document, the forward index the last version's frequencies and lengths, and term numbers have neither gap nor repetition; the document just added has, under field/document, the multiplicities and number of its terms, none for a field it lacks |
| IndexBuilderTheory.TermsOfFields | docs/_site/assets/js/lunr/lunr.js:2474-2479 | a document contributes the terms of its fields, and none for a field it does not have |
| IndexBuilder.Builder.AddField | docs/_site/assets/js/lunr/lunr.js:2475-2535 | one field: frequencies are the multiplicities of its terms, the length is their number, and exactly its terms gain an occurrence |
| IndexBuilder.Builder.AddTerm | docs/_site/assets/js/lunr/lunr.js:2502-2519 | one token adds exactly its own occurrence and at most one, consecutively numbered, posting |
| IndexBuilder.Builder.Field | docs/_site/assets/js/lunr/lunr.js:2414-2420 | RangeError iff the name contains a slash; fields therefore always round-trip in references |
| IndexBuilder.Builder.CreateFieldVectors | docs/_site/assets/js/lunr/lunr.js:2576-2626 | insert never meets a number twice: every field vector has, for each of the field's terms and nothing else, the score of the term in that field under the number in the term's posting; with a field called _index it fails iff some vector has to take a second term |
| IndexBuilder.Builder.InsertTerm | docs/_site/assets/js/lunr/lunr.js:822-845 | a term whose posting has lost its number to a field called _index goes into an empty vector and fails in any other, because only then are numbers compared |
| IndexBuilderTheory.VectorsOfOneTerm | docs/_site/assets/js/lunr/lunr.js:2576-2626 | whether some vector has to take a second term can be told from the documents: some field of a document's last version has two different terms |
| IndexBuilderTheory.IndexFieldExamples | docs/_site/assets/js/lunr/lunr.js:836-845 | with a field called _index one document with one term in it can be built, one with two cannot |
| IndexBuilder.Builder.CreateTokenSet | docs/_site/assets/js/lunr/lunr.js:2633-2637 | the automaton accepts exactly the indexed terms if the keys of their nodes tell them apart, and differs on some non-empty word if they do not |
| IndexBuilderTheory.IndexesAgree | docs/_site/assets/js/lunr/lunr.js:2494-2519 | a document is listed for a term and field iff the term's frequency there is positive, exactly when no earlier version under the same reference had a term the last one lacks |
| IndexBuilderTheory.DistinctIsUpToDate | docs/_site/assets/js/lunr/lunr.js:2468-2536 | with distinct references the condition holds for every document |
| IndexBuilderTheory.CountsSum | docs/_site/assets/js/lunr/lunr.js:2488-2500 | the frequencies of a field add up to its recorded length |
| IndexBuilderTheory.WeighsOneMore | docs/_site/assets/js/lunr/lunr.js:2619-2619 | term numbers are not given twice, so the next term's is not in the vector yet |
| IndexBuilder.SortedKeys | docs/_site/assets/js/lunr/lunr.js:2633-2637 | the list handed to fromArray is in order and has exactly the terms |
| TermExpansion.Expand | docs/_site/assets/js/lunr/lunr.js:2023-2024 | intersecting the indexed automaton with a term's query automaton and listing the result gives each selected word once |
| TermExpansion.SelectWords | docs/_site/assets/js/lunr/lunr.js:1394-1403 | from a sorted word list through both automata, if the keys of its nodes tell them apart: exactly the non-empty words that match the wildcard pattern, or lie within the edit distance, each once |
| TermExpansion.FromClause | docs/_site/assets/js/lunr/lunr.js:1414-1420 | the query automaton matches a non-empty word iff the clause's term selects it |
| TermExpansion.DigitFreeIsTelling | docs/_site/assets/js/lunr/lunr.js:1677-1682 | the nodes of word lists without digits are told apart by their keys, whatever their ids |
| TokenSets.TokenSet.Intersect | docs/_site/assets/js/lunr/lunr.js:1697-1758 | terminates on every acyclic indexed automaton even if the query automaton loops, and the output accepts a non-empty word iff the indexed side accepts it and the query side matches it; the root is never final |
| Product.Intersection | docs/_site/assets/js/lunr/lunr.js:1707-1755 | a finished work list means language intersection, although frames share output nodes |
| Product.Sound | docs/_site/assets/js/lunr/lunr.js:1716-1751 | every word of the output has a run in both automata, traced back frame by frame |
| Product.Complete | docs/_site/assets/js/lunr/lunr.js:1716-1751 | every common word is spelled by expanded frames |
| Product.AdvanceKeepsInv | docs/_site/assets/js/lunr/lunr.js:1725-1750 | creating or reusing an output node keeps it a tree in which every node stands for one indexed node and every final node is earned |
| Product.Finish | docs/_site/assets/js/lunr/lunr.js:1707-1755 | a pass leaves finitely many frames of smaller rank, so the weighted work stack shrinks |
| TokenSets.FromString | docs/_site/assets/js/lunr/lunr.js:1573-1603 | the automaton of a pattern matches a word iff the pattern is non-empty and matches it as a glob |
| Glob.ChainIsGlob | docs/_site/assets/js/lunr/lunr.js:1573-1603 | a chain with a loop around every star means glob matching, stars in a row and at the ends included |
| Glob.TrailingStar | docs/_site/assets/js/lunr/lunr.js:1573-1603 | a pattern without stars matches itself only, with a star behind it everything it begins |
| Glob.LeadingStar | docs/_site/assets/js/lunr/lunr.js:1573-1603 | and with a star in front of it everything it ends |
| TokenSets.FromFuzzyString | docs/_site/assets/js/lunr/lunr.js:1437-1561 | terminates and matches a word iff it is within the edit distance, a star in the term standing for any one character; only the empty word is never matched for the empty term |
| EditScript.NearMeansScript | docs/_site/assets/js/lunr/lunr.js:1448-1558 | for a term without stars, within k means: some script of at most k insertions, deletions, substitutions and adjacent swaps, applied left to right, turns the term into the word |
| Fuzzy.Sound | docs/_site/assets/js/lunr/lunr.js:1453-1557 | the fuzzy automaton accepts nothing that needs more edits |
| Fuzzy.Complete | docs/_site/assets/js/lunr/lunr.js:1453-1557 | it accepts everything that needs no more; marking nodes final when the last character is deleted loses nothing |
| Fuzzy.NearStar | docs/_site/assets/js/lunr/lunr.js:1453-1471 | with edits allowed a star is any one character, not a wildcard |
| WorkStack.PopAndPushShrinks | docs/_site/assets/js/lunr/lunr.js:1448-1558 | replacing a frame by boundedly many of smaller rank lowers the weight of a work stack |
| TokenSets.TokenSet.ToArray | docs/_site/assets/js/lunr/lunr.js:1615-1648 | terminates on acyclic automata and lists each accepted word once |
| Enumeration.PopKeepsInv | docs/_site/assets/js/lunr/lunr.js:1622-1645 | no pending prefix is a prefix of anything else ever pushed, which is why nothing is listed twice |
| Enumeration.Outcome | docs/_site/assets/js/lunr/lunr.js:1615-1648 | with nothing pending, the list is the language |
| TokenSets.TokenSet.ToString | docs/_site/assets/js/lunr/lunr.js:1660-1685 | the cached key if there is one, else the key of the current edges |
| NodeKey.KeyInjective | docs/_site/assets/js/lunr/lunr.js:1677-1682 | nodes without a digit label behind another label share a key only if they have the same finality and the same edges |
| NodeKey.KeyCollision | docs/_site/assets/js/lunr/lunr.js:1677-1682 | for single nodes the condition is sharp: every node with a digit label behind another one has a rival with other edges and the same key |
| NodeKey.EvenKeysTell | docs/_site/assets/js/lunr/lunr.js:1677-1682 | nodes whose targets' ids have equally many digits share a key only if they have the same finality and the same edges, whatever the labels |
| TokenSetBuilder.FromArray | docs/_site/assets/js/lunr/lunr.js:1394-1403 | throws iff the list is out of order; the automaton accepts exactly the listed words iff the keys that its nodes get tell them apart, a condition on the list and the first id alone; then no two of its nodes accept the same suffixes and none is useless; it takes one id for each prefix |
| Numbering.IndexableIsTelling | docs/_site/assets/js/lunr/lunr.js:1677-1682 | lists in which no word continues a shared, non-empty prefix with a digit where another has a smaller character are told apart whatever the ids are |
| Numbering.EvenIdsAreTelling | docs/_site/assets/js/lunr/lunr.js:1660-1685 | all lists are whose nodes' ids, from the first to the last, have equally many digits |
| MisreadList.MisreadIsMisread | docs/_site/assets/js/lunr/lunr.js:1394-1403 | a list of seven words that are not told apart when ids start from 1, as they do in a fresh page; so the automaton made of it is wrong |
| Numbering.SameWordsSameTrie | docs/_site/assets/js/lunr/lunr.js:1790-1803 | which nodes are made, and in which order, depends on the words alone |
| TokenSetBuilder.FewestNodes | docs/_site/assets/js/lunr/lunr.js:1394-1403 | and then no automaton for the listed words, over whatever nodes, has fewer nodes |
| TokenSetBuilder.Builder.Insert | docs/_site/assets/js/lunr/lunr.js:1766-1804 | duplicates and prefixes included, the unchecked nodes spell the word just inserted, one node was made for each of its new prefixes, and the automaton accepts exactly the words so far unless a node gave way to another than its twin |
| TokenSetBuilder.Builder.Minimize | docs/_site/assets/js/lunr/lunr.js:1810-1827 | folding the path back freezes or merges every node below and keeps the invariant: right so far, or wrong for good |
| TokenSetBuilder.Builder.MergeTopInto | docs/_site/assets/js/lunr/lunr.js:1814-1816 | sending an edge to the registered node with the same key is invisible if the two are twins; otherwise the automaton is wrong for good and the list one whose keys do not tell |
| TokenSetBuilder.Builder.FreezeTop | docs/_site/assets/js/lunr/lunr.js:1817-1823 | a registered node is never changed again, so its cached key stays true |
| TokenSetBuilder.Builder.Finish | docs/_site/assets/js/lunr/lunr.js:1806-1808 | the whole path is folded into the root |
| BuilderNumbers.MergeKeepsNumbered | docs/_site/assets/js/lunr/lunr.js:1814-1816 | while only twins merge, every node stays the one made for the first prefix that leads to it |
| BuilderKeys.KeyIsForetold | docs/_site/assets/js/lunr/lunr.js:1814-1823 | and hence every frozen node has the key that can be told from the word list beforehand, whatever words are still to come |
| BuilderKeys.MergeOfOthers | docs/_site/assets/js/lunr/lunr.js:1814-1816 | a node that meets a different one under its own key means that the keys of the finished list do not tell its nodes apart, whatever words are still to come |
| BuilderFinish.FinishedIsWrong | docs/_site/assets/js/lunr/lunr.js:1806-1827 | after such a merge the finished automaton differs from the word list on a non-empty word: no later insertion or merge mends it |
| BuilderFinish.FinishedIffTelling | docs/_site/assets/js/lunr/lunr.js:1806-1827 | right language, only twins merged and keys that tell the nodes of the list apart are one |
| BuilderTheory.MergeIsRightForTwins | docs/_site/assets/js/lunr/lunr.js:1814-1816 | for all words, digits or not: replacing a node by a registered one leaves the language alone iff the two are twins, so a shared key of two different nodes always does harm |
| IndexBuilderTheory.TermsAreVocabulary | docs/_site/assets/js/lunr/lunr.js:2502-2519 | the postings are exactly those of the words that occur |
| BuilderFinish.FinishedIsExact | docs/_site/assets/js/lunr/lunr.js:1806-1808 | if only twins were merged, the finished automaton accepts the inserted words, is minimal and has no useless node |
| BuilderFinish.Smallest | docs/_site/assets/js/lunr/lunr.js:1806-1827 | every automaton for the same words as a minimal one without useless nodes, over whatever nodes, has at least as many |
| Minimization.NoSmallerAutomaton | docs/_site/assets/js/lunr/lunr.js:1810-1827 | an automaton whose nodes are reachable, live and pairwise different is the smallest for its language |
| Minimization.ReachableNodesDiffer | docs/_site/assets/js/lunr/lunr.js:1810-1827 | different reachable nodes of the finished automaton have different languages, the root included |
| Minimization.RedirectToTwin | docs/_site/assets/js/lunr/lunr.js:1814-1816 | an edge may be sent to a twin of its target without any node's language changing |
| Minimization.FrozenUntouched | docs/_site/assets/js/lunr/lunr.js:1817-1823 | what a frozen node accepts depends on frozen nodes only |
| Minimization.FirstDifference | docs/_site/assets/js/lunr/lunr.js:1770-1783 | the first difference of ordered words decides where the new branch hangs |
| Vectors.Vector.PositionForIndex | docs/_site/assets/js/lunr/lunr.js:770-809 | bisection ends with the index's slot or its only insertion point |
| Vectors.Vector.Upsert | docs/_site/assets/js/lunr/lunr.js:836-845 | update of the map the vector stands for, combining with the value there; order is kept, the magnitude cache dropped, and a throwing combination changes nothing else |
| Vectors.Vector.Insert | docs/_site/assets/js/lunr/lunr.js:822-826 | "duplicate index" iff the index is there, else a new entry |
| Vectors.Vector.AddAll | docs/_site/assets/js/lunr/lunr.js:2105-2105 | any run of additive upserts amounts to adding up the updates |
| Vectors.OrderDoesNotMatter | docs/_site/assets/js/lunr/lunr.js:836-845 | the same updates in any order give the same map |
| Vectors.SameMeaningSameList | docs/_site/assets/js/lunr/lunr.js:836-845 | and hence the same flat list: there is one ascending list per map |
| Vectors.Vector.Dot | docs/_site/assets/js/lunr/lunr.js:872-893 | the merge computes the sum of products over the common indices, from either side |
| Vectors.DotIsSymmetric | docs/_site/assets/js/lunr/lunr.js:872-893 | the product is symmetric |
| Vectors.Vector.Magnitude | docs/_site/assets/js/lunr/lunr.js:852-864 | cached or not, the root of the product of the vector with itself, after any interleaving of upserts |
| QueryLexer.Lexer.Run | docs/_site/assets/js/lunr/lunr.js:2992-2998 | lexing terminates on every string and yields the lexemes the string means |
| QueryLexer.Lexer.LexText | docs/_site/assets/js/lunr/lunr.js:3136-3190 | text is read up to the first unescaped sign or separator; a leading + or - is a presence sign of its own |
| QueryLexer.Lexer.SliceString | docs/_site/assets/js/lunr/lunr.js:3000-3015 | the text of a lexeme skips exactly the noted positions |
| QueryLexer.LexemesAreShaped | docs/_site/assets/js/lunr/lunr.js:3000-3026 | every lexeme is its stretch of the string without exactly the escaping backslashes; numbers are digit runs, possibly empty |
| QueryLexer.LexemesAreUnbroken | docs/_site/assets/js/lunr/lunr.js:3136-3190 | a term or field without backslashes reaches over no separator, colon, tilde or caret |
| QueryLexer.LexemesInOrder | docs/_site/assets/js/lunr/lunr.js:3017-3026 | lexemes are disjoint and in order |
| QueryLexer.OnlySignsAreSkipped | docs/_site/assets/js/lunr/lunr.js:3047-3053 | no character is lost but separators, colons, tildes and carets |
| QueryLexer.EscapingWorks | docs/_site/assets/js/lunr/lunr.js:3145-3148 | every non-empty term, escaped, is read back as that one term whatever the separator |
| QueryParser.Parser.Parse | docs/_site/assets/js/lunr/lunr.js:3199-3210 | parsing terminates, succeeds iff the lexemes are (PRESENCE? FIELD? TERM (EDIT_DISTANCE or BOOST)*)*, and adds one clause per group in order |
| QueryParser.ParsedIffGrammatical | docs/_site/assets/js/lunr/lunr.js:3228-3446 | the state machine accepts exactly the grammar, which is unambiguous up to the clauses it yields |
| QueryParser.ReadsGroups | docs/_site/assets/js/lunr/lunr.js:3253-3446 | presence and field go to the following term, modifiers to the preceding one, the last modifier of a kind winning, defaults filled in |
| QueryParser.HeadParsed | docs/_site/assets/js/lunr/lunr.js:3253-3446 | whatever is parsed is grammatical: the groups can be recovered |
| QueryParser.ClausesNameFields | docs/_site/assets/js/lunr/lunr.js:3297-3304 | a parsed clause names all fields of the index or one of them, so it never touches an unknown field |
| QueryParser.EscapedTermIsParsed | docs/_site/assets/js/lunr/lunr.js:3199-3210 | an escaped term is parsed into one optional clause for it, with all defaults |
| QueryText.WritingWorks | docs/_site/assets/js/lunr/lunr.js:3199-3446 | writing and parsing is a round trip: clauses written with their signs, fields, escaped terms and decimal numbers, with a separator between them, are parsed into exactly these clauses, in order |
| QueryText.NumberIsRead | docs/_site/assets/js/lunr/lunr.js:3369-3412 | a modifier's number is the decimal number its digits write, whatever zeros stand in front |
| QueryErrors.ErrorsAreLocated | docs/_site/assets/js/lunr/lunr.js:3228-3446 | a rejected query is reported at the first lexeme that may not stand where it does, or at the last one if the query cannot end there; an accepted one has no such lexeme |
| QueryParser.Query.Add | docs/_site/assets/js/lunr/lunr.js:2885-2917 | a clause is pushed with what was set and the defaults for the rest |
| ConfigMapReconciler.ApiServer.Reconcile | controllers/core/configmap_controller.go:63-156 | the controller's separate reads and writes amount to one step of the abstract version store, with the environment's interference in between, and spare every other ConfigMap's snapshots, apart from one that a rollback ends at: it gets the current mark |
| ConfigMapReconciler.ApiServer.UpdateFromVersion | controllers/core/configmap_controller.go:201-238 | a ConfigMap that names a version is brought to it or, edited, committed as the abstract step says; with the frame of Reconcile |
| ConfigMapReconciler.ApiServer.RollBack | controllers/core/configmap_controller.go:213-225 | the rollback alone: the content of the snapshot found is copied and the former current snapshot loses its mark, whether the snapshot found belongs to this ConfigMap or not; without labels on it the code panics halfway |
| ConfigMapReconciler.ApiServer.CopyCCMToCM | controllers/core/configmap_controller.go:241-272 | error iff nothing stands under the name looked up, panic iff that has no labels; the ConfigMap gets its content and it gets the current mark, an own version or a foreign snapshot |
| ConfigMapReconciler.ApiServer.CreateNewCCM | controllers/core/configmap_controller.go:274-341 | a new snapshot becomes current and latest and the ConfigMap is annotated, or the marks are put back as far as stale copies allow, or the code panics on a missing annotation map |
| ConfigMapReconciler.ApiServer.RemoveLatest | controllers/core/configmap_controller.go:286-311 | with up to five conflicting writers the latest mark is removed, with six it stays and the last copy is stale |
| ConfigMapReconciler.ApiServer.Publish | controllers/core/configmap_controller.go:313-341 | with the marks taken off, the rest of the code amounts to the abstract commit: new snapshot and annotated ConfigMap, panic on a missing annotation map, or the marks put back as far as the copies held are fresh |
| ConfigMapReconciler.ApiServer.FirstCCM | controllers/core/configmap_controller.go:89-114 | a ConfigMap that names no version and has no current snapshot gets its first one, current and latest, unless creating it fails, in which case nothing changes |
| ConfigMapReconciler.SnapshotIsMade | controllers/core/configmap_controller.go:168-198 | a new snapshot has the validated name, the labels name, latest and current, its version as annotation and the ConfigMap's content, and is found by either mark |
| ConfigMapReconciler.MarksAreLabels | controllers/core/configmap_controller.go:168-198 | current and latest are labels of their own beside the name |
| ConfigMapReconciler.ApiServer.Revert | controllers/core/configmap_controller.go:317-330 | reverting writes the current mark and, unless that copy was stale, the latest mark back |
| ConfigMapReconciler.RevertMarks | controllers/core/configmap_controller.go:317-330 | everything is put back exactly if the two snapshots differ |
| ConfigMapReconciler.MarkedItems | controllers/core/configmap_controller.go:82-89 | listing by label finds exactly the snapshot that carries the mark |
| ConfigMapReconciler.Remarked | controllers/core/configmap_controller.go:220-221 | relabelling one snapshot changes exactly its mark in the abstract store |
| ConfigMapReconciler.Appended | controllers/core/configmap_controller.go:313-314 | creating a snapshot appends exactly one version |
| ConfigMapReconciler.SoughtIsStored | controllers/core/configmap_controller.go:243-251 | the rollback's lookup ends at an own snapshot iff the version is recorded and the name is valid |
| ConfigMapReconciler.ForeignMark | controllers/core/configmap_controller.go:264-266 | another ConfigMap whose snapshot is hit gets a second current mark unless that snapshot was its current one |
| ConfigMapReconciler.OtherConfigMapsKept | controllers/core/configmap_controller.go:63-156 | what one ConfigMap's reconcile spares is all another one relies on |
| VersionProtocol.RunKeepsInv | controllers/core/configmap_controller.go:63-341 | over every run of edits, annotation changes and reconciles in which the environment behaves, exactly one snapshot is current and exactly the newest is latest |
| VersionProtocol.ReconcileSyncs | controllers/core/configmap_controller.go:63-156 | after a reconcile the ConfigMap names the current version and holds its content iff that was possible beforehand, a condition on the annotations; all other outcomes are told apart |
| VersionProtocol.ReconcileRecords | controllers/core/configmap_controller.go:313-341 | a reconcile leaves the recorded versions alone or appends the content just found |
| VersionProtocol.ReconcileAnnotates | controllers/core/configmap_controller.go:97-137 | every reconcile keeps all annotations but the controller's three; these are written exactly if a version was made or the current one was unnamed, and then name the current version, its snapshot and ignoreWhenShared |
| VersionProtocol.RunKeepsAnnotations | controllers/core/configmap_controller.go:97-341 | so an annotation of the user's that the user leaves alone stays as it is over any run |
| VersionProtocol.LogOnlyGrows | controllers/core/configmap_controller.go:168-198 | snapshots are never altered or lost |
| VersionProtocol.RollbackRestores | controllers/core/configmap_controller.go:212-225 | after any run, naming a recorded version and reconciling gives back exactly its content, unless that version is current and an edit is pending |
| VersionProtocol.Quiescence | controllers/core/configmap_controller.go:63-238 | a second reconcile writes nothing unless the first had to commit without an annotation map and panicked; then the second writes the annotations and the third is quiet |
| VersionProtocol.InterferenceLimit | controllers/core/configmap_controller.go:287-311 | the invariant survives exactly up to five conflicting writes |
| VersionProtocol.CreateFailure | controllers/core/configmap_controller.go:314-330 | if the snapshot cannot be created, the marks are restored iff current and latest were different snapshots |
| VersionProtocol.LostMarkIsFinal | controllers/core/configmap_controller.go:210-237 | a ConfigMap that lost its current mark is never versioned again, whatever is edited and whatever versions are named, until the user removes the annotation or empties it |
| VersionProtocol.ForeignSnapshot | controllers/core/configmap_controller.go:210-225 | the one way a foreign snapshot breaks the invariant: a rollback ends at it and it has labels; then its content is taken over and the ConfigMap is left without a current mark |
| VersionStore.NameValidationFixes | controllers/core/configmap_controller.go:414-421 | names come out valid, and exactly the valid ones unchanged |
| VersionStore.RunBecomesOne | controllers/core/configmap_controller.go:414-421 | a run of characters other than small letters, digits and hyphens becomes one s |
| VersionStore.RollbackFindsStored | controllers/core/configmap_controller.go:243-246 | the name looked up is the one stored iff the version is right and the ConfigMap's name needs no replacement |
| VersionStore.RollbackHitsOther | controllers/core/configmap_controller.go:243-246 | a rollback ends at another ConfigMap's snapshot iff the other's name, as stored, is this name, or is this name with more behind a hyphen that the annotation spells out |
| VersionStore.StoredApart | controllers/core/configmap_controller.go:175-177 | different versions are stored under different names |
| SecretRollback.Server.CopyCSToSecret | controllers/core/secret_controller.go:321-362 | through the shared annotation map: error iff the snapshot is missing, panic before anything is stored iff it has no annotations, panic after the Secret is stored iff it has some but no labels, else Secret and snapshot are stored as specified |
| SecretRollback.SnapshotSurvives | controllers/core/secret_controller.go:347-354 | the specification of the snapshot rolled back to survives iff none of the controller's keys were in it or it has no labels |
| SecretRollback.MadeWithoutManaged | controllers/core/secret_controller.go:233-242 | which holds for every snapshot the controller makes |
| SecretRollback.MadeIsRecord | controllers/core/secret_controller.go:206-260 | a snapshot just made has both marks and the Secret's name as labels, its data and type, and its annotations without the controller's five |
| SecretRollback.RollbackAnnotations | controllers/core/secret_controller.go:335-340 | the Secret's annotations become the snapshot's plus exactly the five managed keys |
| SecretRollback.RollBackRecorded | controllers/core/secret_controller.go:321-362 | asking for a recorded version, whatever has become of the Secret and of the snapshot's marks: nothing is found under a name that NameValidation changes; a Secret recorded without own annotations makes the controller panic and stays as edited; any other gets data and own annotations back, nothing else changes, and the next reconcile sees an edit iff the type differs |
| SecretRollback.RecordThenRollBack | controllers/core/secret_controller.go:206-362 | record, edit at will, roll back, from the snapshot just made: a panic and nothing stored for a Secret without own annotations, otherwise its data and own annotations as recorded and the snapshot as it was made |
| SecretRollback.AnnotationEditNoticed | controllers/core/secret_controller.go:298-313 | an annotation edit makes a new version iff the snapshot has annotations and they differ |
| SecretRollback.DataEditNoticed | controllers/core/secret_controller.go:298-313 | an edit of the data alone, or of the type alone, makes a new version iff it changes anything |
| Throttles.Wrapper.Call | docs/_site/assets/js/plugins/jquery.ba-throttle-debounce.js:141-184 | a call of the wrapper moves the closure and its timers as the abstract machine does |
| Throttles.Wrapper.Fire | docs/_site/assets/js/plugins/jquery.ba-throttle-debounce.js:147-156 | a timer that fires either executes the callback and records when, or only forgets timeout_id, as the abstract machine does |
| Throttles.Wrapper.Play | docs/_site/assets/js/plugins/jquery.ba-throttle-debounce.js:141-184 | over a whole trace the closure is in the state of the abstract run |
| Throttles.Wrapper.Throttle | docs/_site/assets/js/plugins/jquery.ba-throttle-debounce.js:126-143 | what the arguments make of a throttled function: it drops its trailing execution iff the argument in front of the callback is true |
| Throttles.Wrapper.Debounce | docs/_site/assets/js/plugins/jquery.ba-throttle-debounce.js:246-250 | what they make of a debounced one: it waits for the end iff at_begin is left out or false |
| Throttles.DebounceModes | docs/_site/assets/js/plugins/jquery.ba-throttle-debounce.js:246-250 | left out or false, at_begin means waiting for the end; passed as undefined it means the beginning, unlike the documentation says |
| Throttles.ThrottleModes | docs/_site/assets/js/plugins/jquery.ba-throttle-debounce.js:132-143 | a throttled function has its trailing execution unless the boolean in front of the callback is true |
| Throttles.TrailingByArguments | docs/_site/assets/js/plugins/jquery.ba-throttle-debounce.js:132-183 | after $.throttle(delay, callback) a call that does not execute leaves an execution pending for delay after the last one; after $.throttle(delay, true, callback) nothing is ever pending |
| ThrottleTheory.AtMostOneTimer | docs/_site/assets/js/plugins/jquery.ba-throttle-debounce.js:165-183 | never more than one timer is live, in any mode and trace |
| ThrottleTheory.ThrottleSpacing | docs/_site/assets/js/plugins/jquery.ba-throttle-debounce.js:167-183 | executions of a throttled function are at least delay apart, however late timers fire |
| ThrottleTheory.CallExecutesOrWaits | docs/_site/assets/js/plugins/jquery.ba-throttle-debounce.js:167-183 | a call executes iff more than delay has passed, and otherwise leaves an execution pending for last_exec + delay, or nothing with no_trailing |
| ThrottleTheory.NoCallIsLost | docs/_site/assets/js/plugins/jquery.ba-throttle-debounce.js:167-183 | with timers on time every call of a trailing throttle is followed by an execution within delay |
| ThrottleTheory.EndDebounceWaits | docs/_site/assets/js/plugins/jquery.ba-throttle-debounce.js:172-183 | debouncing at the end executes once per burst, only after delay without a call, and exactly then if timers are on time |
| ThrottleTheory.BeginDebounceRuns | docs/_site/assets/js/plugins/jquery.ba-throttle-debounce.js:154-183 | debouncing at the beginning executes exactly at the first call of each burst |
| ThrottleTheory.RunKeepsInv | docs/_site/assets/js/plugins/jquery.ba-throttle-debounce.js:141-184 | in every reachable state a live timer is the one timeout_id names and is due at last_exec + delay (throttle) or delay after the last call (debounce) |

## Left out

- Search.Answer: what is found among words whose nodes are not told apart is not said, only that the automaton is wrong for them (TokenSetBuilder.FromArray); nor in TermExpansion.SelectWords.
- TokenSetBuilder.Builder.Insert: inserting after finish is not covered; fromArray never does it.
- TokenSets.TokenSet.Intersect: final is never set on the output's root, so the empty word is not part of any statement about it.
- ConfigMapReconciler.ApiServer.Reconcile: failing list and get requests, conflicting writes to the ConfigMap itself, namespaces, owner references and events are not modelled; the environment's failures are write conflicts on the latest snapshot and a refused create. A ConfigMap with two current or two latest marks, as foreign marks and six conflicts leave it, is not followed further.
- ConfigMapReconciler.ApiServer.CreateNewCCM: ends with the annotated ConfigMap; the rolling update of deployments and stateful sets behind it is not modelled.
- SecretRollback.Server.CopyCSToSecret: write failures are not modelled; the rest of the Secret's reconcile repeats the ConfigMap's.
- SecretRollback.RecordThenRollBack: the Secret is as read back from the server, so stringData is already part of data; what stands under the sought name if that is not the recorded snapshot is any snapshot (SecretRollback.Server.CopyCSToSecret).
- Indexes.Index.Query: a valid index has no field called `_index`; scores, match metadata and the order of the results are not modelled, so the vectors it multiplies do not occur in it.
- IndexBuilder.Builder.Field: all fields are to be added before the first document, as the documentation asks; a later one makes `add` throw.
- IndexBuilder.Builder.Build: an index with a field called `_index` that could be built is not promised to be valid, and what queries do with it is not modelled.
- IndexBuilder.Builder.CreateFieldVectors: idf, length normalisation, rounding and boosts are the function `score`.
- IndexBuilder.Builder.AddTerm: token metadata is not modelled.
- Vectors.Vector.Magnitude: arithmetic is over reals, without NaN or rounding; `similarity` only divides.
- QueryParser.Parser.Parse: numbers are exact, while parseInt loses precision beyond 2^53; error messages are left out, only their positions are modelled.
- TokenSets.FromFuzzyString: edit distances are exact. From 2^53 on the code's `editDistance - 1` can be the same number again, and for such a distance its loop does not end; termination is proved here for exact numbers only, and with it that of queries with such a distance.
- QueryLexer.Lexer.Run: strings are sequences of characters rather than UTF-16 units, here and everywhere.
- Throttles.Wrapper.Call: one reading of the clock per call, and a callback that does not call the wrapper again.
- Throttles.Wrapper.Throttle: only the documented ways to pass the arguments; `$.throttle(delay, undefined, callback)` takes the callback for the debounce mode and throws, with jQuery when it is created, without it on every call.
- `Object.keys` gives the keys in some order; nothing stated depends on it.
- The tokenizer, stemmers, stop words and trimmer are inside the functions `searchPipeline` and the terms of a document.
- Serialising and loading an index, `Builder.use`, `Builder.ref`, field extractors: plumbing.
- Purging unused versions: nested loops over references, which would add only easy members; it may delete a current or latest snapshot, which the protocol's invariants exclude.
- The webhooks, the initialisation job, the generated clients and the rest of the site's scripts.
