/** What Index.query does with one term: compile it to a query automaton, intersect it with
    the indexed one and list the words of the result. */
module TermExpansion {
  import opened TokenGraph
  import opened TokenSets
  import TokenSetBuilder
  import BuilderFinish
  import Numbering
  import Enumeration
  import NodeKey
  import Glob
  import Fuzzy

  /** A query clause's way of matching an indexed word: TokenSet.fromClause takes the fuzzy
      automaton if there is an edit distance and the wildcard one otherwise. */
  datatype Pattern = Wildcard(term: string) | Within(term: string, editDistance: nat)

  ghost predicate Selects(p: Pattern, w: string) {
    match p
    case Wildcard(term) => Glob.GlobMatch(term, w)
    case Within(term, k) => Fuzzy.Near(term, k, w)
  }

  /** TokenSet.fromClause */
  method FromClause(p: Pattern, ids: IdSource) returns (root: TokenSet, ghost nodes: set<TokenSet>)
    modifies ids
    ensures fresh(nodes) && root in nodes && Closed(Snapshot(nodes))
    ensures forall w :: w != "" ==> (Matches(Snapshot(nodes), root, w) <==> Selects(p, w))
  {
    hide Snapshot, Closed, Matches, Fuzzy.Near;
    match p
    case Wildcard(term) =>
      root, nodes := FromString(term, ids);
      forall w | w != "" && term == "" ensures !Glob.GlobMatch(term, w) {}
    case Within(term, editDistance) =>
      root, nodes := FromFuzzyString(term, editDistance, ids);
  }

  /** tokenSet.intersect(TokenSet.fromClause(clause)).toArray(): the non-empty indexed words
      the pattern selects, each once. */
  method Expand(tokenSet: TokenSet, p: Pattern, ids: IdSource, ghost nodes: set<TokenSet>,
                ghost rank: map<TokenSet, nat>)
    returns (terms: seq<string>)
    requires tokenSet in nodes && Ranked(Snapshot(nodes), rank)
    modifies ids
    ensures Enumeration.NoRepeats(terms)
    ensures forall w :: w in terms <==> w != "" && Accepts(Snapshot(nodes), tokenSet, w) && Selects(p, w)
  {
    hide Snapshot, Closed, Ranked, Matches, Accepts, Selects;
    ghost var g := Snapshot(nodes);
    var query, queryNodes := FromClause(p, ids);
    assert Snapshot(nodes) == g;
    ghost var q := Snapshot(queryNodes);
    var common, commonNodes, commonRank := tokenSet.Intersect(query, ids, nodes, rank, queryNodes);
    assert Snapshot(nodes) == g && Snapshot(queryNodes) == q;
    ghost var c := Snapshot(commonNodes);
    SnapshotAt(commonNodes, common);
    RootNotFinal(c, common);
    terms := common.ToArray(commonNodes, commonRank);
    forall w ensures w in terms <==> w != "" && Accepts(g, tokenSet, w) && Selects(p, w) {
      if w != "" {
        assert Accepts(c, common, w) <==> Accepts(g, tokenSet, w) && Matches(q, query, w);
        assert Matches(q, query, w) <==> Selects(p, w);
      }
    }
  }

  lemma RootNotFinal(g: Graph<TokenSet>, root: TokenSet)
    ensures root in g && !g[root].final ==> !Accepts(g, root, "")
  {
  }

  /** From a list of words to the words a pattern selects, through both automata. */
  method SelectWords(words: seq<string>, p: Pattern, ids: IdSource) returns (selected: seq<string>)
    requires Numbering.InOrder(words)
    modifies ids
    ensures Enumeration.NoRepeats(selected)
    ensures Numbering.Telling(words, old(ids.nextId)) ==>
              forall w :: w in selected <==> w != "" && w in words && Selects(p, w)
  {
    hide Snapshot, Ranked, Accepts, Selects, Numbering.Telling, BuilderFinish.Minimal, BuilderFinish.Trim,
         Numbering.InOrder;
    var tokenSet, nodes, rank := TokenSetBuilder.FromArray(words, ids);
    selected := Expand(tokenSet, p, ids, nodes, rank);
  }

  /** The nodes of lists without digits can be told apart whatever their ids are. */
  lemma DigitFreeIsTelling(words: seq<string>, first: nat)
    requires forall w, i :: w in words && 0 <= i < |w| ==> !NodeKey.IsDigit(w[i])
    ensures Numbering.Telling(words, first)
  {
    hide Numbering.Telling;
    assert Numbering.Indexable(Numbering.WordsOf(words));
    Numbering.IndexableIsTelling(words, first);
  }
}
