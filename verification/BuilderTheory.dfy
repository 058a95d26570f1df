/** The invariant of lunr.TokenSet.Builder as a property of values, and what each of its
    four changes (merge, register, extend, make final) does to it. */
module BuilderTheory {
  import opened TokenGraph
  import opened Minimization
  import opened TokenSets

  /** The node graph, the mutable nodes from the root down, the word they spell a prefix of,
      the frozen nodes in freezing order, the registry, the words inserted so far, the prefixes
      nodes were made for so far, each node's place among these, and whether every node that
      gave way to a frozen one so far was its twin. */
  datatype State = State(
    g: Graph<TokenSet>, path: seq<TokenSet>, word: string,
    registered: seq<TokenSet>, minimized: map<string, TokenSet>, words: set<string>,
    made: seq<string>, index: map<TokenSet, nat>, clean: bool)

  ghost predicate Registry(s: State)
    requires forall k :: 0 <= k < |s.registered| ==> s.registered[k] in s.g
  {
    && (forall k :: 0 <= k < |s.registered| ==>
          KeyOf(s.g[s.registered[k]]) in s.minimized && s.minimized[KeyOf(s.g[s.registered[k]])] == s.registered[k])
    && (forall key :: key in s.minimized ==> s.minimized[key] in s.registered && KeyOf(s.g[s.minimized[key]]) == key)
  }

  ghost predicate AllLive(s: State) {
    forall k :: 0 <= k < |s.registered| ==> Live(s.g, s.registered[k])
  }

  /** What holds whatever the words are. */
  ghost predicate Sane(s: State) {
    && Shape(s.g, s.path, s.word, s.registered)
    && Registry(s)
    && AllLive(s)
  }

  ghost predicate AcceptsWords(s: State)
    requires s.path != []
  {
    forall w :: Accepts(s.g, s.path[0], w) <==> w in s.words
  }

  ghost predicate TopLive(s: State) {
    |s.path| > 1 ==> Live(s.g, s.path[|s.path| - 1])
  }

  lemma Facts(s: State)
    requires Sane(s)
    ensures Closed(s.g) && 1 <= |s.path| <= |s.word| + 1
    ensures forall i :: 0 <= i < |s.path| ==> s.path[i] in s.g
    ensures forall k :: 0 <= k < |s.registered| ==> s.registered[k] in s.g
    ensures forall i, k :: 0 <= i < |s.path| && 0 <= k < |s.registered| ==> s.path[i] != s.registered[k]
    ensures forall i, j :: 0 <= i < j < |s.path| ==> s.path[i] != s.path[j]
  {
    hide KeyOf, Live;
  }

  lemma TopEdge(s: State)
    requires Sane(s) && |s.path| >= 2
    ensures var n := |s.path|;
            var p := s.path[n - 2];
            n - 2 < |s.word| && p in s.g && s.word[n - 2] in s.g[p].edges
                && s.g[p].edges[s.word[n - 2]] == s.path[n - 1]
  {
    hide KeyOf, Live;
  }

  // ---------------------------------------------------------------- shortening the path

  ghost function MergeTop(s: State, m: TokenSet): State
    requires |s.path| >= 2 && |s.path| <= |s.word| + 1 && s.path[|s.path| - 2] in s.g
  {
    var n := |s.path|;
    s.(g := Redirect(s.g, s.path[n - 2], s.word[n - 2], m), path := s.path[..n - 1],
       clean := s.clean && Twins(s.g, m, s.path[n - 1]))
  }

  /** Two nodes with the same finality and the same edges. */
  ghost predicate Twins(g: Graph<TokenSet>, m: TokenSet, n: TokenSet) {
    m in g && n in g && g[m] == g[n]
  }

  lemma FrozenSame(s: State, g': Graph<TokenSet>)
    requires Sane(s)
    requires forall k :: 0 <= k < |s.registered| ==>
               s.registered[k] in g' && g'[s.registered[k]] == s.g[s.registered[k]]
    ensures Registry(s.(g := g')) && AllLive(s.(g := g'))
  {
    hide KeyOf, Live, Accepts, Registry;
    FrozenStayLive(s.g, g', s.registered);
    RegistryStays(s, g');
  }

  lemma RegistryStays(s: State, g': Graph<TokenSet>)
    requires Sane(s)
    requires forall k :: 0 <= k < |s.registered| ==>
               s.registered[k] in g' && g'[s.registered[k]] == s.g[s.registered[k]]
    ensures Registry(s.(g := g'))
  {
    hide KeyOf, Live, Accepts, Shape, AllLive;
    Facts(s);
    var s' := s.(g := g');
    forall key | key in s.minimized ensures s.minimized[key] in s.registered && KeyOf(g'[s.minimized[key]]) == key {
      var k :| 0 <= k < |s.registered| && s.registered[k] == s.minimized[key];
    }
  }

  lemma MergeKeepsSane(s: State, m: TokenSet)
    requires Sane(s) && |s.path| >= 2 && m in s.registered
    ensures |s.path| <= |s.word| + 1 && s.path[|s.path| - 2] in s.g
    ensures Sane(MergeTop(s, m)) && TopLive(MergeTop(s, m))
  {
    hide KeyOf, Live, Accepts, Shape;
    Facts(s);
    var n := |s.path|;
    var s' := MergeTop(s, m);
    ShapeMerge(s.g, s.path, s.word, s.registered, m);
    FrozenSame(s, s'.g);
    var k :| 0 <= k < |s.registered| && s.registered[k] == m;
    LiveThroughEdge(s'.g, s.path[n - 2], s.word[n - 2]);
  }

  /** Merging twins is invisible to every node. */
  lemma MergeSilent(s: State, m: TokenSet, w: string)
    requires Sane(s) && |s.path| >= 2 && m in s.registered && Twins(s.g, m, s.path[|s.path| - 1])
    ensures |s.path| <= |s.word| + 1 && s.path[|s.path| - 2] in s.g
    ensures Accepts(MergeTop(s, m).g, s.path[0], w) <==> Accepts(s.g, s.path[0], w)
  {
    hide KeyOf, Live, Accepts, Shape, Registry;
    Facts(s);
    TopEdge(s);
    RedirectToTwin(s.g, s.path[|s.path| - 2], s.word[|s.path| - 2], m, s.path[0], w);
  }

  lemma FrozenAreReduced(s: State)
    requires Sane(s)
    ensures Shape(s.g, s.path, s.word, s.registered) && Reduced(s.g, s.registered)
  {
    hide KeyOf, Accepts, Live;
    Facts(s);
  }

  lemma MergeIsWrongForOthers(s: State, m: TokenSet)
    requires Sane(s) && |s.path| >= 2 && |s.path| <= |s.word| + 1 && m in s.registered && s.path[|s.path| - 2] in s.g
    requires Unchanged(s.g, MergeTop(s, m).g, s.path[0])
    ensures Twins(s.g, m, s.path[|s.path| - 1])
  {
    hide Sane, Accepts, Live, Shape, Reduced, Redirect;
    Facts(s);
    FrozenAreReduced(s);
    OnlyTwinsAreSilent(s.g, s.path, s.word, s.registered, m);
  }

  /** Without the condition on digits a key may be shared by nodes that are no twins, and then
      merging them is wrong: it leaves the root's language alone exactly if they are twins. */
  lemma MergeIsRightForTwins(s: State, m: TokenSet)
    requires Sane(s) && |s.path| >= 2 && m in s.registered
    ensures |s.path| <= |s.word| + 1 && s.path[|s.path| - 2] in s.g
    ensures Unchanged(s.g, MergeTop(s, m).g, s.path[0]) <==> Twins(s.g, m, s.path[|s.path| - 1])
  {
    hide Sane, Accepts, MergeTop;
    Facts(s);
    if Twins(s.g, m, s.path[|s.path| - 1]) {
      forall w { MergeSilent(s, m, w); }
    }
    if Unchanged(s.g, MergeTop(s, m).g, s.path[0]) {
      MergeIsWrongForOthers(s, m);
    }
  }

  ghost function RegisterTop(s: State): State
    requires |s.path| >= 2 && s.path[|s.path| - 1] in s.g
  {
    var child := s.path[|s.path| - 1];
    s.(path := s.path[..|s.path| - 1], registered := s.registered + [child],
       minimized := s.minimized[KeyOf(s.g[child]) := child])
  }

  lemma RegisterKeepsSane(s: State)
    requires Sane(s) && TopLive(s) && |s.path| >= 2
    requires KeyOf(s.g[s.path[|s.path| - 1]]) !in s.minimized
    ensures Sane(RegisterTop(s)) && TopLive(RegisterTop(s))
  {
    hide KeyOf, Live, Accepts;
    var n := |s.path|;
    var child := s.path[n - 1];
    var s' := RegisterTop(s);
    ShapeRegister(s.g, s.path, s.word, s.registered);
    assert s'.registered[|s.registered|] == child;
    forall key | key in s'.minimized
      ensures s'.minimized[key] in s'.registered && KeyOf(s.g[s'.minimized[key]]) == key
    {
      if key != KeyOf(s.g[child]) { assert s.minimized[key] in s.registered; }
    }
    LiveThroughEdge(s.g, s.path[n - 2], s.word[n - 2]);
  }

  // ---------------------------------------------------------------- a new word

  ghost function Extend(s: State, leaf: TokenSet): State
    requires 1 <= |s.path| <= |s.word| && s.path[|s.path| - 1] in s.g
  {
    s.(g := WithLeaf(s.g, s.path[|s.path| - 1], s.word[|s.path| - 1], leaf), path := s.path + [leaf],
       made := s.made + [s.word[..|s.path|]], index := s.index[leaf := |s.made|])
  }

  /** There is more of the word to add, its next label is greater than those present, and
      the leaf is fresh. */
  ghost predicate CanExtend(s: State, leaf: TokenSet) {
    && 1 <= |s.path| <= |s.word| && s.path[|s.path| - 1] in s.g && leaf !in s.g
    && LabelsBelow(s.g[s.path[|s.path| - 1]].edges, s.word[|s.path| - 1])
  }

  ghost predicate LabelsBelow(edges: map<char, TokenSet>, ch: char) {
    forall c :: c in edges ==> c < ch
  }

  lemma ExtendKeepsFrozen(s: State, leaf: TokenSet)
    requires Sane(s) && CanExtend(s, leaf)
    ensures forall k :: 0 <= k < |s.registered| ==>
              s.registered[k] in Extend(s, leaf).g && Extend(s, leaf).g[s.registered[k]] == s.g[s.registered[k]]
  {
    hide KeyOf, Live, Accepts, Shape, Registry;
    Facts(s);
    assert Extend(s, leaf).g.Keys == s.g.Keys + {leaf};
  }

  lemma ExtendKeepsSane(s: State, leaf: TokenSet)
    requires Sane(s) && CanExtend(s, leaf)
    ensures Sane(Extend(s, leaf))
  {
    hide KeyOf, Live, Accepts, Shape;
    var last, ch := s.path[|s.path| - 1], s.word[|s.path| - 1];
    assert ch !in s.g[last].edges;
    ShapeExtend(s.g, s.path, s.word, s.registered, leaf);
    ExtendKeepsFrozen(s, leaf);
    FrozenSame(s, Extend(s, leaf).g);
  }

  lemma ExtendSilent(s: State, leaf: TokenSet, w: string)
    requires Sane(s) && CanExtend(s, leaf)
    ensures Accepts(Extend(s, leaf).g, s.path[0], w) <==> Accepts(s.g, s.path[0], w)
  {
    hide KeyOf, Live, Accepts, Shape, Registry;
    Facts(s);
    LeafSilent(s.g, s.path[|s.path| - 1], s.word[|s.path| - 1], leaf, s.path[0], w);
  }

  ghost function MakeFinal(s: State): State
    requires s.path != [] && s.path[|s.path| - 1] in s.g
  {
    s.(g := WithFinal(s.g, s.path[|s.path| - 1]), words := s.words + {s.word})
  }

  lemma FinalKeepsSane(s: State)
    requires Sane(s) && |s.path| == |s.word| + 1
    ensures Sane(MakeFinal(s)) && TopLive(MakeFinal(s))
  {
    hide KeyOf, Live, Accepts, Shape;
    Facts(s);
    ShapeFinal(s.g, s.path, s.word, s.registered);
    FrozenSame(s, MakeFinal(s).g);
    FinalIsLive(MakeFinal(s).g, s.path[|s.path| - 1]);
  }

  lemma FinalIsLive(g: Graph<TokenSet>, n: TokenSet)
    requires n in g && g[n].final
    ensures Live(g, n)
  {
    assert Accepts(g, n, "");
  }
}
