/** What the builder hands out once the path is folded back: a minimal automaton for the words
    if only twins were merged, and a wrong one otherwise. */
module BuilderFinish {
  import opened TokenGraph
  import opened Minimization
  import opened TokenSets
  import opened BuilderTheory
  import opened BuilderNumbers
  import opened BuilderKeys
  import opened BuilderExact
  import Numbering
  import Enumeration

  ghost function Kept(s: State): set<TokenSet>
    requires s.path != []
  {
    (set n | n in s.registered) + {s.path[0]}
  }

  /** Frozen nodes rank by their freezing order, the root above all of them. */
  ghost function OrderRank(s: State): map<TokenSet, nat>
    requires s.path != []
  {
    map n | n in Kept(s) :: if n in s.registered then IndexOf(s.registered, n) else |s.registered|
  }

  ghost function IndexOf(ns: seq<TokenSet>, n: TokenSet): (k: nat)
    requires n in ns
    ensures k < |ns| && ns[k] == n
  {
    if ns[0] == n then 0 else 1 + IndexOf(ns[1..], n)
  }

  ghost function Restrict(g: Graph<TokenSet>, nodes: set<TokenSet>): Graph<TokenSet> {
    map n | n in g && n in nodes :: g[n]
  }

  lemma {:induction false} RestrictSilent(g: Graph<TokenSet>, nodes: set<TokenSet>, n: TokenSet, w: string)
    requires nodes <= g.Keys && n in nodes
    requires forall m, c :: m in nodes && c in g[m].edges ==> g[m].edges[c] in nodes
    ensures Accepts(Restrict(g, nodes), n, w) <==> Accepts(g, n, w)
    decreases |w|
  {
    if w != "" && w[0] in g[n].edges {
      RestrictSilent(g, nodes, g[n].edges[w[0]], w[1..]);
    }
  }

  /** With the path folded back to the root, the root and the frozen nodes are a ranked
      automaton of their own... */
  lemma FinishedIsRanked(s: State)
    requires Sane(s) && |s.path| == 1
    ensures Kept(s) <= s.g.Keys
    ensures Ranked(Restrict(s.g, Kept(s)), OrderRank(s))
  {
    hide KeyOf, Live, Registry;
    var g, rank := Restrict(s.g, Kept(s)), OrderRank(s);
    forall n, c | n in g && c in g[n].edges
      ensures g[n].edges[c] in g && g[n].edges[c] in rank && rank[g[n].edges[c]] < rank[n]
    {
      var m := g[n].edges[c];
      if n in s.registered {
        assert m in s.registered[..rank[n]];
        FirstIndex(s.registered, m, rank[n]);
      } else {
        assert n == s.path[0] && m in s.registered;
      }
      assert m in Kept(s);
    }
  }

  lemma FirstIndex(ns: seq<TokenSet>, n: TokenSet, k: nat)
    requires k <= |ns| && n in ns[..k]
    ensures n in ns && IndexOf(ns, n) < k
  {
    assert k > 0;
    if ns[0] != n {
      assert ns[..k][1..] == ns[1..][..k - 1];
      var i :| 0 <= i < k && ns[..k][i] == n;
      assert i > 0 && ns[1..][..k - 1][i - 1] == n;
      FirstIndex(ns[1..], n, k - 1);
    }
  }

  /** No two reachable nodes accept the same words. */
  ghost predicate Minimal(g: Graph<TokenSet>, root: TokenSet) {
    forall a, b {:trigger SameLanguage(g, a, b)} ::
      a in g && b in g && Reachable(g, root, a) && Reachable(g, root, b) && a != b ==> !SameLanguage(g, a, b)
  }

  /** Every node can be reached, and from each something is accepted, unless there is only the root. */
  ghost predicate Trim(g: Graph<TokenSet>, root: TokenSet) {
    forall n :: n in g ==> Reachable(g, root, n) && (Live(g, n) || g.Keys == {root})
  }

  lemma {:induction false} RestrictLeads(g: Graph<TokenSet>, nodes: set<TokenSet>, r: TokenSet, v: string, n: TokenSet)
    requires nodes <= g.Keys && r in nodes && Leads(g, r, v, n)
    requires forall m, c :: m in nodes && c in g[m].edges ==> g[m].edges[c] in nodes
    ensures Leads(Restrict(g, nodes), r, v, n)
    decreases |v|
  {
    if v != "" { RestrictLeads(g, nodes, g[r].edges[v[0]], v[1..], n); }
  }

  lemma KeptIsClosed(s: State)
    requires Sane(s) && |s.path| == 1
    ensures Kept(s) <= s.g.Keys && s.path[0] in Kept(s)
    ensures forall m, c :: m in Kept(s) && c in s.g[m].edges ==> s.g[m].edges[c] in Kept(s)
  {
    hide KeyOf, Live, Registry;
  }

  lemma FrozenIsUseful(s: State, m: TokenSet)
    requires Sane(s) && |s.path| == 1 && Numbered(s) && m in s.registered
    ensures var g := Restrict(s.g, Kept(s)); Reachable(g, s.path[0], m) && Live(g, m)
  {
    hide Sane, Restrict, Leads, Live, Kept;
    KeptIsClosed(s);
    FinishedIsReduced(s, Restrict(s.g, Kept(s)));
    assert IsFirst(s, m);
    RestrictLeads(s.g, Kept(s), s.path[0], s.made[Index(s, m)], m);
  }

  /** ...which has no useless node... */
  lemma FinishedIsTrim(s: State)
    requires Sane(s) && |s.path| == 1 && Numbered(s)
    ensures Trim(Restrict(s.g, Kept(s)), s.path[0])
  {
    hide Sane, Numbered, Accepts, Leads, Live, Reachable;
    KeptIsClosed(s);
    var g, root := Restrict(s.g, Kept(s)), s.path[0];
    RootLeads(g, root);
    forall m | m in s.registered { FrozenIsUseful(s, m); }
    if s.registered != [] {
      assert s.registered[0] in s.registered;
      LiveFrom(g, root, s.registered[0]);
    }
  }

  lemma LiveFrom(g: Graph<TokenSet>, root: TokenSet, m: TokenSet)
    requires Reachable(g, root, m) && Live(g, m)
    ensures Live(g, root)
  {
    hide Leads, Accepts;
    var v :| Leads(g, root, v, m);
    var u :| Accepts(g, m, u);
    LeadsThenAccepts(g, root, v, m, u);
  }

  lemma RootLeads(g: Graph<TokenSet>, root: TokenSet)
    requires root in g
    ensures Reachable(g, root, root)
  {
    assert Leads(g, root, "", root);
  }

  /** ...accepts the inserted words and is minimal, if only twins were merged. */
  lemma FinishedIsExact(s: State)
    requires Sane(s) && Exact(s) && |s.path| == 1 && s.clean
    ensures forall w :: Accepts(Restrict(s.g, Kept(s)), s.path[0], w) <==> w in s.words
    ensures Minimal(Restrict(s.g, Kept(s)), s.path[0]) && Trim(Restrict(s.g, Kept(s)), s.path[0])
  {
    hide KeyOf, Live, Registry, Accepts, SameLanguage, Reachable, Trim, Numbered;
    var g, root := Restrict(s.g, Kept(s)), s.path[0];
    FinishedIsRanked(s);
    FinishedIsTrim(s);
    FinishedAccepts(s);
    FinishedIsReduced(s, g);
    forall a, b | a in g && b in g && Reachable(g, root, a) && Reachable(g, root, b) && a != b
      ensures !SameLanguage(g, a, b)
    {
      ReachableNodesDiffer(g, s.registered, root, s.words, a, b);
    }
  }

  lemma FinishedAccepts(s: State)
    requires Sane(s) && |s.path| == 1
    ensures forall w :: Accepts(Restrict(s.g, Kept(s)), s.path[0], w) <==> Accepts(s.g, s.path[0], w)
  {
    hide Sane, Accepts;
    KeptIsClosed(s);
    forall w ensures Accepts(Restrict(s.g, Kept(s)), s.path[0], w) <==> Accepts(s.g, s.path[0], w) {
      RestrictSilent(s.g, Kept(s), s.path[0], w);
    }
  }

  // ---------------------------------------------------------------- after a merge of others

  /** r accepts what is left to read behind a. */
  ghost predicate Reads(s: State, r: TokenSet, a: string) {
    forall x :: Accepts(s.g, r, x) <==> a + x in s.words
  }

  /** No frozen node accepts what a lost one did: it would have the lost one's edges, hence its
      key, but another node has that. */
  lemma NoneForLost(s: State, u: string, t: TokenSet, r: TokenSet)
    requires Sane(s) && LostAt(s, u, t) && r in s.registered
    ensures !Reads(s, r, u)
  {
    hide KeyOf, Accepts, Live, Off, Shape;
    if Reads(s, r, u) {
      FrozenAreReduced(s);
      forall x ensures Accepts(s.g, t, x) <==> Accepts(s.g, r, x) {}
      SameLanguageIsTwin(s.g, s.registered, t, r);
      KeyIsTaken(s, r);
    }
  }

  /** Hence none accepts what is left behind any prefix of the lost one's. */
  lemma {:induction false} NoneForPrefix(s: State, u: string, t: TokenSet, i: nat, r: TokenSet)
    requires Sane(s) && LostAt(s, u, t) && 0 < i <= |u| && r in s.registered
    ensures !Reads(s, r, u[..i])
    decreases |u| - i
  {
    hide Sane, LostAt, Accepts;
    if i == |u| {
      assert u[..i] == u;
      NoneForLost(s, u, t, r);
    } else if Reads(s, r, u[..i]) {
      FrozenTargets(s, r);
      var next := ReadsOn(s, u, t, i, r);
      NoneForPrefix(s, u, t, i + 1, next);
    }
  }

  /** The same, apart from the empty word. */
  ghost predicate ReadsMore(s: State, r: TokenSet, a: string) {
    forall x :: x != "" ==> (Accepts(s.g, r, x) <==> a + x in s.words)
  }

  /** A node that reads what is left behind a prefix has an edge to one for the next prefix. */
  lemma ReadsOn(s: State, u: string, t: TokenSet, i: nat, r: TokenSet) returns (next: TokenSet)
    requires Sane(s) && LostAt(s, u, t) && i < |u| && r in s.g && ReadsMore(s, r, u[..i])
    requires forall c :: c in s.g[r].edges ==> s.g[r].edges[c] in s.registered
    ensures next in s.registered && Reads(s, next, u[..i + 1])
  {
    hide Sane, Off;
    var c := u[i];
    var x :| Accepts(s.g, t, x);
    assert u + x == u[..i] + ([c] + (u[i + 1..] + x));
    assert Accepts(s.g, r, [c] + (u[i + 1..] + x));
    next := s.g[r].edges[c];
    forall y ensures Accepts(s.g, next, y) <==> u[..i + 1] + y in s.words {
      assert u[..i + 1] + y == u[..i] + ([c] + y);
      assert ([c] + y)[1..] == y;
    }
  }

  /** An automaton made with a merge of others is wrong. */
  lemma FinishedIsWrong(s: State)
    requires Sane(s) && Lost(s) && |s.path| == 1
    ensures !ReadsMore(s, s.path[0], "")
  {
    hide Sane, LostAt, Accepts;
    var u, t :| t in s.g && LostAt(s, u, t);
    if ReadsMore(s, s.path[0], "") {
      assert u != "" by { LostSomewhere(s, u, t); }
      assert u[..0] == "" && forall x :: "" + x == x;
      RootTargets(s);
      var next := ReadsOn(s, u, t, 0, s.path[0]);
      NoneForPrefix(s, u, t, 1, next);
    }
  }

  lemma LostSomewhere(s: State, u: string, t: TokenSet)
    requires LostAt(s, u, t)
    ensures u != ""
  {
  }

  lemma FrozenTargets(s: State, r: TokenSet)
    requires Sane(s) && r in s.registered
    ensures r in s.g && forall c :: c in s.g[r].edges ==> s.g[r].edges[c] in s.registered
  {
    hide KeyOf, Live, Registry;
  }

  lemma RootTargets(s: State)
    requires Sane(s) && |s.path| == 1
    ensures s.path[0] in s.g && forall c :: c in s.g[s.path[0]].edges ==> s.g[s.path[0]].edges[c] in s.registered
  {
    hide KeyOf, Live, Registry;
  }

  /** For the finished automaton, accepting the words, having merged twins only and keys that
      tell the nodes of the list apart are one. */
  lemma FinishedIffTelling(s: State)
    requires Sane(s) && Exact(s) && |s.path| == 1
    requires Numbering.OnlyPrefixes(s.words, s.made) && Enumeration.NoRepeats(s.made)
    ensures InStep(s) ==> (s.clean <==> Numbering.Apart(s.words, s.made, s.path[0].id))
    ensures s.clean ==> AcceptsWords(s)
    ensures ReadsMore(s, s.path[0], "") ==> s.clean
  {
    hide KeyOf, Live, Registry, Shape, Numbered, Lost, Numbering.Apart, Numbering.OnlyPrefixes, Accepts;
    if s.clean {
      Facts(s);
      if InStep(s) { FinishedIsTelling(s); }
    } else {
      assert Future(s, |s.path|, s.words, s.made);
      FinishedIsWrong(s);
    }
  }

  lemma FinishedIsReduced(s: State, g: Graph<TokenSet>)
    requires Sane(s) && |s.path| == 1 && g == Restrict(s.g, Kept(s)) && Kept(s) <= s.g.Keys
    ensures Reduced(g, s.registered) && s.path[0] in g && s.path[0] !in s.registered
    ensures forall c :: c in g[s.path[0]].edges ==> g[s.path[0]].edges[c] in s.registered
  {
    hide KeyOf, Live;
    FrozenStayLive(s.g, g, s.registered);
  }

  /** The finished automaton is the smallest there is: every automaton for the same words, over
      whatever nodes, has at least as many. */
  lemma Smallest<M>(g: Graph<TokenSet>, root: TokenSet, h: Graph<M>, start: M)
    requires root in g && Minimal(g, root) && Trim(g, root)
    requires start in h && forall w :: Accepts(g, root, w) <==> Accepts(h, start, w)
    ensures |g.Keys| <= |h.Keys|
  {
    if g.Keys == {root} {
      assert h.Keys == {start} + (h.Keys - {start});
    } else {
      NoSmallerAutomaton(g, root, g.Keys, h, start, h.Keys);
    }
  }
}
