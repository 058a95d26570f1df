/** The automata behind lunr.TokenSet, as values: a graph maps each node to its
    finality and its labelled edges.  The node type is a parameter, so the same theory
    speaks of heap snapshots (nodes are TokenSet objects) and of any other automaton. */
module TokenGraph {

  datatype Node<N> = Node(final: bool, edges: map<char, N>)

  type Graph<N(==)> = map<N, Node<N>>

  const WILDCARD: char := '*'

  ghost predicate Closed<N>(g: Graph<N>) {
    forall n, c :: n in g && c in g[n].edges ==> g[n].edges[c] in g
  }

  /** Plain (deterministic) acceptance, every label taken literally. */
  ghost predicate Accepts<N>(g: Graph<N>, n: N, w: string)
    decreases |w|
  {
    n in g &&
    if w == "" then g[n].final
    else w[0] in g[n].edges && Accepts(g, g[n].edges[w[0]], w[1..])
  }

  /** Query acceptance: an edge labelled '*' consumes any one character. */
  ghost predicate Matches<N>(g: Graph<N>, q: N, w: string)
    decreases |w|
  {
    q in g &&
    if w == "" then g[q].final
    else
      || (w[0] in g[q].edges && Matches(g, g[q].edges[w[0]], w[1..]))
      || (WILDCARD in g[q].edges && Matches(g, g[q].edges[WILDCARD], w[1..]))
  }

  /** Some word is accepted from n. */
  ghost predicate Live<N>(g: Graph<N>, n: N) {
    exists w :: Accepts(g, n, w)
  }

  ghost predicate SameLanguage<N>(g: Graph<N>, a: N, b: N) {
    forall w :: Accepts(g, a, w) <==> Accepts(g, b, w)
  }

  /** n is where the word v leads from r. */
  ghost predicate Leads<N>(g: Graph<N>, r: N, v: string, n: N)
    decreases |v|
  {
    r in g &&
    if v == "" then r == n
    else v[0] in g[r].edges && Leads(g, g[r].edges[v[0]], v[1..], n)
  }

  ghost predicate Reachable<N>(g: Graph<N>, r: N, n: N) {
    exists v :: Leads(g, r, v, n)
  }

  /** Every edge goes to a node of smaller rank; a graph with ranks has no cycle. */
  ghost predicate Ranked<N>(g: Graph<N>, rank: map<N, nat>) {
    && Closed(g)
    && g.Keys <= rank.Keys
    && forall n, c :: n in g && c in g[n].edges ==> rank[g[n].edges[c]] < rank[n]
  }

  ghost predicate DegreeAtMost<N>(g: Graph<N>, d: nat) {
    forall n :: n in g ==> |g[n].edges| <= d
  }

  lemma {:induction false} DegreeBound<N>(g: Graph<N>) returns (d: nat)
    ensures DegreeAtMost(g, d)
    decreases |g|
  {
    if n :| n in g {
      var rest := map m | m in g && m != n :: g[m];
      assert rest.Keys == g.Keys - {n};
      assert |rest| == |rest.Keys| < |g.Keys| == |g|;
      var e := DegreeBound(rest);
      d := if e < |g[n].edges| then |g[n].edges| else e;
      forall m | m in g ensures |g[m].edges| <= d {
        if m != n { assert m in rest; }
      }
    } else {
      d := 0;
    }
  }

  /** Walking v first and accepting the rest is accepting the whole word. */
  lemma {:induction false} LeadsThenAccepts<N>(g: Graph<N>, r: N, v: string, n: N, u: string)
    requires Leads(g, r, v, n)
    ensures Accepts(g, r, v + u) <==> Accepts(g, n, u)
    decreases |v|
  {
    if v == "" {
      assert v + u == u;
    } else {
      assert (v + u)[1..] == v[1..] + u;
      LeadsThenAccepts(g, g[r].edges[v[0]], v[1..], n, u);
    }
  }

  lemma {:induction false} LeadsStep<N>(g: Graph<N>, r: N, v: string, n: N, c: char)
    requires Closed(g)
    requires Leads(g, r, v, n) && n in g && c in g[n].edges
    ensures Leads(g, r, v + [c], g[n].edges[c])
    decreases |v|
  {
    if v != "" {
      assert (v + [c])[1..] == v[1..] + [c];
      LeadsStep(g, g[r].edges[v[0]], v[1..], n, c);
    } else {
      assert v + [c] == [c];
      assert Leads(g, g[n].edges[c], "", g[n].edges[c]);
    }
  }

  lemma {:induction false} LeadsUnique<N>(g: Graph<N>, r: N, v: string, n: N, m: N)
    requires Leads(g, r, v, n) && Leads(g, r, v, m)
    ensures n == m
    decreases |v|
  {
    if v != "" { LeadsUnique(g, g[r].edges[v[0]], v[1..], n, m); }
  }

  /** A walk can be interrupted. */
  lemma {:induction false} LeadsSplit<N>(g: Graph<N>, r: N, v: string, y: string, n: N) returns (m: N)
    requires Leads(g, r, v + y, n)
    ensures Leads(g, r, v, m) && Leads(g, m, y, n)
    decreases |v|
  {
    if v == "" {
      assert v + y == y;
      m := r;
    } else {
      assert (v + y)[1..] == v[1..] + y;
      m := LeadsSplit(g, g[r].edges[v[0]], v[1..], y, n);
    }
  }

  lemma {:induction false} AcceptedLeads<N>(g: Graph<N>, r: N, w: string) returns (n: N)
    requires Accepts(g, r, w)
    ensures Leads(g, r, w, n) && n in g
    decreases |w|
  {
    if w == "" { n := r; } else { n := AcceptedLeads(g, g[r].edges[w[0]], w[1..]); }
  }

  // ---------------------------------------------------------------- growing trees

  /** A growing automaton: edges and finality are never taken back. */
  ghost predicate Grows<N>(g: Graph<N>, g': Graph<N>) {
    forall n :: n in g ==>
      && n in g'
      && (g[n].final ==> g'[n].final)
      && forall c :: c in g[n].edges ==> c in g'[n].edges && g'[n].edges[c] == g[n].edges[c]
  }

  /** A graph and, for every node but the root, its one incoming edge. */
  datatype Tree<!N(==)> = Tree(graph: Graph<N>, parent: map<N, (N, char)>)

  ghost predicate IsTree<N>(root: N, t: Tree<N>) {
    && Closed(t.graph) && root in t.graph
    && t.parent.Keys == t.graph.Keys - {root}
    && forall n, c :: n in t.graph && c in t.graph[n].edges ==>
         t.graph[n].edges[c] in t.parent && t.parent[t.graph[n].edges[c]] == (n, c)
  }

  /** `next` is where the edge of n labelled c goes, or a fresh node if there is none. */
  ghost predicate CanGraft<N>(root: N, t: Tree<N>, n: N, c: char, next: N) {
    && IsTree(root, t) && n in t.graph
    && if c in t.graph[n].edges then next == t.graph[n].edges[c] else next !in t.graph
  }

  /** An existing edge only gains finality; a missing one is created. */
  ghost function Graft<N>(root: N, t: Tree<N>, n: N, c: char, next: N, final: bool): Tree<N>
    requires CanGraft(root, t, n, c, next)
  {
    if c in t.graph[n].edges then
      t.(graph := t.graph[next := t.graph[next].(final := t.graph[next].final || final)])
    else
      Tree(t.graph[n := t.graph[n].(edges := t.graph[n].edges[c := next])][next := Node(final, map[])],
           t.parent[next := (n, c)])
  }

  lemma GraftEdges<N>(root: N, t: Tree<N>, n: N, c: char, next: N, final: bool)
    requires CanGraft(root, t, n, c, next)
    ensures var t' := Graft(root, t, n, c, next, final);
            && c in t'.graph[n].edges && t'.graph[n].edges[c] == next
            && (forall m, d :: m in t'.graph && d in t'.graph[m].edges && !(m == n && d == c) ==>
                  m in t.graph && d in t.graph[m].edges && t'.graph[m].edges[d] == t.graph[m].edges[d])
  {
    var t' := Graft(root, t, n, c, next, final);
    if c in t.graph[n].edges {
      assert forall m :: m in t.graph ==> t'.graph[m].edges == t.graph[m].edges;
    } else {
      forall m, d | m in t'.graph && d in t'.graph[m].edges && !(m == n && d == c)
        ensures m in t.graph && d in t.graph[m].edges && t'.graph[m].edges[d] == t.graph[m].edges[d]
      {
        assert m != next;
      }
    }
  }

  lemma GraftGrows<N>(root: N, t: Tree<N>, n: N, c: char, next: N, final: bool)
    requires CanGraft(root, t, n, c, next)
    ensures Grows(t.graph, Graft(root, t, n, c, next, final).graph)
  {
  }

  lemma GraftIsTree<N>(root: N, t: Tree<N>, n: N, c: char, next: N, final: bool)
    requires CanGraft(root, t, n, c, next)
    ensures var t' := Graft(root, t, n, c, next, final);
            && IsTree(root, t') && Grows(t.graph, t'.graph)
            && t'.graph.Keys == t.graph.Keys + {next}
            && next != root && next in t'.parent && t'.parent[next] == (n, c)
            && (forall m :: m in t.parent ==> m in t'.parent && t'.parent[m] == t.parent[m])
            && (forall m :: m in t.graph && m != next ==> t'.graph[m].final == t.graph[m].final)
            && (t'.graph[next].final <==> (next in t.graph && t.graph[next].final) || final)
            && c in t'.graph[n].edges && t'.graph[n].edges[c] == next
            && (forall m, d :: m in t'.graph && d in t'.graph[m].edges && !(m == n && d == c) ==>
                  m in t.graph && d in t.graph[m].edges && t'.graph[m].edges[d] == t.graph[m].edges[d])
  {
    hide Grows;
    GraftEdges(root, t, n, c, next, final);
    GraftGrows(root, t, n, c, next, final);
  }

  ghost function MadeFinal<N>(t: Tree<N>, n: N): Tree<N>
    requires n in t.graph
  {
    t.(graph := t.graph[n := t.graph[n].(final := true)])
  }

  lemma MadeFinalIsTree<N>(root: N, t: Tree<N>, n: N)
    requires IsTree(root, t) && n in t.graph
    ensures IsTree(root, MadeFinal(t, n)) && Grows(t.graph, MadeFinal(t, n).graph)
  {
    assert forall m :: m in t.graph ==> MadeFinal(t, n).graph[m].edges == t.graph[m].edges;
  }
}
