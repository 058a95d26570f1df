/** The work-list product of an indexed automaton `a` and a query automaton `b`.  A frame
    pairs one query node and one indexed node with the output node standing for them;
    several frames may share an output node.  `seen` is every frame pushed so far. */
module Product {
  import opened TokenGraph
  import WorkStack

  datatype Frame<T> = Frame(qNode: T, output: T, node: T)

  /** The output under construction and the indexed node each output node stands for. */
  datatype Trie<!T(==)> = Trie(tree: Tree<T>, origin: map<T, T>)

  /** The two automata, as values; constant during the run. */
  datatype Factors<!T(==)> = Factors(indexed: Graph<T>, query: Graph<T>)

  ghost predicate Fits(qe: char, ne: char) { ne == qe || qe == WILDCARD }

  ghost predicate Pair<T>(x: Factors<T>, f: Frame<T>, qe: char, ne: char) {
    && f.qNode in x.query && f.node in x.indexed
    && qe in x.query[f.qNode].edges && ne in x.indexed[f.node].edges && Fits(qe, ne)
  }

  ghost function Successor<T>(x: Factors<T>, f: Frame<T>, qe: char, ne: char, next: T): Frame<T>
    requires Pair(x, f, qe, ne)
  {
    Frame(x.query[f.qNode].edges[qe], next, x.indexed[f.node].edges[ne])
  }

  ghost predicate BothFinal<T>(x: Factors<T>, f: Frame<T>) {
    f.qNode in x.query && f.node in x.indexed && x.query[f.qNode].final && x.indexed[f.node].final
  }

  // ---------------------------------------------------------------- what every step keeps

  ghost predicate HasCause<T>(x: Factors<T>, t: Trie<T>, seen: set<Frame<T>>, f: Frame<T>) {
    f.output in t.tree.parent &&
    var (o, ne) := t.tree.parent[f.output];
    exists e, qe :: e in seen && e.output == o && Pair(x, e, qe, ne) && f == Successor(x, e, qe, ne, f.output)
  }

  ghost predicate Earned<T>(x: Factors<T>, t: Trie<T>, seen: set<Frame<T>>, o: T) {
    o in t.tree.parent && exists f :: f in seen && f.output == o && BothFinal(x, f)
  }

  ghost predicate IsTrie<T>(x: Factors<T>, root: T, t: Trie<T>) {
    && IsTree(root, t.tree)
    && t.origin.Keys == t.tree.graph.Keys
    && (forall o :: o in t.tree.graph ==> t.origin[o] in x.indexed)
    && (forall o, c :: o in t.tree.graph && c in t.tree.graph[o].edges ==>
          && c in x.indexed[t.origin[o]].edges
          && t.origin[t.tree.graph[o].edges[c]] == x.indexed[t.origin[o]].edges[c])
  }

  ghost predicate Inv<T>(x: Factors<T>, b: T, a: T, root: T, t: Trie<T>, seen: set<Frame<T>>) {
    && Closed(x.indexed) && Closed(x.query)
    && IsTrie(x, root, t)
    && Frame(b, root, a) in seen
    && Seated(x, t, seen)
    && Caused(x, t, seen, Frame(b, root, a))
    && AllEarned(x, t, seen)
  }

  ghost predicate Seated<T>(x: Factors<T>, t: Trie<T>, seen: set<Frame<T>>) {
    forall f :: f in seen ==>
      && f.qNode in x.query && f.output in t.tree.graph && f.node in x.indexed
      && f.output in t.origin && f.node == t.origin[f.output]
  }

  ghost predicate Caused<T>(x: Factors<T>, t: Trie<T>, seen: set<Frame<T>>, first: Frame<T>) {
    forall f :: f in seen ==> f == first || HasCause(x, t, seen, f)
  }

  ghost predicate AllEarned<T>(x: Factors<T>, t: Trie<T>, seen: set<Frame<T>>) {
    forall o :: o in t.tree.graph && t.tree.graph[o].final ==> Earned(x, t, seen, o)
  }

  // ---------------------------------------------------------------- progress

  ghost predicate PairDone<T>(x: Factors<T>, g: Graph<T>, seen: set<Frame<T>>, f: Frame<T>, qe: char, ne: char)
    requires Pair(x, f, qe, ne)
  {
    && f.output in g && ne in g[f.output].edges
    && var next := g[f.output].edges[ne];
    && next in g
    && Successor(x, f, qe, ne, next) in seen
    && (BothFinal(x, Successor(x, f, qe, ne, next)) ==> g[next].final)
  }

  ghost predicate Expanded<T>(x: Factors<T>, g: Graph<T>, seen: set<Frame<T>>, f: Frame<T>) {
    forall qe, ne :: Pair(x, f, qe, ne) ==> PairDone(x, g, seen, f, qe, ne)
  }

  lemma DoneStays<T>(x: Factors<T>, g: Graph<T>, g': Graph<T>, seen: set<Frame<T>>, seen': set<Frame<T>>,
                     f: Frame<T>, qe: char, ne: char)
    requires Grows(g, g') && seen <= seen'
    requires Pair(x, f, qe, ne) && PairDone(x, g, seen, f, qe, ne)
    ensures PairDone(x, g', seen', f, qe, ne)
  {
  }

  lemma ExpandedStays<T>(x: Factors<T>, g: Graph<T>, g': Graph<T>, seen: set<Frame<T>>, seen': set<Frame<T>>,
                         f: Frame<T>)
    requires Grows(g, g') && seen <= seen' && Expanded(x, g, seen, f)
    ensures Expanded(x, g', seen', f)
  {
    forall qe, ne | Pair(x, f, qe, ne) ensures PairDone(x, g', seen', f, qe, ne) {
      DoneStays(x, g, g', seen, seen', f, qe, ne);
    }
  }

  // ---------------------------------------------------------------- one step

  /** f may handle this pair of edges, and `next` is the existing target or a fresh node. */
  ghost predicate Ready<T>(x: Factors<T>, root: T, t: Trie<T>, f: Frame<T>, qe: char, ne: char, next: T) {
    && Closed(x.indexed) && Closed(x.query)
    && IsTrie(x, root, t) && Pair(x, f, qe, ne)
    && CanGraft(root, t.tree, f.output, ne, next) && f.node == t.origin[f.output]
  }

  /** The output after handling one pair of edges of frame f. */
  ghost function Advance<T>(x: Factors<T>, root: T, t: Trie<T>, f: Frame<T>, qe: char, ne: char, next: T): Trie<T>
    requires Ready(x, root, t, f, qe, ne, next)
  {
    Trie(Graft(root, t.tree, f.output, ne, next, BothFinal(x, Successor(x, f, qe, ne, next))),
         t.origin[next := x.indexed[f.node].edges[ne]])
  }

  lemma AdvanceIsTrie<T>(x: Factors<T>, root: T, t: Trie<T>, f: Frame<T>, qe: char, ne: char, next: T)
    requires Ready(x, root, t, f, qe, ne, next)
    ensures IsTrie(x, root, Advance(x, root, t, f, qe, ne, next))
  {
    hide Graft, IsTree, Closed;
    var t' := Advance(x, root, t, f, qe, ne, next);
    GraftIsTree(root, t.tree, f.output, ne, next, BothFinal(x, Successor(x, f, qe, ne, next)));
    OriginKept(x, root, t, f, ne, next);
    forall o, c | o in t'.tree.graph && c in t'.tree.graph[o].edges
      ensures o in t'.origin && t'.origin[o] in x.indexed && c in x.indexed[t'.origin[o]].edges
      ensures var m := t'.tree.graph[o].edges[c]; m in t'.origin && t'.origin[m] == x.indexed[t'.origin[o]].edges[c]
    {
      if !(o == f.output && c == ne) {
        TargetInTree(root, t.tree, o, c);
      }
    }
  }

  lemma OriginKept<T>(x: Factors<T>, root: T, t: Trie<T>, f: Frame<T>, ne: char, next: T)
    requires Closed(x.indexed) && IsTrie(x, root, t) && CanGraft(root, t.tree, f.output, ne, next)
    requires f.node == t.origin[f.output] && ne in x.indexed[f.node].edges
    ensures var origin' := t.origin[next := x.indexed[f.node].edges[ne]];
            && (forall o :: o in t.tree.graph ==> o in origin' && origin'[o] == t.origin[o])
            && origin'.Keys == t.tree.graph.Keys + {next}
            && x.indexed[f.node].edges[ne] in x.indexed
  {
    if ne in t.tree.graph[f.output].edges {
      assert t.origin[next] == x.indexed[f.node].edges[ne];
    }
  }

  lemma TargetInTree<T>(root: T, t: Tree<T>, o: T, c: char)
    requires IsTree(root, t) && o in t.graph && c in t.graph[o].edges
    ensures t.graph[o].edges[c] in t.graph
  {
  }

  lemma AdvanceSeated<T>(x: Factors<T>, root: T, t: Trie<T>, seen: set<Frame<T>>, f: Frame<T>, qe: char, ne: char,
                         next: T)
    requires Ready(x, root, t, f, qe, ne, next) && Seated(x, t, seen)
    ensures Seated(x, Advance(x, root, t, f, qe, ne, next), seen + {Successor(x, f, qe, ne, next)})
  {
    if ne in t.tree.graph[f.output].edges {
      assert t.origin[next] == x.indexed[f.node].edges[ne];
    }
  }

  lemma AdvanceCaused<T>(x: Factors<T>, root: T, t: Trie<T>, seen: set<Frame<T>>, first: Frame<T>,
                         f: Frame<T>, qe: char, ne: char, next: T)
    requires Ready(x, root, t, f, qe, ne, next) && Caused(x, t, seen, first) && f in seen
    ensures Caused(x, Advance(x, root, t, f, qe, ne, next), seen + {Successor(x, f, qe, ne, next)}, first)
  {
    var t', h := Advance(x, root, t, f, qe, ne, next), Successor(x, f, qe, ne, next);
    var seen' := seen + {h};
    GraftIsTree(root, t.tree, f.output, ne, next, BothFinal(x, h));
    assert f in seen';
    assert HasCause(x, t', seen', h);
    forall e | e in seen && e != first ensures HasCause(x, t', seen', e) {
      var (o, c) := t.tree.parent[e.output];
      var d, qd :| d in seen && d.output == o && Pair(x, d, qd, c) && e == Successor(x, d, qd, c, e.output);
      assert d in seen' && t'.tree.parent[e.output] == (o, c);
    }
  }

  lemma AdvanceEarned<T>(x: Factors<T>, root: T, t: Trie<T>, seen: set<Frame<T>>, f: Frame<T>, qe: char, ne: char,
                         next: T)
    requires Ready(x, root, t, f, qe, ne, next) && AllEarned(x, t, seen)
    ensures AllEarned(x, Advance(x, root, t, f, qe, ne, next), seen + {Successor(x, f, qe, ne, next)})
  {
    var t', h := Advance(x, root, t, f, qe, ne, next), Successor(x, f, qe, ne, next);
    var seen' := seen + {h};
    GraftIsTree(root, t.tree, f.output, ne, next, BothFinal(x, h));
    assert h in seen' && h.output == next;
    forall o | o in t.tree.graph && t.tree.graph[o].final ensures Earned(x, t', seen', o) {
      var e :| e in seen && e.output == o && BothFinal(x, e);
      assert e in seen';
    }
  }

  lemma AdvanceKeepsInv<T>(x: Factors<T>, b: T, a: T, root: T, t: Trie<T>, seen: set<Frame<T>>,
                           f: Frame<T>, qe: char, ne: char, next: T)
    requires Inv(x, b, a, root, t, seen) && f in seen && Ready(x, root, t, f, qe, ne, next)
    ensures var t' := Advance(x, root, t, f, qe, ne, next);
            var seen' := seen + {Successor(x, f, qe, ne, next)};
            && Inv(x, b, a, root, t', seen')
            && Grows(t.tree.graph, t'.tree.graph)
            && PairDone(x, t'.tree.graph, seen', f, qe, ne)
  {
    GraftIsTree(root, t.tree, f.output, ne, next, BothFinal(x, Successor(x, f, qe, ne, next)));
    AdvanceIsTrie(x, root, t, f, qe, ne, next);
    AdvanceSeated(x, root, t, seen, f, qe, ne, next);
    AdvanceCaused(x, root, t, seen, Frame(b, root, a), f, qe, ne, next);
    AdvanceEarned(x, root, t, seen, f, qe, ne, next);
  }

  // ---------------------------------------------------------------- a pass over one frame

  /** The run as a whole: what is multiplied, where the output starts, and the ranks that
      make it end. */
  datatype Task<!T(==)> = Task(x: Factors<T>, b: T, a: T, root: T, rank: map<T, nat>) {
    ghost predicate Keeps(t: Trie<T>, seen: set<Frame<T>>) {
      Inv(x, b, a, root, t, seen) && Ranked(x.indexed, rank)
    }
  }

  ghost predicate AllExpandedBut<T>(x: Factors<T>, g: Graph<T>, seen: set<Frame<T>>, open: set<Frame<T>>) {
    forall e {:trigger Expanded(x, g, seen, e)} :: e in seen && e !in open ==> Expanded(x, g, seen, e)
  }

  /** Between passes: everything pushed is pending or expanded. */
  ghost predicate Idle<T>(k: Task<T>, t: Trie<T>, seen: set<Frame<T>>, stack: seq<Frame<T>>) {
    && k.Keeps(t, seen)
    && (forall e :: e in stack ==> e in seen)
    && AllExpandedBut(k.x, t.tree.graph, seen, set e | e in stack)
  }

  /** The position (q, n) of the two nested loops over the edges of f. */
  datatype Scan<!T> = Scan(f: Frame<T>, qs: seq<char>, ns: seq<char>, rest: seq<Frame<T>>) {
    ghost predicate Covers(x: Factors<T>) {
      && f.qNode in x.query && f.node in x.indexed
      && (forall c :: c in qs <==> c in x.query[f.qNode].edges)
      && (forall c :: c in ns <==> c in x.indexed[f.node].edges)
    }
  }

  ghost predicate DoneAt<T>(x: Factors<T>, g: Graph<T>, seen: set<Frame<T>>, f: Frame<T>, qe: char, ne: char) {
    Fits(qe, ne) ==> Pair(x, f, qe, ne) && PairDone(x, g, seen, f, qe, ne)
  }

  ghost predicate DoneUpTo<T>(x: Factors<T>, g: Graph<T>, seen: set<Frame<T>>, s: Scan<T>, q: nat, n: nat) {
    forall i, j {:trigger DoneAt(x, g, seen, s.f, s.qs[i], s.ns[j])} ::
      0 <= i < |s.qs| && 0 <= j < |s.ns| && (i < q || (i == q && j < n)) ==> DoneAt(x, g, seen, s.f, s.qs[i], s.ns[j])
  }

  ghost predicate Working<T>(k: Task<T>, t: Trie<T>, seen: set<Frame<T>>, stack: seq<Frame<T>>, s: Scan<T>, q: nat,
                             n: nat) {
    && k.Keeps(t, seen) && s.f in seen && s.Covers(k.x)
    && (forall e :: e in stack ==> e in seen)
    && AllExpandedBut(k.x, t.tree.graph, seen, (set e | e in stack) + {s.f})
    && DoneUpTo(k.x, t.tree.graph, seen, s, q, n)
    && s.rest <= stack && |stack| <= |s.rest| + WorkStack.Times(q, |s.ns|) + n
    && (forall i :: |s.rest| <= i < |stack| ==> stack[i].node in k.rank && k.rank[stack[i].node] < k.rank[s.f.node])
  }

  lemma Begin<T>(k: Task<T>)
    requires Closed(k.x.query) && Ranked(k.x.indexed, k.rank) && k.a in k.x.indexed && k.b in k.x.query
    ensures var f := Frame(k.b, k.root, k.a);
            Idle(k, Trie(Tree(map[k.root := Node(false, map[])], map[]), map[k.root := k.a]), {f}, [f])
  {
  }

  /** The node a popped frame refers to in each automaton. */
  lemma Top<T>(k: Task<T>, t: Trie<T>, seen: set<Frame<T>>, stack: seq<Frame<T>>)
    requires Idle(k, t, seen, stack) && stack != []
    ensures var f := stack[|stack| - 1];
            f.qNode in k.x.query && f.node in k.x.indexed && f.output in t.tree.graph
  {
    assert stack[|stack| - 1] in seen;
  }

  lemma Pop<T>(k: Task<T>, t: Trie<T>, seen: set<Frame<T>>, stack: seq<Frame<T>>, qs: seq<char>, ns: seq<char>)
    requires Idle(k, t, seen, stack) && stack != []
    requires Scan(stack[|stack| - 1], qs, ns, stack[..|stack| - 1]).Covers(k.x)
    ensures var rest, f := stack[..|stack| - 1], stack[|stack| - 1];
            Working(k, t, seen, rest, Scan(f, qs, ns, rest), 0, 0)
  {
    hide Inv, Ranked, Expanded;
    var rest, f := stack[..|stack| - 1], stack[|stack| - 1];
    assert stack == rest + [f] && f in stack;
    assert (set e | e in stack) == (set e | e in rest) + {f};
  }

  lemma NoFit<T>(k: Task<T>, t: Trie<T>, seen: set<Frame<T>>, stack: seq<Frame<T>>, s: Scan<T>, q: nat, n: nat)
    requires Working(k, t, seen, stack, s, q, n) && q < |s.qs| && n < |s.ns| && !Fits(s.qs[q], s.ns[n])
    ensures Working(k, t, seen, stack, s, q, n + 1)
  {
  }

  lemma NextRow<T>(k: Task<T>, t: Trie<T>, seen: set<Frame<T>>, stack: seq<Frame<T>>, s: Scan<T>, q: nat)
    requires Working(k, t, seen, stack, s, q, |s.ns|)
    ensures Working(k, t, seen, stack, s, q + 1, 0)
  {
  }

  lemma Located<T>(k: Task<T>, t: Trie<T>, seen: set<Frame<T>>, stack: seq<Frame<T>>, s: Scan<T>, q: nat, n: nat)
    requires Working(k, t, seen, stack, s, q, n) && q < |s.qs| && n < |s.ns| && Fits(s.qs[q], s.ns[n])
    ensures Pair(k.x, s.f, s.qs[q], s.ns[n])
    ensures IsTree(k.root, t.tree) && s.f.output in t.tree.graph
    ensures k.x.indexed[s.f.node].edges[s.ns[n]] in k.x.indexed && k.x.query[s.f.qNode].edges[s.qs[q]] in k.x.query
  {
    assert s.qs[q] in s.qs && s.ns[n] in s.ns;
  }

  lemma BecomesReady<T>(k: Task<T>, t: Trie<T>, seen: set<Frame<T>>, stack: seq<Frame<T>>, s: Scan<T>, q: nat, n: nat,
                        next: T)
    requires Working(k, t, seen, stack, s, q, n) && q < |s.qs| && n < |s.ns| && Fits(s.qs[q], s.ns[n])
    requires CanGraft(k.root, t.tree, s.f.output, s.ns[n], next)
    ensures Ready(k.x, k.root, t, s.f, s.qs[q], s.ns[n], next)
  {
    Located(k, t, seen, stack, s, q, n);
  }

  lemma FitKeepsPasses<T>(k: Task<T>, t: Trie<T>, g': Graph<T>, seen: set<Frame<T>>, h: Frame<T>, stack: seq<Frame<T>>,
                          s: Scan<T>, q: nat, n: nat)
    requires Working(k, t, seen, stack, s, q, n) && Grows(t.tree.graph, g') && q < |s.qs| && n < |s.ns|
    requires DoneAt(k.x, g', seen + {h}, s.f, s.qs[q], s.ns[n])
    ensures AllExpandedBut(k.x, g', seen + {h}, (set e | e in stack + [h]) + {s.f})
    ensures DoneUpTo(k.x, g', seen + {h}, s, q, n + 1)
  {
    forall e | e in seen + {h} && e !in (set e | e in stack + [h]) + {s.f} ensures Expanded(k.x, g', seen + {h}, e) {
      assert e in stack ==> e in stack + [h];
      ExpandedStays(k.x, t.tree.graph, g', seen, seen + {h}, e);
    }
    forall i, j | 0 <= i < |s.qs| && 0 <= j < |s.ns| && (i < q || (i == q && j < n + 1))
      ensures DoneAt(k.x, g', seen + {h}, s.f, s.qs[i], s.ns[j])
    {
      if !(i == q && j == n) {
        assert DoneAt(k.x, t.tree.graph, seen, s.f, s.qs[i], s.ns[j]);
        if Fits(s.qs[i], s.ns[j]) { DoneStays(k.x, t.tree.graph, g', seen, seen + {h}, s.f, s.qs[i], s.ns[j]); }
      }
    }
  }

  lemma Fit<T>(k: Task<T>, t: Trie<T>, seen: set<Frame<T>>, stack: seq<Frame<T>>, s: Scan<T>, q: nat, n: nat, next: T)
    requires Working(k, t, seen, stack, s, q, n) && q < |s.qs| && n < |s.ns|
    requires Ready(k.x, k.root, t, s.f, s.qs[q], s.ns[n], next)
    ensures var h := Successor(k.x, s.f, s.qs[q], s.ns[n], next);
            Working(k, Advance(k.x, k.root, t, s.f, s.qs[q], s.ns[n], next), seen + {h}, stack + [h], s, q, n + 1)
  {
    hide Inv, IsTrie, CanGraft, Grows, Expanded, Advance;
    var h := Successor(k.x, s.f, s.qs[q], s.ns[n], next);
    var t' := Advance(k.x, k.root, t, s.f, s.qs[q], s.ns[n], next);
    AdvanceKeepsInv(k.x, k.b, k.a, k.root, t, seen, s.f, s.qs[q], s.ns[n], next);
    FitKeepsPasses(k, t, t'.tree.graph, seen, h, stack, s, q, n);
    assert h.node in k.x.indexed && k.rank[h.node] < k.rank[s.f.node];
  }

  ghost function Ranks<T>(rank: map<T, nat>, stack: seq<Frame<T>>): (r: seq<nat>)
    ensures |r| == |stack|
    ensures forall i :: 0 <= i < |stack| && stack[i].node in rank ==> r[i] == rank[stack[i].node]
  {
    seq(|stack|, i requires 0 <= i < |stack| => if stack[i].node in rank then rank[stack[i].node] else 0)
  }

  /** No pair of nodes has more than fanOut pairs of edges. */
  ghost predicate BoundsPairs<T>(k: Task<T>, fanOut: nat) {
    forall q, n :: q in k.x.query && n in k.x.indexed ==>
      WorkStack.Times(|k.x.query[q].edges|, |k.x.indexed[n].edges|) <= fanOut
  }

  lemma FanOut<T>(k: Task<T>) returns (fanOut: nat)
    ensures BoundsPairs(k, fanOut)
  {
    var dq := DegreeBound(k.x.query);
    var dn := DegreeBound(k.x.indexed);
    fanOut := WorkStack.Times(dq, dn);
    forall q, n | q in k.x.query && n in k.x.indexed
      ensures WorkStack.Times(|k.x.query[q].edges|, |k.x.indexed[n].edges|) <= fanOut
    {
      WorkStack.TimesMonotone(|k.x.query[q].edges|, dq, |k.x.indexed[n].edges|);
      WorkStack.TimesGrows(dq, |k.x.indexed[n].edges|, dn);
    }
  }

  /** A finished pass has pushed at most one frame per pair of edges, each of smaller rank. */
  lemma Finish<T>(k: Task<T>, t: Trie<T>, seen: set<Frame<T>>, stack0: seq<Frame<T>>, stack: seq<Frame<T>>, s: Scan<T>,
                  fanOut: nat)
    requires Working(k, t, seen, stack, s, |s.qs|, 0) && BoundsPairs(k, fanOut)
    requires stack0 != [] && s.f == stack0[|stack0| - 1] && s.rest == stack0[..|stack0| - 1]
    requires s.f.qNode in k.x.query && |s.qs| == |k.x.query[s.f.qNode].edges|
    requires s.f.node in k.x.indexed && |s.ns| == |k.x.indexed[s.f.node].edges|
    ensures Idle(k, t, seen, stack)
    ensures WorkStack.Weight(fanOut, Ranks(k.rank, stack)) < WorkStack.Weight(fanOut, Ranks(k.rank, stack0))
  {
    hide Inv, WorkStack.Weight;
    forall e | e in seen && e !in (set e | e in stack) ensures Expanded(k.x, t.tree.graph, seen, e) {
      if e == s.f { ScanExpands(k.x, t.tree.graph, seen, s); }
    }
    RanksShrink(k, stack0, stack, s.rest, s.f, fanOut, WorkStack.Times(|s.qs|, |s.ns|));
  }

  lemma RanksShrink<T>(k: Task<T>, stack0: seq<Frame<T>>, stack: seq<Frame<T>>, rest: seq<Frame<T>>, f: Frame<T>,
                       fanOut: nat, pushes: nat)
    requires stack0 != [] && f == stack0[|stack0| - 1] && rest == stack0[..|stack0| - 1]
    requires rest <= stack && |stack| <= |rest| + pushes && pushes <= fanOut
    requires f.node in k.rank
    requires forall i :: |rest| <= i < |stack| ==> stack[i].node in k.rank && k.rank[stack[i].node] < k.rank[f.node]
    ensures WorkStack.Weight(fanOut, Ranks(k.rank, stack)) < WorkStack.Weight(fanOut, Ranks(k.rank, stack0))
  {
    var pushed := stack[|rest|..];
    assert Ranks(k.rank, stack) == Ranks(k.rank, rest) + Ranks(k.rank, pushed);
    assert Ranks(k.rank, stack0) == Ranks(k.rank, rest) + [k.rank[f.node]];
    WorkStack.PopAndPushShrinks(fanOut, Ranks(k.rank, rest), k.rank[f.node], Ranks(k.rank, pushed));
  }

  lemma ScanExpands<T>(x: Factors<T>, g: Graph<T>, seen: set<Frame<T>>, s: Scan<T>)
    requires s.Covers(x) && DoneUpTo(x, g, seen, s, |s.qs|, 0)
    ensures Expanded(x, g, seen, s.f)
  {
    forall qe, ne | Pair(x, s.f, qe, ne) ensures PairDone(x, g, seen, s.f, qe, ne) {
      var i :| 0 <= i < |s.qs| && s.qs[i] == qe;
      var j :| 0 <= j < |s.ns| && s.ns[j] == ne;
      assert DoneAt(x, g, seen, s.f, s.qs[i], s.ns[j]);
    }
  }

  // ---------------------------------------------------------------- the outcome

  lemma {:induction false} Complete<T>(x: Factors<T>, b: T, a: T, root: T, t: Trie<T>, seen: set<Frame<T>>,
                                       f: Frame<T>, u: string)
    requires Inv(x, b, a, root, t, seen) && f in seen && u != ""
    requires AllExpandedBut(x, t.tree.graph, seen, {})
    requires Accepts(x.indexed, f.node, u) && Matches(x.query, f.qNode, u)
    ensures Accepts(t.tree.graph, f.output, u)
    decreases |u|
  {
    var ne := u[0];
    var qe := if ne in x.query[f.qNode].edges && Matches(x.query, x.query[f.qNode].edges[ne], u[1..]) then ne
              else WILDCARD;
    assert Expanded(x, t.tree.graph, seen, f);
    assert Pair(x, f, qe, ne) && PairDone(x, t.tree.graph, seen, f, qe, ne);
    var next := t.tree.graph[f.output].edges[ne];
    if u[1..] != "" {
      Complete(x, b, a, root, t, seen, Successor(x, f, qe, ne, next), u[1..]);
    }
  }

  lemma {:induction false} Sound<T>(x: Factors<T>, b: T, a: T, root: T, t: Trie<T>, seen: set<Frame<T>>,
                                    o: T, u: string) returns (f: Frame<T>)
    requires Inv(x, b, a, root, t, seen) && u != "" && Accepts(t.tree.graph, o, u)
    ensures f in seen && f.output == o
    ensures Accepts(x.indexed, f.node, u) && Matches(x.query, f.qNode, u)
    decreases |u|
  {
    var next := t.tree.graph[o].edges[u[0]];
    var h: Frame<T>;
    if u[1..] == "" {
      assert Earned(x, t, seen, next);
      h :| h in seen && h.output == next && BothFinal(x, h);
    } else {
      h := Sound(x, b, a, root, t, seen, next, u[1..]);
    }
    assert t.tree.parent[next] == (o, u[0]);
    assert h != Frame(b, root, a);
    var qe: char;
    f, qe :| f in seen && f.output == o && Pair(x, f, qe, u[0]) && h == Successor(x, f, qe, u[0], h.output);
  }

  /** Once no frame is pending, the output accepts the non-empty words both sides do. */
  lemma Intersection<T>(x: Factors<T>, b: T, a: T, root: T, t: Trie<T>, seen: set<Frame<T>>, w: string)
    requires Inv(x, b, a, root, t, seen) && w != ""
    requires AllExpandedBut(x, t.tree.graph, seen, {})
    ensures Accepts(t.tree.graph, root, w) <==> Accepts(x.indexed, a, w) && Matches(x.query, b, w)
  {
    if Accepts(t.tree.graph, root, w) {
      var f := Sound(x, b, a, root, t, seen, root, w);
      assert f == Frame(b, root, a);
    }
    if Accepts(x.indexed, a, w) && Matches(x.query, b, w) {
      Complete(x, b, a, root, t, seen, Frame(b, root, a), w);
    }
  }

  /** The finished output: a tree, ranked like the indexed automaton and so without cycles,
      its root never final, accepting exactly the non-empty common words. */
  lemma Outcome<T>(k: Task<T>, t: Trie<T>, seen: set<Frame<T>>) returns (outRank: map<T, nat>)
    requires Idle(k, t, seen, [])
    ensures IsTree(k.root, t.tree) && !t.tree.graph[k.root].final
    ensures Ranked(t.tree.graph, outRank)
    ensures forall w :: w != "" ==>
              (Accepts(t.tree.graph, k.root, w) <==> Accepts(k.x.indexed, k.a, w) && Matches(k.x.query, k.b, w))
  {
    outRank := map o | o in t.tree.graph :: k.rank[t.origin[o]];
    assert t.tree.graph[k.root].final ==> Earned(k.x, t, seen, k.root);
    assert (set e: Frame<T> | e in []) == {};
    forall w | w != ""
      ensures Accepts(t.tree.graph, k.root, w) <==> Accepts(k.x.indexed, k.a, w) && Matches(k.x.query, k.b, w)
    {
      Intersection(k.x, k.b, k.a, k.root, t, seen, w);
    }
  }
}
