/** lunr.TokenSet on the heap.  Every method is proved against the automaton theory through
    Snapshot, the graph a set of node objects currently spells out. */
module TokenSets {
  import opened TokenGraph
  import Glob
  import Fuzzy
  import Product
  import Enumeration
  import WorkStack
  import NodeKey
  import Sets

  /** lunr.TokenSet._nextId */
  class IdSource {
    var nextId: nat

    constructor ()
      ensures nextId == 1
    {
      nextId := 1;
    }
  }

  ghost function Snapshot(nodes: set<TokenSet>): (g: Graph<TokenSet>)
    reads nodes`final, nodes`edges
    ensures g.Keys == nodes
  {
    map n | n in nodes :: Node(n.final, n.edges)
  }

  lemma SnapshotIs(nodes: set<TokenSet>, g: Graph<TokenSet>)
    requires g.Keys == nodes
    requires forall n :: n in nodes ==> g[n].final == n.final && g[n].edges == n.edges
    ensures Snapshot(nodes) == g
  {
  }

  lemma SnapshotAt(nodes: set<TokenSet>, n: TokenSet)
    requires n in nodes
    ensures Snapshot(nodes)[n] == Node(n.final, n.edges)
  {
  }

  /** The ids behind the outgoing edges: all that toString looks at. */
  function Ids(edges: map<char, TokenSet>): map<char, nat> { map c | c in edges :: edges[c].id }

  function KeyOf(n: Node<TokenSet>): string {
    NodeKey.KeyOf(n.final, Ids(n.edges))
  }

  class TokenSet {
    var final: bool
    var edges: map<char, TokenSet>
    var str: string  // the cached _str; empty while there is none
    const id: nat

    constructor (ids: IdSource)
      modifies ids
      ensures !final && edges == map[] && str == ""
      ensures id == old(ids.nextId) && ids.nextId == old(ids.nextId) + 1
    {
      final, edges, str, id := false, map[], "", ids.nextId;
      new;
      ids.nextId := ids.nextId + 1;
    }

    /** node.edges[ch] = next, for a next outside the nodes known so far. */
    method Link(ch: char, next: TokenSet, ghost nodes: set<TokenSet>)
      requires this in nodes && next !in nodes
      modifies this`edges
      ensures edges == old(edges)[ch := next]
      ensures Snapshot(nodes + {next}) ==
              old(Snapshot(nodes))[this := Node(final, edges)][next := Node(next.final, next.edges)]
    {
      ghost var g := Snapshot(nodes);
      edges := edges[ch := next];
      SnapshotIs(nodes + {next}, g[this := Node(final, edges)][next := Node(next.final, next.edges)]);
    }

    /** node.edges[ch] = target and node.final = final, for a known target. */
    method Set(final: bool, ch: char, target: TokenSet, ghost nodes: set<TokenSet>)
      requires this in nodes
      modifies this`edges, this`final
      ensures this.final == final && edges == old(edges)[ch := target]
      ensures Snapshot(nodes) == old(Snapshot(nodes))[this := Node(final, edges)]
    {
      ghost var g := Snapshot(nodes);
      this.edges, this.final := edges[ch := target], final;
      SnapshotIs(nodes, g[this := Node(final, edges)]);
    }

    /** node.final = final */
    method SetFinal(final: bool, ghost nodes: set<TokenSet>)
      requires this in nodes
      modifies this`final
      ensures this.final == final
      ensures Snapshot(nodes) == old(Snapshot(nodes))[this := Node(final, edges)]
    {
      ghost var g := Snapshot(nodes);
      this.final := final;
      SnapshotIs(nodes, g[this := Node(final, edges)]);
    }

    /** The node behind the edge `ch`, created if there is none, and made final on demand:
        the step fromFuzzyString and intersect are made of. */
    method Grow(ch: char, final: bool, ids: IdSource, ghost root: TokenSet, ghost nodes: set<TokenSet>,
                ghost t: Tree<TokenSet>)
      returns (next: TokenSet, ghost nodes': set<TokenSet>)
      requires this in nodes && IsTree(root, t) && Snapshot(nodes) == t.graph
      modifies ids, nodes
      ensures CanGraft(root, t, this, ch, next) && nodes' == nodes + {next} && fresh(nodes' - nodes)
      ensures Snapshot(nodes') == Graft(root, t, this, ch, next, final).graph
    {
      hide Snapshot;
      SnapshotAt(nodes, this);
      if ch in edges {
        next := edges[ch];
        nodes' := nodes;
        SnapshotAt(nodes, next);
        next.SetFinal(next.final || final, nodes);
      } else {
        next := new TokenSet(ids);
        next.final := final;
        assert Snapshot(nodes) == t.graph;
        Link(ch, next, nodes);
        nodes' := nodes + {next};
      }
    }

    /** The automaton of the non-empty words that this one accepts and b matches. */
    method Intersect(b: TokenSet, ids: IdSource, ghost nodes: set<TokenSet>, ghost rank: map<TokenSet, nat>,
                     ghost qNodes: set<TokenSet>)
      returns (output: TokenSet, ghost outNodes: set<TokenSet>, ghost outRank: map<TokenSet, nat>)
      requires this in nodes && Ranked(Snapshot(nodes), rank)
      requires b in qNodes && Closed(Snapshot(qNodes))
      modifies ids
      ensures fresh(outNodes) && output in outNodes && !output.final
      ensures Ranked(Snapshot(outNodes), outRank)
      ensures forall w :: w != "" ==>
                (Accepts(Snapshot(outNodes), output, w) <==>
                 Accepts(Snapshot(nodes), this, w) && Matches(Snapshot(qNodes), b, w))
    {
      hide Product.Idle, Product.BoundsPairs, Ranked, WorkStack.Weight, IsTree, Matches, Accepts, Closed;
      var stack;
      ghost var run;
      output, stack, run := StartProduct(this, b, ids, nodes, rank, qNodes);
      ghost var k := run.k;
      ghost var fanOut := Product.FanOut(k);
      while stack != []
        invariant run.Mirrors() && fresh(run.outNodes) && output in run.outNodes
        invariant run.k == k && run.nodes == nodes && run.qNodes == qNodes
        invariant Product.Idle(k, run.t, run.seen, stack)
        decreases WorkStack.Weight(fanOut, Product.Ranks(rank, stack))
      {
        stack, run := Multiply(fanOut, ids, stack, run);
      }
      outNodes := run.outNodes;
      outRank := Product.Outcome(k, run.t, run.seen);
    }

    /** The cached key if there is one, else the key of the current edges. */
    method ToString() returns (s: string)
      ensures s == if str != "" then str else KeyOf(Node(final, edges))
    {
      hide NodeKey.Key, NodeKey.Decimal;
      if str != "" {
        return str;
      }
      NodeKey.KeyOfNoArcs(final);
      s := if final then "1" else "0";
      var labels := NodeKey.Sorted(edges.Keys);
      ghost var arcs := NodeKey.Arcs(Ids(edges));
      assert Ids(edges).Keys == edges.Keys;
      for i := 0 to |labels|
        invariant s == NodeKey.Key(final, arcs[..i])
      {
        var ch := labels[i];
        assert ch in edges.Keys;
        NodeKey.KeyExtends(final, arcs, i);
        s := s + [ch] + NodeKey.Decimal(edges[ch].id);
      }
      assert arcs[..|labels|] == arcs;
    }

    /** All words of an automaton without cycles, each once. */
    method ToArray(ghost nodes: set<TokenSet>, ghost rank: map<TokenSet, nat>) returns (words: seq<string>)
      requires this in nodes && Ranked(Snapshot(nodes), rank)
      ensures Enumeration.NoRepeats(words)
      ensures forall w :: w in words <==> Accepts(Snapshot(nodes), this, w)
    {
      hide Enumeration.Inv, Ranked, Accepts, Enumeration.Ranks, WorkStack.Weight, Snapshot, DegreeAtMost;
      ghost var g := Snapshot(nodes);
      words := [];
      var stack := [Enumeration.Frame("", this)];
      ghost var seen := {Enumeration.Frame("", this)};
      ghost var fanOut := DegreeBound(g);
      Enumeration.Start(g, this, rank);
      while stack != []
        invariant Enumeration.Inv(g, this, seen, stack, words)
        decreases WorkStack.Weight(fanOut, Enumeration.Ranks(rank, stack))
      {
        ghost var stack0, words0 := stack, words;
        var frame := stack[|stack| - 1];
        stack := stack[..|stack| - 1];
        ghost var rest := stack;
        Enumeration.TopInGraph(g, this, seen, stack0, words0);
        SnapshotAt(nodes, frame.node);
        var edges := Sets.Keys(frame.node.edges.Keys);
        Enumeration.ListedOnce(edges, frame.node.edges.Keys);
        if frame.node.final {
          words := words + [frame.prefix];
        }
        for i := 0 to |edges|
          invariant stack == rest + Enumeration.Children(g, frame, edges[..i])
        {
          var edge := edges[i];
          stack := stack + [Enumeration.Frame(frame.prefix + [edge], frame.node.edges[edge])];
          assert edges[..i + 1][..i] == edges[..i];
        }
        assert edges[..|edges|] == edges;
        Enumeration.PopKeepsInv(g, this, seen, stack0, words0, edges);
        Enumeration.PopShrinks(g, rank, fanOut, stack0, edges);
        seen := seen + set f | f in Enumeration.Children(g, frame, edges);
      }
      Enumeration.Outcome(g, this, seen, words);
    }
  }

  /** What a run of intersect knows besides its stack. */
  datatype ProductRun = ProductRun(
    k: Product.Task<TokenSet>, nodes: set<TokenSet>, qNodes: set<TokenSet>, outNodes: set<TokenSet>,
    t: Product.Trie<TokenSet>, seen: set<Product.Frame<TokenSet>>)
  {
    /** The heap is what the run believes it to be; the output is apart from both inputs. */
    ghost predicate Mirrors()
      reads nodes, qNodes, outNodes
    {
      && outNodes !! nodes && outNodes !! qNodes
      && Snapshot(nodes) == k.x.indexed && Snapshot(qNodes) == k.x.query && Snapshot(outNodes) == t.tree.graph
    }

    ghost predicate Before(r: ProductRun) {
      r.k == k && r.nodes == nodes && r.qNodes == qNodes && outNodes <= r.outNodes
    }
  }

  /** The fresh output root and the first frame. */
  method StartProduct(a: TokenSet, b: TokenSet, ids: IdSource, ghost nodes: set<TokenSet>,
                      ghost rank: map<TokenSet, nat>, ghost qNodes: set<TokenSet>)
    returns (output: TokenSet, stack: seq<Product.Frame<TokenSet>>, ghost run: ProductRun)
    requires a in nodes && Ranked(Snapshot(nodes), rank)
    requires b in qNodes && Closed(Snapshot(qNodes))
    modifies ids
    ensures run.Mirrors() && run.nodes == nodes && run.qNodes == qNodes && fresh(run.outNodes) && output in run.outNodes
    ensures run.k == Product.Task(Product.Factors(Snapshot(nodes), Snapshot(qNodes)), b, a, output, rank)
    ensures Product.Idle(run.k, run.t, run.seen, stack)
  {
    hide Product.Idle, Snapshot, Ranked, Closed;
    ghost var x := Product.Factors(Snapshot(nodes), Snapshot(qNodes));
    output := new TokenSet(ids);
    stack := [Product.Frame(b, output, a)];
    ghost var k := Product.Task(x, b, a, output, rank);
    run := ProductRun(k, nodes, qNodes, {output}, Product.Trie(Tree(Snapshot({output}), map[]), map[output := a]),
                      {Product.Frame(b, output, a)});
    SnapshotIs({output}, map[output := Node(false, map[])]);
    Product.Begin(k);
  }

  /** One pair of edges of a frame. */
  method MultiplyEdges(q: nat, n: nat, ids: IdSource, stack: seq<Product.Frame<TokenSet>>, s: Product.Scan<TokenSet>,
                       ghost run: ProductRun)
    returns (stack': seq<Product.Frame<TokenSet>>, ghost run': ProductRun)
    requires run.Mirrors() && Product.Working(run.k, run.t, run.seen, stack, s, q, n) && q < |s.qs| && n < |s.ns|
    modifies ids, run.outNodes
    ensures run'.Mirrors() && run.Before(run') && fresh(run'.outNodes - run.outNodes)
    ensures Product.Working(run'.k, run'.t, run'.seen, stack', s, q, n + 1)
  {
    hide Product.Working, Product.Ready, CanGraft, IsTree, Graft, Grows, Closed, Snapshot;
    var qEdge, nEdge := s.qs[q], s.ns[n];
    if nEdge == qEdge || qEdge == WILDCARD {
      Product.Located(run.k, run.t, run.seen, stack, s, q, n);
      SnapshotAt(run.nodes, s.f.node);
      SnapshotAt(run.qNodes, s.f.qNode);
      var node, qNode := s.f.node.edges[nEdge], s.f.qNode.edges[qEdge];
      SnapshotAt(run.nodes, node);
      SnapshotAt(run.qNodes, qNode);
      var final := node.final && qNode.final;
      var next;
      ghost var outNodes;
      next, outNodes := s.f.output.Grow(nEdge, final, ids, run.k.root, run.outNodes, run.t.tree);
      stack' := stack + [Product.Frame(qNode, next, node)];
      assert outNodes !! run.nodes && outNodes !! run.qNodes;
      Product.BecomesReady(run.k, run.t, run.seen, stack, s, q, n, next);
      Product.Fit(run.k, run.t, run.seen, stack, s, q, n, next);
      run' := run.(outNodes := outNodes, t := Product.Advance(run.k.x, run.k.root, run.t, s.f, qEdge, nEdge, next),
                   seen := run.seen + {Product.Frame(qNode, next, node)});
    } else {
      stack', run' := stack, run;
      Product.NoFit(run.k, run.t, run.seen, stack, s, q, n);
    }
  }

  /** All pairs of edges of a frame. */
  method MultiplyAll(ids: IdSource, stack: seq<Product.Frame<TokenSet>>, s: Product.Scan<TokenSet>,
                     ghost run: ProductRun)
    returns (stack': seq<Product.Frame<TokenSet>>, ghost run': ProductRun)
    requires run.Mirrors() && Product.Working(run.k, run.t, run.seen, stack, s, 0, 0)
    modifies ids, run.outNodes
    ensures run'.Mirrors() && run.Before(run') && fresh(run'.outNodes - run.outNodes)
    ensures Product.Working(run'.k, run'.t, run'.seen, stack', s, |s.qs|, 0)
  {
    hide Product.Working, ProductRun.Mirrors;
    stack', run' := stack, run;
    for q := 0 to |s.qs|
      invariant run'.Mirrors() && run.Before(run') && fresh(run'.outNodes - run.outNodes)
      invariant Product.Working(run'.k, run'.t, run'.seen, stack', s, q, 0)
    {
      for n := 0 to |s.ns|
        invariant run'.Mirrors() && run.Before(run') && fresh(run'.outNodes - run.outNodes)
        invariant Product.Working(run'.k, run'.t, run'.seen, stack', s, q, n)
      {
        stack', run' := MultiplyEdges(q, n, ids, stack', s, run');
      }
      Product.NextRow(run'.k, run'.t, run'.seen, stack', s, q);
    }
  }

  /** One pass of intersect: the frame on top of the stack gives way to smaller ones. */
  method Multiply(ghost fanOut: nat, ids: IdSource, stack: seq<Product.Frame<TokenSet>>, ghost run: ProductRun)
    returns (stack': seq<Product.Frame<TokenSet>>, ghost run': ProductRun)
    requires run.Mirrors() && Product.Idle(run.k, run.t, run.seen, stack)
    requires stack != [] && Product.BoundsPairs(run.k, fanOut)
    modifies ids, run.outNodes
    ensures run'.Mirrors() && run.Before(run') && fresh(run'.outNodes - run.outNodes)
    ensures Product.Idle(run'.k, run'.t, run'.seen, stack')
    ensures WorkStack.Weight(fanOut, Product.Ranks(run.k.rank, stack')) <
              WorkStack.Weight(fanOut, Product.Ranks(run.k.rank, stack))
  {
    hide Product.Idle, Product.Working, Product.BoundsPairs, WorkStack.Weight;
    var frame := stack[|stack| - 1];
    Product.Top(run.k, run.t, run.seen, stack);
    assert run.k.x.indexed[frame.node] == Node(frame.node.final, frame.node.edges);
    assert run.k.x.query[frame.qNode] == Node(frame.qNode.final, frame.qNode.edges);
    var qEdges := Sets.Keys(frame.qNode.edges.Keys);
    var nEdges := Sets.Keys(frame.node.edges.Keys);
    Enumeration.ListedOnce(qEdges, frame.qNode.edges.Keys);
    Enumeration.ListedOnce(nEdges, frame.node.edges.Keys);
    var s := Product.Scan(frame, qEdges, nEdges, stack[..|stack| - 1]);
    Product.Pop(run.k, run.t, run.seen, stack, qEdges, nEdges);
    stack', run' := MultiplyAll(ids, stack[..|stack| - 1], s, run);
    Product.Finish(run'.k, run'.t, run'.seen, stack, stack', s, fanOut);
  }

  /** What a run of fromFuzzyString knows besides its stack: the first frame, the automaton,
      every frame pushed so far, and what was pending below the frame in hand. */
  datatype FuzzyRun = FuzzyRun(
    first: Fuzzy.Frame<TokenSet>, nodes: set<TokenSet>, t: Tree<TokenSet>,
    seen: set<Fuzzy.Frame<TokenSet>>, rest: seq<Fuzzy.Frame<TokenSet>>)
  {
    ghost predicate At(frame: Fuzzy.Frame<TokenSet>, stack: seq<Fuzzy.Frame<TokenSet>>, moves: nat)
      reads nodes
    {
      Fuzzy.Working(t, seen, rest, stack, first, frame, moves) && Snapshot(nodes) == t.graph
    }

    /** Same run, later. */
    ghost predicate Before(r: FuzzyRun) {
      r.first == first && r.rest == rest && nodes <= r.nodes
    }
  }

  /** A move that consumes a character: keep, insert, substitute or transpose. */
  method Follow(move: nat, frame: Fuzzy.Frame<TokenSet>, ids: IdSource, stack: seq<Fuzzy.Frame<TokenSet>>,
                ghost run: FuzzyRun)
    returns (stack': seq<Fuzzy.Frame<TokenSet>>, ghost run': FuzzyRun)
    requires run.At(frame, stack, move) && Fuzzy.FollowsEdge(move + 1)
    modifies ids, run.nodes
    ensures run'.At(frame, stack', move + 1) && run.Before(run') && fresh(run'.nodes - run.nodes)
  {
    hide Fuzzy.Working, IsTree, CanGraft, Graft, Grows;
    if Fuzzy.Applies(frame, move + 1) {
      var (ch, edits, str) := Fuzzy.Edge(frame, move + 1);
      Fuzzy.InHand(run.t, run.seen, run.rest, stack, run.first, frame, move);
      var next;
      ghost var nodes;
      next, nodes := frame.node.Grow(ch, str == "", ids, run.first.node, run.nodes, run.t);
      stack' := stack + [Fuzzy.Frame(next, edits, str)];
      Fuzzy.Follow(run.t, run.seen, run.rest, stack, run.first, frame, move, next);
      run' := run.(t := Graft(run.first.node, run.t, frame.node, ch, next, str == ""), nodes := nodes,
                   seen := run.seen + {Fuzzy.Frame(next, edits, str)});
    } else {
      stack', run' := stack, run;
      Fuzzy.Skip(run.t, run.seen, run.rest, stack, run.first, frame, move);
    }
  }

  /** A deletion that leaves characters: the frame stays on its node. */
  method Delete(frame: Fuzzy.Frame<TokenSet>, stack: seq<Fuzzy.Frame<TokenSet>>, ghost run: FuzzyRun)
    returns (stack': seq<Fuzzy.Frame<TokenSet>>, ghost run': FuzzyRun)
    requires run.At(frame, stack, 2) && frame.edits > 0
    ensures run'.At(frame, stack', 3) && run.Before(run') && run'.nodes == run.nodes
  {
    stack', run' := stack, run;
    if |frame.str| > 1 {
      stack' := stack + [Fuzzy.Frame(frame.node, frame.edits - 1, frame.str[1..])];
      Fuzzy.Delete(run.t, run.seen, run.rest, stack, run.first, frame);
      run' := run.(seen := run.seen + {Fuzzy.Frame(frame.node, frame.edits - 1, frame.str[1..])});
    } else {
      Fuzzy.Skip(run.t, run.seen, run.rest, stack, run.first, frame, 2);
    }
  }

  /** Deleting the last character: the node becomes final, nothing is pushed. */
  method DeleteLast(frame: Fuzzy.Frame<TokenSet>, ghost stack: seq<Fuzzy.Frame<TokenSet>>, ghost run: FuzzyRun)
    returns (ghost run': FuzzyRun)
    requires run.At(frame, stack, 3) && frame.edits > 0
    modifies run.nodes
    ensures run'.At(frame, stack, 4) && run.Before(run') && run'.nodes == run.nodes
  {
    hide Fuzzy.Working;
    run' := run;
    if |frame.str| == 1 {
      Fuzzy.DeleteLast(run.t, run.seen, run.rest, stack, run.first, frame);
      assert run.t.graph[frame.node] == Node(frame.node.final, frame.node.edges);
      frame.node.SetFinal(true, run.nodes);
      run' := run.(t := MadeFinal(run.t, frame.node));
    } else {
      Fuzzy.Skip(run.t, run.seen, run.rest, stack, run.first, frame, 3);
    }
  }

  /** One pass of fromFuzzyString over a popped frame. */
  method Expand(frame: Fuzzy.Frame<TokenSet>, ids: IdSource, stack: seq<Fuzzy.Frame<TokenSet>>, ghost run: FuzzyRun)
    returns (stack': seq<Fuzzy.Frame<TokenSet>>, ghost run': FuzzyRun)
    requires run.At(frame, stack, 0)
    modifies ids, run.nodes
    ensures run'.At(frame, stack', 6) && run.Before(run') && fresh(run'.nodes - run.nodes)
  {
    hide FuzzyRun.At;
    // no edit
    stack', run' := Follow(0, frame, ids, stack, run);
    if frame.edits == 0 {
      SkipEdits(frame, stack', run');
      return;
    }
    // insertion
    stack', run' := Follow(1, frame, ids, stack', run');
    // deletion
    stack', run' := Delete(frame, stack', run');
    run' := DeleteLast(frame, stack', run');
    // substitution
    stack', run' := Follow(4, frame, ids, stack', run');
    // transposition
    stack', run' := Follow(5, frame, ids, stack', run');
  }

  lemma SkipEdits(frame: Fuzzy.Frame<TokenSet>, stack: seq<Fuzzy.Frame<TokenSet>>, run: FuzzyRun)
    requires run.At(frame, stack, 1) && frame.edits == 0
    ensures run.At(frame, stack, 6)
  {
    hide Fuzzy.Working;
    Fuzzy.SkipEdits(run.t, run.seen, run.rest, stack, run.first, frame);
  }

  /** TokenSet.fromFuzzyString: one frame per pending (node, edits left, rest of the string). */
  method FromFuzzyString(str: string, editDistance: nat, ids: IdSource)
    returns (root: TokenSet, ghost nodes: set<TokenSet>)
    modifies ids
    ensures fresh(nodes) && root in nodes && Closed(Snapshot(nodes))
    ensures forall w ::
              Matches(Snapshot(nodes), root, w) <==> (str != "" || w != "") && Fuzzy.Near(str, editDistance, w)
  {
    hide Fuzzy.Idle, Fuzzy.Working, Fuzzy.Near, Matches, WorkStack.Weight;
    root := new TokenSet(ids);
    var stack := [Fuzzy.Frame(root, editDistance, str)];
    ghost var first := Fuzzy.Frame(root, editDistance, str);
    ghost var run := FuzzyRun(first, {root}, Tree(Snapshot({root}), map[]), {first}, []);
    Fuzzy.Begin(run.t, first);
    while stack != []
      invariant fresh(run.nodes) && root in run.nodes && Snapshot(run.nodes) == run.t.graph && run.first == first
      invariant Fuzzy.Idle(run.t, run.seen, stack, first)
      decreases WorkStack.Weight(5, Fuzzy.Ranks(stack))
    {
      Fuzzy.Pop(run.t, run.seen, stack, first);
      var frame := stack[|stack| - 1];
      assert stack == stack[..|stack| - 1] + [frame];
      stack := stack[..|stack| - 1];
      run := run.(rest := stack);
      stack, run := Expand(frame, ids, stack, run);
      Fuzzy.Finish(run.t, run.seen, run.rest, stack, first, frame);
    }
    nodes := run.nodes;
    Fuzzy.Outcome(run.t, run.seen, first);
  }

  /** TokenSet.fromString: a chain of nodes, with a loop wherever the pattern has a '*'. */
  method FromString(str: string, ids: IdSource) returns (root: TokenSet, ghost nodes: set<TokenSet>)
    modifies ids
    ensures fresh(nodes) && root in nodes && Closed(Snapshot(nodes))
    ensures forall w :: Matches(Snapshot(nodes), root, w) <==> str != "" && Glob.GlobMatch(str, w)
  {
    hide Glob.Chain, Glob.GlobMatch, Matches, Closed, Snapshot;
    var node := new TokenSet(ids);
    root := node;
    nodes := {node};
    ghost var path := [node];
    ghost var g := map[node := Node(false, map[])];
    SnapshotIs(nodes, g);
    Glob.ChainStarts(g, node);
    for i := 0 to |str|
      invariant fresh(nodes) && |path| == i + 1 && path[0] == root && path[i] == node && node in nodes
      invariant Snapshot(nodes) == g
      invariant Glob.Chain(g, path, str[..i], i > 0 && i == |str|)
    {
      assert str[..i + 1] == str[..i] + [str[i]];
      var ch, final := str[i], i == |str| - 1;
      SnapshotAt(nodes, node);
      if ch == WILDCARD {
        Glob.ChainGrowsByStar(g, path, str[..i], final);
        node.Set(final, ch, node, nodes);
        g := g[node := Node(final, g[node].edges[WILDCARD := node])];
        path := path + [node];
      } else {
        var next := new TokenSet(ids);
        next.final := final;
        Glob.ChainGrowsByChar(g, path, str[..i], ch, next, final);
        assert Snapshot(nodes) == g;
        node.Link(ch, next, nodes);
        nodes := nodes + {next};
        g := Glob.WithNext(g, node, ch, next, final);
        node := next;
        path := path + [next];
      }
    }
    assert str[..|str|] == str;
    Glob.ChainIsGlob(g, path, str);
  }
}
