/** Wildcard patterns: the reference meaning, and the chain automaton fromString builds. */
module Glob {
  import opened TokenGraph

  /** '*' stands for any number of characters, everything else for itself. */
  predicate GlobMatch(p: string, w: string)
    decreases |p| + |w|
  {
    if p == "" then w == ""
    else if p[0] == WILDCARD then GlobMatch(p[1..], w) || (w != "" && GlobMatch(p, w[1..]))
    else w != "" && w[0] == p[0] && GlobMatch(p[1..], w[1..])
  }

  /** Position k of the pattern touches a wildcard, so its node loops on '*'. */
  predicate Loops(p: string, k: nat)
    requires k <= |p|
  {
    (k > 0 && p[k - 1] == WILDCARD) || (k < |p| && p[k] == WILDCARD)
  }

  ghost function Labels(p: string, k: nat): set<char>
    requires k <= |p|
  {
    (if Loops(p, k) then {WILDCARD} else {}) + (if k < |p| then {p[k]} else {})
  }

  /** nodes[k] is the node after k pattern characters; a wildcard stays where it is.  The
      last node is final iff `accepting`. */
  ghost predicate Chain<T>(g: Graph<T>, nodes: seq<T>, p: string, accepting: bool) {
    && |nodes| == |p| + 1
    && Closed(g)
    && (forall k :: 0 <= k <= |p| ==> nodes[k] in g)
    && (forall k :: 0 <= k <= |p| && Loops(p, k) ==>
          WILDCARD in g[nodes[k]].edges && g[nodes[k]].edges[WILDCARD] == nodes[k])
    && (forall k :: 0 <= k < |p| && p[k] == WILDCARD ==> nodes[k + 1] == nodes[k])
    && (forall k :: 0 <= k < |p| && p[k] != WILDCARD ==>
          !g[nodes[k]].final && p[k] in g[nodes[k]].edges && g[nodes[k]].edges[p[k]] == nodes[k + 1])
    && (forall k, m :: 0 <= k < m <= |p| && p[k] != WILDCARD ==> nodes[k] != nodes[m])
    && (forall k, c :: 0 <= k <= |p| && (k == |p| || p[k] != WILDCARD) && c in g[nodes[k]].edges ==> c in Labels(p, k))
    && g[nodes[|p|]].final == accepting
  }

  lemma {:induction false} DoubleStar(p: string, w: string)
    requires p != "" && p[0] == WILDCARD
    ensures GlobMatch([WILDCARD] + p, w) <==> GlobMatch(p, w)
    decreases |w|
  {
    var q := [WILDCARD] + p;
    assert q[1..] == p;
    if w != "" { DoubleStar(p, w[1..]); }
  }

  ghost function PatternAt(p: string, k: nat): string
    requires k <= |p|
  {
    if Loops(p, k) then [WILDCARD] + p[k..] else p[k..]
  }

  /** What one character does at a node that is not in front of a wildcard... */
  lemma NodeStep<T>(g: Graph<T>, nodes: seq<T>, p: string, accepting: bool, k: nat, w: string)
    requires Chain(g, nodes, p, accepting) && k <= |p| && (k == |p| || p[k] != WILDCARD) && w != ""
    ensures Matches(g, nodes[k], w) <==>
            || (Loops(p, k) && Matches(g, nodes[k], w[1..]))
            || (k < |p| && w[0] == p[k] && Matches(g, nodes[k + 1], w[1..]))
  {
    var n := nodes[k];
    assert forall c :: c in g[n].edges ==> c in Labels(p, k);
  }

  /** ...and what it does to the rest of the pattern there. */
  lemma PatternStep(p: string, k: nat, w: string)
    requires k <= |p| && (k == |p| || p[k] != WILDCARD) && w != ""
    ensures GlobMatch(PatternAt(p, k), w) <==>
            || (Loops(p, k) && GlobMatch(PatternAt(p, k), w[1..]))
            || (k < |p| && w[0] == p[k] && GlobMatch(PatternAt(p, k + 1), w[1..]))
  {
    if Loops(p, k) { assert PatternAt(p, k)[1..] == p[k..]; }
    if k < |p| {
      assert p[k..][0] == p[k] && p[k..][1..] == p[k + 1..];
      if Loops(p, k + 1) { DoubleStar(p[k + 1..], w[1..]); }
    }
  }

  /** The chain accepts, from each of its nodes, what the rest of the pattern matches. */
  lemma {:induction false} ChainMatches<T>(g: Graph<T>, nodes: seq<T>, p: string, accepting: bool, k: nat, w: string)
    requires Chain(g, nodes, p, accepting) && k <= |p|
    ensures Matches(g, nodes[k], w) <==> accepting && GlobMatch(PatternAt(p, k), w)
    decreases |p| - k, |w|
  {
    if k < |p| && p[k] == WILDCARD {
      ChainMatches(g, nodes, p, accepting, k + 1, w);
      assert PatternAt(p, k + 1) == [WILDCARD] + p[k + 1..] == p[k..];
      DoubleStar(p[k..], w);
    } else if w == "" {
      assert k < |p| ==> p[k..][0] == p[k];
      if Loops(p, k) { assert PatternAt(p, k)[1..] == p[k..]; }
    } else {
      NodeStep(g, nodes, p, accepting, k, w);
      PatternStep(p, k, w);
      if Loops(p, k) { ChainMatches(g, nodes, p, accepting, k, w[1..]); }
      if k < |p| { ChainMatches(g, nodes, p, accepting, k + 1, w[1..]); }
    }
  }

  /** The whole automaton matches exactly what the pattern does; the empty pattern, whose
      root is never made final, matches nothing. */
  lemma ChainIsGlob<T>(g: Graph<T>, nodes: seq<T>, p: string)
    requires Chain(g, nodes, p, p != "")
    ensures Closed(g) && |nodes| > 0 && nodes[0] in g
    ensures forall w :: Matches(g, nodes[0], w) <==> p != "" && GlobMatch(p, w)
  {
    forall w ensures Matches(g, nodes[0], w) <==> p != "" && GlobMatch(p, w) {
      ChainMatches(g, nodes, p, p != "", 0, w);
      if p != "" && p[0] == WILDCARD { DoubleStar(p, w); }
      assert p[0..] == p;
    }
  }

  lemma ChainStarts<T>(g: Graph<T>, n: T)
    requires g == map[n := Node(false, map[])]
    ensures Chain(g, [n], "", false)
  {
  }

  /** One more wildcard: the last node gets a loop. */
  lemma ChainGrowsByStar<T>(g: Graph<T>, nodes: seq<T>, p: string, accepting: bool)
    requires Chain(g, nodes, p, false)
    ensures |nodes| == |p| + 1 && nodes[|p|] in g
    ensures var n := nodes[|p|];
            Chain(g[n := Node(accepting, g[n].edges[WILDCARD := n])], nodes + [n], p + [WILDCARD], accepting)
  {
    var n := nodes[|p|];
    var g' := g[n := Node(accepting, g[n].edges[WILDCARD := n])];
    var p', nodes' := p + [WILDCARD], nodes + [n];
    assert forall m :: m in g && m != n ==> g'[m] == g[m];
    assert forall k :: 0 <= k <= |p| ==> nodes'[k] == nodes[k];
    assert forall k :: 0 <= k < |p| ==> p'[k] == p[k] && (Loops(p', k) <==> Loops(p, k));
    assert Loops(p', |p|) && Loops(p', |p| + 1);
    forall k | 0 <= k < |p| && p[k] != WILDCARD ensures g'[nodes[k]] == g[nodes[k]] {}
    forall k | 0 <= k <= |p'| && Loops(p', k)
      ensures WILDCARD in g'[nodes'[k]].edges && g'[nodes'[k]].edges[WILDCARD] == nodes'[k]
    {
      if nodes'[k] != n { assert Loops(p, k); }
    }
    forall k, c | 0 <= k <= |p'| && (k == |p'| || p'[k] != WILDCARD) && c in g'[nodes'[k]].edges
      ensures c in Labels(p', k)
    {
      if k < |p| {
        assert c in Labels(p, k);
      } else {
        assert k == |p'| && (c == WILDCARD || c in Labels(p, |p|));
      }
    }
    forall k, m | 0 <= k < m <= |p'| && p'[k] != WILDCARD ensures nodes'[k] != nodes'[m] {
      assert nodes[k] != nodes[if m <= |p| then m else |p|];
    }
    forall m, c | m in g' && c in g'[m].edges ensures g'[m].edges[c] in g' {
      assert (m == n && c == WILDCARD) || (c in g[m].edges && g'[m].edges[c] == g[m].edges[c]);
    }
  }

  ghost function WithNext<T>(g: Graph<T>, n: T, ch: char, next: T, accepting: bool): Graph<T>
    requires n in g
  {
    g[n := Node(false, g[n].edges[ch := next])][next := Node(accepting, map[])]
  }

  lemma CharLabels<T>(g: Graph<T>, nodes: seq<T>, p: string, ch: char, next: T, accepting: bool)
    requires Chain(g, nodes, p, false) && ch != WILDCARD && next !in g
    ensures var g' := WithNext(g, nodes[|p|], ch, next, accepting);
            var p', nodes' := p + [ch], nodes + [next];
            && Closed(g')
            && forall k, c :: 0 <= k <= |p'| && (k == |p'| || p'[k] != WILDCARD) && c in g'[nodes'[k]].edges ==>
                 c in Labels(p', k)
  {
    var n := nodes[|p|];
    var g' := WithNext(g, n, ch, next, accepting);
    var p', nodes' := p + [ch], nodes + [next];
    forall k, c | 0 <= k <= |p'| && (k == |p'| || p'[k] != WILDCARD) && c in g'[nodes'[k]].edges
      ensures c in Labels(p', k)
    {
      assert k <= |p| ==> nodes'[k] == nodes[k];
      if k < |p| {
        assert nodes[k] != n && g'[nodes[k]] == g[nodes[k]];
        assert c in Labels(p, k) && (Loops(p', k) <==> Loops(p, k));
      } else {
        assert k == |p| && (c == ch || c in Labels(p, |p|));
      }
    }
    forall m, c | m in g' && c in g'[m].edges ensures g'[m].edges[c] in g' {
      assert m == next || (m == n && c == ch) || (c in g[m].edges && g'[m].edges[c] == g[m].edges[c]);
    }
  }

  /** One more character: the last node gets an edge to a fresh one. */
  lemma ChainGrowsByChar<T>(g: Graph<T>, nodes: seq<T>, p: string, ch: char, next: T, accepting: bool)
    requires Chain(g, nodes, p, false) && ch != WILDCARD && next !in g
    ensures |nodes| == |p| + 1 && nodes[|p|] in g && !g[nodes[|p|]].final
    ensures Chain(WithNext(g, nodes[|p|], ch, next, accepting), nodes + [next], p + [ch], accepting)
  {
    var n := nodes[|p|];
    var g' := WithNext(g, n, ch, next, accepting);
    var p', nodes' := p + [ch], nodes + [next];
    CharLabels(g, nodes, p, ch, next, accepting);
    assert forall k :: 0 <= k <= |p| ==> nodes'[k] == nodes[k] && (Loops(p', k) <==> Loops(p, k));
    assert !Loops(p', |p'|);
    forall k | 0 <= k < |p| && p[k] != WILDCARD ensures g'[nodes[k]] == g[nodes[k]] {}
    forall k | 0 <= k <= |p'| && Loops(p', k)
      ensures WILDCARD in g'[nodes'[k]].edges && g'[nodes'[k]].edges[WILDCARD] == nodes'[k]
    {
      assert k <= |p| && Loops(p, k);
    }
    forall k, m | 0 <= k < m <= |p'| && p'[k] != WILDCARD ensures nodes'[k] != nodes'[m] {
      if m <= |p| { assert nodes[k] != nodes[m]; }
    }
  }

  // ---------------------------------------------------------------- what stars are for

  lemma {:induction false} StarMatchesAll(w: string)
    ensures GlobMatch("*", w)
  {
    if w != "" { StarMatchesAll(w[1..]); }
    assert "*"[1..] == "";
  }

  /** Without stars a pattern matches itself, with one behind it everything it begins... */
  lemma {:induction false} TrailingStar(t: string, w: string)
    requires '*' !in t
    ensures GlobMatch(t, w) <==> w == t
    ensures GlobMatch(t + "*", w) <==> t <= w
    decreases |t|
  {
    if t == "" {
      assert t + "*" == "*";
      StarMatchesAll(w);
    } else {
      assert (t + "*")[1..] == t[1..] + "*";
      if w != "" { TrailingStar(t[1..], w[1..]); }
    }
  }

  /** ...and with one in front of it everything it ends. */
  lemma {:induction false} LeadingStar(t: string, w: string)
    requires '*' !in t
    ensures GlobMatch("*" + t, w) <==> |t| <= |w| && w[|w| - |t|..] == t
    decreases |w|
  {
    assert ("*" + t)[1..] == t;
    TrailingStar(t, w);
    if w != "" {
      LeadingStar(t, w[1..]);
      if |t| < |w| { assert w[1..][|w| - 1 - |t|..] == w[|w| - |t|..]; }
    }
  }
}
