/** Why incremental minimisation is right: the shape of a half-built automaton, what each
    change of the builder does to the languages, and why the outcome is minimal. */
module Minimization {
  import opened TokenGraph

  // ---------------------------------------------------------------- word order

  /** The order of JavaScript's `<` on strings. */
  predicate Before(a: string, b: string) {
    b != "" && (a == "" || a[0] < b[0] || (a[0] == b[0] && Before(a[1..], b[1..])))
  }

  /** The first difference decides the order; this is what the builder relies on when it
      hangs a new branch at the end of the common prefix. */
  lemma {:induction false} FirstDifference(word: string, prev: string, k: nat)
    requires !Before(word, prev)
    requires k <= |word| && k <= |prev| && word[..k] == prev[..k]
    requires k < |word| && k < |prev| ==> word[k] != prev[k]
    ensures k == |prev| || (k < |word| && prev[k] < word[k])
    decreases k
  {
    if k > 0 {
      assert word[0] == word[..k][0] == prev[..k][0] == prev[0];
      assert word[1..][..k - 1] == word[..k][1..] == prev[..k][1..] == prev[1..][..k - 1];
      FirstDifference(word[1..], prev[1..], k - 1);
    }
  }

  // ---------------------------------------------------------------- shape

  /** path[..] are the still mutable nodes spelling a prefix of `word`, registered[..] the
      frozen ones in the order they were frozen.  Frozen nodes only point to earlier frozen
      nodes; a path node points to frozen nodes and, by its greatest label, to the next
      path node. */
  ghost predicate Shape<N>(g: Graph<N>, path: seq<N>, word: string, registered: seq<N>) {
    && Closed(g)
    && 1 <= |path| <= |word| + 1
    && (forall i :: 0 <= i < |path| ==> path[i] in g)
    && (forall k :: 0 <= k < |registered| ==> registered[k] in g)
    && (forall i, j :: 0 <= i < j < |path| ==> path[i] != path[j])
    && (forall i, k :: 0 <= i < |path| && 0 <= k < |registered| ==> path[i] != registered[k])
    && (forall k, l :: 0 <= k < l < |registered| ==> registered[k] != registered[l])
    && (forall i :: 0 <= i < |path| - 1 ==>
          word[i] in g[path[i]].edges && g[path[i]].edges[word[i]] == path[i + 1])
    && (forall i, c :: 0 <= i < |path| && c in g[path[i]].edges ==>
          && i < |word| && c <= word[i]
          && ((i + 1 < |path| && c == word[i]) || g[path[i]].edges[c] in registered))
    && (forall k, c :: 0 <= k < |registered| && c in g[registered[k]].edges ==>
          g[registered[k]].edges[c] in registered[..k])
  }

  ghost function Redirect<N>(g: Graph<N>, p: N, c: char, m: N): Graph<N>
    requires p in g
  {
    g[p := g[p].(edges := g[p].edges[c := m])]
  }

  ghost function WithLeaf<N>(g: Graph<N>, p: N, c: char, leaf: N): Graph<N>
    requires p in g
  {
    g[p := g[p].(edges := g[p].edges[c := leaf])][leaf := Node(false, map[])]
  }

  ghost function WithFinal<N>(g: Graph<N>, p: N): Graph<N>
    requires p in g
  {
    g[p := g[p].(final := true)]
  }

  lemma ShapeMerge<N>(g: Graph<N>, path: seq<N>, word: string, registered: seq<N>, m: N)
    requires Shape(g, path, word, registered) && |path| >= 2 && m in registered
    ensures Shape(Redirect(g, path[|path| - 2], word[|path| - 2], m), path[..|path| - 1], word, registered)
  {
    var p := path[|path| - 2];
    var g' := Redirect(g, p, word[|path| - 2], m);
    forall n | n in g && n != p ensures g'[n] == g[n] {}
    forall k | 0 <= k < |registered| ensures g'[registered[k]] == g[registered[k]] {}
    forall n, c | n in g' && c in g'[n].edges ensures g'[n].edges[c] in g' {
      assert (n == p && c == word[|path| - 2]) || (c in g[n].edges && g'[n].edges[c] == g[n].edges[c]);
    }
  }

  lemma ShapeRegister<N>(g: Graph<N>, path: seq<N>, word: string, registered: seq<N>)
    requires Shape(g, path, word, registered) && |path| >= 2
    ensures Shape(g, path[..|path| - 1], word, registered + [path[|path| - 1]])
  {
    var child := path[|path| - 1];
    var registered', path' := registered + [child], path[..|path| - 1];
    forall k, c | 0 <= k < |registered'| && c in g[registered'[k]].edges
      ensures g[registered'[k]].edges[c] in registered'[..k]
    {
      assert registered'[..k] == registered[..k];
      if k == |registered| { assert registered[..k] == registered; }
    }
    forall i, c | 0 <= i < |path'| && c in g[path'[i]].edges
      ensures (i + 1 < |path'| && c == word[i]) || g[path'[i]].edges[c] in registered'
    {
      if i + 1 == |path'| && c == word[i] { assert g[path[i]].edges[c] == child; }
    }
  }

  /** A path that spells a common prefix of two ordered words serves the later word too. */
  lemma ShapeRelabel<N>(g: Graph<N>, path: seq<N>, prev: string, word: string, registered: seq<N>)
    requires Shape(g, path, prev, registered)
    requires |path| - 1 <= |word| && word[..|path| - 1] == prev[..|path| - 1]
    requires var k := |path| - 1; k == |prev| || (k < |word| && prev[k] < word[k])
    ensures Shape(g, path, word, registered)
    ensures var last := path[|path| - 1];
            forall c :: c in g[last].edges ==> |path| - 1 < |word| && c < word[|path| - 1]
  {
    forall i | 0 <= i < |path| - 1 ensures word[i] == prev[i] {
      assert word[..|path| - 1][i] == prev[..|path| - 1][i];
    }
  }

  lemma ShapeExtend<N>(g: Graph<N>, path: seq<N>, word: string, registered: seq<N>, leaf: N)
    requires Shape(g, path, word, registered) && |path| <= |word|
    requires leaf !in g && word[|path| - 1] !in g[path[|path| - 1]].edges
    ensures Shape(WithLeaf(g, path[|path| - 1], word[|path| - 1], leaf), path + [leaf], word, registered)
  {
    var last, ch := path[|path| - 1], word[|path| - 1];
    var g', path' := WithLeaf(g, last, ch, leaf), path + [leaf];
    assert g'[leaf] == Node(false, map[]);
    forall n | n in g && n != last ensures g'[n] == g[n] {}
    forall k | 0 <= k < |registered| ensures g'[registered[k]] == g[registered[k]] {}
    forall n, c | n in g' && c in g'[n].edges ensures g'[n].edges[c] in g' {
      assert (n == last && c == ch) || (c in g[n].edges && g'[n].edges[c] == g[n].edges[c]);
    }
    forall i, c | 0 <= i < |path'| && c in g'[path'[i]].edges
      ensures i < |word| && c <= word[i] && ((i + 1 < |path'| && c == word[i]) || g'[path'[i]].edges[c] in registered)
    {
      assert path'[i] != leaf;
      if !(i == |path| - 1 && c == ch) {
        assert c in g[path[i]].edges && g'[path[i]].edges[c] == g[path[i]].edges[c];
      }
    }
  }

  lemma ShapeFinal<N>(g: Graph<N>, path: seq<N>, word: string, registered: seq<N>)
    requires Shape(g, path, word, registered)
    ensures Shape(WithFinal(g, path[|path| - 1]), path, word, registered)
  {
    var g' := WithFinal(g, path[|path| - 1]);
    forall n | n in g ensures g'[n].edges == g[n].edges {}
    forall k | 0 <= k < |registered| ensures g'[registered[k]] == g[registered[k]] {}
  }

  // ---------------------------------------------------------------- languages

  /** Sending an edge to a twin of its target (same finality, same edges) is invisible. */
  lemma {:induction false} RedirectToTwin<N>(g: Graph<N>, p: N, c: char, m: N, n: N, w: string)
    requires Closed(g) && p in g && c in g[p].edges && m in g && n in g
    requires g[m] == g[g[p].edges[c]]
    ensures Accepts(Redirect(g, p, c, m), n, w) <==> Accepts(g, n, w)
    decreases |w|
  {
    var g' := Redirect(g, p, c, m);
    if w != "" {
      assert w[0] in g'[n].edges <==> w[0] in g[n].edges;
      if w[0] in g[n].edges {
        RedirectToTwin(g, p, c, m, g'[n].edges[w[0]], w[1..]);
      }
    }
  }

  /** And every other node stays where words led to it. */
  lemma {:induction false} RedirectLeads<N>(g: Graph<N>, p: N, c: char, m: N, x: N, v: string, r: N)
    requires p in g && c in g[p].edges && m in g && g[p].edges[c] in g
    requires g[m] == g[g[p].edges[c]] && r != g[p].edges[c] && Leads(g, x, v, r)
    ensures Leads(Redirect(g, p, c, m), x, v, r)
    decreases |v|
  {
    if v != "" {
      RedirectLeads(g, p, c, m, if x == p && v[0] == c then m else g[x].edges[v[0]], v[1..], r);
    }
  }

  /** Redirecting to a twin leads nowhere new. */
  lemma {:induction false} RedirectLeadsBack<N>(g: Graph<N>, p: N, c: char, m: N, x: N, v: string, r: N) returns (n: N)
    requires Closed(g) && p in g && c in g[p].edges && m in g && p != m && p != g[p].edges[c]
    requires g[m] == g[g[p].edges[c]] && Leads(Redirect(g, p, c, m), x, v, r)
    ensures Leads(g, x, v, n) && (n == r || (r == m && n == g[p].edges[c]))
    decreases |v|
  {
    var g' := Redirect(g, p, c, m);
    if v == "" {
      n := r;
    } else if x == p && v[0] == c {
      if v[1..] == "" {
        n := g[p].edges[c];
      } else {
        assert g'[m] == g'[g[p].edges[c]];
        n := RedirectLeadsBack(g, p, c, m, g[p].edges[c], v[1..], r);
      }
    } else {
      n := RedirectLeadsBack(g, p, c, m, g[x].edges[v[0]], v[1..], r);
    }
  }

  /** A fresh leaf is the only place that can be reached newly. */
  lemma {:induction false} LeafLeadsBack<N>(g: Graph<N>, p: N, c: char, leaf: N, x: N, v: string, r: N)
    requires Closed(g) && p in g && c !in g[p].edges && leaf !in g && x in g
    requires Leads(WithLeaf(g, p, c, leaf), x, v, r) && r != leaf
    ensures Leads(g, x, v, r)
    decreases |v|
  {
    var g' := WithLeaf(g, p, c, leaf);
    if v != "" {
      assert g'[leaf].edges == map[];
      LeafLeadsBack(g, p, c, leaf, g[x].edges[v[0]], v[1..], r);
    }
  }

  /** Where words lead stays so while edges are only added. */
  lemma {:induction false} LeadsStays<N>(g: Graph<N>, g': Graph<N>, x: N, v: string, r: N)
    requires forall n, c :: n in g && c in g[n].edges ==> n in g' && c in g'[n].edges && g'[n].edges[c] == g[n].edges[c]
    requires g.Keys <= g'.Keys && Leads(g, x, v, r)
    ensures Leads(g', x, v, r)
    decreases |v|
  {
    if v != "" { LeadsStays(g, g', g[x].edges[v[0]], v[1..], r); }
  }

  /** A fresh dead leaf changes no language. */
  lemma {:induction false} LeafSilent<N>(g: Graph<N>, p: N, c: char, leaf: N, n: N, w: string)
    requires Closed(g) && p in g && c !in g[p].edges && leaf !in g && n in g
    ensures Accepts(WithLeaf(g, p, c, leaf), n, w) <==> Accepts(g, n, w)
    decreases |w|
  {
    var g' := WithLeaf(g, p, c, leaf);
    if w != "" {
      if n == p && w[0] == c {
        assert g'[n].edges[c] == leaf && g'[leaf] == Node(false, map[]);
        assert !Accepts(g', leaf, w[1..]);
      } else {
        assert w[0] in g'[n].edges <==> w[0] in g[n].edges;
        if w[0] in g[n].edges {
          LeafSilent(g, p, c, leaf, g[n].edges[w[0]], w[1..]);
        }
      }
    }
  }

  /** What a frozen node accepts depends on frozen nodes only. */
  lemma {:induction false} FrozenUntouched<N>(g: Graph<N>, g': Graph<N>, registered: seq<N>, n: N, w: string)
    requires forall k :: 0 <= k < |registered| ==>
               registered[k] in g && registered[k] in g' && g'[registered[k]] == g[registered[k]]
    requires forall k, c :: 0 <= k < |registered| && c in g[registered[k]].edges ==>
               g[registered[k]].edges[c] in registered[..k]
    requires n in registered
    ensures Accepts(g', n, w) <==> Accepts(g, n, w)
    decreases |w|
  {
    var k :| 0 <= k < |registered| && registered[k] == n;
    if w != "" && w[0] in g[n].edges {
      assert g[n].edges[w[0]] in registered[..k];
      FrozenUntouched(g, g', registered, g[n].edges[w[0]], w[1..]);
    }
  }

  lemma FrozenStayLive<N>(g: Graph<N>, g': Graph<N>, registered: seq<N>)
    requires forall k :: 0 <= k < |registered| ==>
               registered[k] in g && registered[k] in g' && g'[registered[k]] == g[registered[k]]
    requires forall k, c :: 0 <= k < |registered| && c in g[registered[k]].edges ==>
               g[registered[k]].edges[c] in registered[..k]
    requires forall k :: 0 <= k < |registered| ==> Live(g, registered[k])
    ensures forall k :: 0 <= k < |registered| ==> Live(g', registered[k])
  {
    forall k | 0 <= k < |registered| ensures Live(g', registered[k]) {
      var w :| Accepts(g, registered[k], w);
      FrozenUntouched(g, g', registered, registered[k], w);
    }
  }

  lemma LiveThroughEdge<N>(g: Graph<N>, n: N, c: char)
    requires n in g && c in g[n].edges && Live(g, g[n].edges[c])
    ensures Live(g, n)
  {
    var u :| Accepts(g, g[n].edges[c], u);
    assert ([c] + u)[1..] == u;
    assert Accepts(g, n, [c] + u);
  }

  /** The path is where its word leads. */
  lemma {:induction false} PathLeads<N>(g: Graph<N>, path: seq<N>, word: string, registered: seq<N>, i: nat)
    requires Shape(g, path, word, registered) && i < |path|
    ensures Leads(g, path[0], word[..i], path[i])
  {
    if i > 0 {
      PathLeads(g, path, word, registered, i - 1);
      LeadsStep(g, path[0], word[..i - 1], path[i - 1], word[i - 1]);
      assert word[..i - 1] + [word[i - 1]] == word[..i];
    }
  }

  /** A walk along the path either stays on it, spelling the word, or ends among frozen nodes. */
  lemma {:induction false} PathOrFrozen<N>(g: Graph<N>, path: seq<N>, word: string, registered: seq<N>, i: nat,
                                           v: string, n: N)
    requires Shape(g, path, word, registered) && i < |path| && Leads(g, path[i], v, n)
    ensures n in registered || (i + |v| < |path| && n == path[i + |v|] && v == word[i..i + |v|])
    decreases |v|
  {
    if v != "" {
      var next := g[path[i]].edges[v[0]];
      if i + 1 < |path| && v[0] == word[i] {
        PathOrFrozen(g, path, word, registered, i + 1, v[1..], n);
        assert n !in registered ==> v == [word[i]] + word[i + 1..i + |v|] == word[i..i + |v|];
      } else {
        var k :| 0 <= k < |registered| && registered[k] == next;
        FrozenLeads(g, registered, k, v[1..], n);
      }
    }
  }

  /** Frozen nodes lead to frozen nodes, and never back. */
  lemma {:induction false} FrozenLeads<N>(g: Graph<N>, registered: seq<N>, k: nat, v: string, n: N)
    requires k < |registered| && Leads(g, registered[k], v, n)
    requires forall k, c :: 0 <= k < |registered| && registered[k] in g && c in g[registered[k]].edges ==>
               g[registered[k]].edges[c] in registered[..k]
    ensures n in registered[..k + 1] && (v != "" ==> n in registered[..k])
    decreases |v|
  {
    if v == "" {
      assert registered[..k + 1][k] == n;
    } else {
      var next := g[registered[k]].edges[v[0]];
      var l :| 0 <= l < k && registered[..k][l] == next;
      FrozenLeads(g, registered, l, v[1..], n);
      assert registered[..k][..l + 1] == registered[..l + 1];
    }
  }

  /** Making the last path node final adds exactly the word the path spells. */
  lemma {:induction false} FinalAddsWord<N>(g: Graph<N>, path: seq<N>, word: string, registered: seq<N>, i: nat,
                                            w: string)
    requires Shape(g, path, word, registered) && |path| == |word| + 1 && i < |path|
    ensures Accepts(WithFinal(g, path[|path| - 1]), path[i], w) <==> Accepts(g, path[i], w) || w == word[i..]
    decreases |w|
  {
    var g' := WithFinal(g, path[|path| - 1]);
    assert g'[path[i]].edges == g[path[i]].edges;
    if w != "" {
      if i < |word| { assert w == word[i..] <==> w[0] == word[i] && w[1..] == word[i + 1..]; }
      if w[0] in g[path[i]].edges {
        if i < |word| && w[0] == word[i] {
          FinalAddsWord(g, path, word, registered, i + 1, w[1..]);
        } else {
          FrozenUntouched(g, g', registered, g[path[i]].edges[w[0]], w[1..]);
        }
      }
    } else {
      assert word[i..] == "" <==> i == |word|;
    }
  }

  // ---------------------------------------------------------------- minimality

  /** No two frozen nodes are twins, and each accepts something. */
  ghost predicate Reduced<N>(g: Graph<N>, registered: seq<N>) {
    && (forall k :: 0 <= k < |registered| ==> registered[k] in g && Live(g, registered[k]))
    && (forall k, c :: 0 <= k < |registered| && c in g[registered[k]].edges ==>
        g[registered[k]].edges[c] in registered[..k])
    && (forall k, l :: 0 <= k < |registered| && 0 <= l < |registered| && g[registered[k]] == g[registered[l]] ==>
        k == l)
  }

  lemma SameLanguageTargets<N>(g: Graph<N>, a: N, b: N, c: char)
    requires a in g && b in g && SameLanguage(g, a, b)
    requires c in g[a].edges && Live(g, g[a].edges[c])
    ensures c in g[b].edges && SameLanguage(g, g[a].edges[c], g[b].edges[c])
  {
    var u :| Accepts(g, g[a].edges[c], u);
    assert ([c] + u)[1..] == u;
    assert Accepts(g, a, [c] + u) && Accepts(g, b, [c] + u);
    forall w ensures Accepts(g, g[a].edges[c], w) <==> Accepts(g, g[b].edges[c], w) {
      assert ([c] + w)[1..] == w;
      assert Accepts(g, a, [c] + w) <==> Accepts(g, b, [c] + w);
    }
  }

  lemma {:induction false} EquivalentFrozenAreEqual<N>(g: Graph<N>, registered: seq<N>, k: nat, l: nat)
    requires Reduced(g, registered) && k < |registered| && l < |registered|
    requires SameLanguage(g, registered[k], registered[l])
    ensures k == l
    decreases k
  {
    var a, b := registered[k], registered[l];
    assert Accepts(g, a, "") <==> Accepts(g, b, "");
    forall c | c in g[a].edges ensures c in g[b].edges && g[b].edges[c] == g[a].edges[c] {
      var i :| 0 <= i < k && registered[i] == g[a].edges[c];
      SameLanguageTargets(g, a, b, c);
      var j :| 0 <= j < l && registered[j] == g[b].edges[c];
      EquivalentFrozenAreEqual(g, registered, i, j);
    }
    forall c | c in g[b].edges ensures c in g[a].edges {
      SameLanguageTargets(g, b, a, c);
    }
    assert g[a].edges == g[b].edges;
  }

  /** A node above the frozen ones with the language of one of them is its twin. */
  lemma SameLanguageIsTwin<N>(g: Graph<N>, registered: seq<N>, n: N, m: N)
    requires Reduced(g, registered) && m in registered && n in g && SameLanguage(g, n, m)
    requires forall c :: c in g[n].edges ==> g[n].edges[c] in registered
    ensures g[n] == g[m]
  {
    hide Live;
    var l :| 0 <= l < |registered| && registered[l] == m;
    assert Accepts(g, n, "") <==> Accepts(g, m, "");
    forall c | c in g[n].edges ensures c in g[m].edges && g[m].edges[c] == g[n].edges[c] {
      var i :| 0 <= i < |registered| && registered[i] == g[n].edges[c];
      SameLanguageTargets(g, n, m, c);
      var j :| 0 <= j < l && registered[j] == g[m].edges[c];
      EquivalentFrozenAreEqual(g, registered, i, j);
    }
    forall c | c in g[m].edges ensures c in g[n].edges {
      SameLanguageTargets(g, m, n, c);
    }
    assert g[n].edges == g[m].edges;
  }

  /** A node accepts the same words before and after a change of the graph. */
  ghost predicate Unchanged<N>(g: Graph<N>, g': Graph<N>, r: N) {
    forall w :: Accepts(g', r, w) <==> Accepts(g, r, w)
  }

  /** What the last edge of the path leads to, before and after it is redirected. */
  lemma LastEdgeLeads<N>(g: Graph<N>, path: seq<N>, word: string, registered: seq<N>, m: N)
    requires Shape(g, path, word, registered) && |path| >= 2 && m in registered
    ensures var k := |path| - 2;
            && Leads(g, path[0], word[..k + 1], path[k + 1])
            && Leads(Redirect(g, path[k], word[k], m), path[0], word[..k + 1], m)
  {
    hide Leads;
    var k := |path| - 2;
    var g' := Redirect(g, path[k], word[k], m);
    PathLeads(g, path, word, registered, k + 1);
    ShapeMerge(g, path, word, registered, m);
    PathLeads(g', path[..k + 1], word, registered, k);
    LeadsStep(g', path[0], word[..k], path[k], word[k]);
    assert word[..k] + [word[k]] == word[..k + 1];
  }

  /** Sending the last edge of the path to a frozen node that is no twin of its target changes
      the root's language. */
  lemma OnlyTwinsAreSilent<N>(g: Graph<N>, path: seq<N>, word: string, registered: seq<N>, m: N)
    requires Shape(g, path, word, registered) && |path| >= 2 && m in registered && Reduced(g, registered)
    requires Unchanged(g, Redirect(g, path[|path| - 2], word[|path| - 2], m), path[0])
    ensures g[m] == g[path[|path| - 1]]
  {
    hide Leads, Accepts, Live;
    var k := |path| - 2;
    var g', n, v := Redirect(g, path[k], word[k], m), path[k + 1], word[..k + 1];
    LastEdgeLeads(g, path, word, registered, m);
    forall u ensures Accepts(g, n, u) <==> Accepts(g, m, u) {
      LeadsThenAccepts(g, path[0], v, n, u);
      LeadsThenAccepts(g', path[0], v, m, u);
      FrozenUntouched(g, g', registered, m, u);
    }
    SameLanguageIsTwin(g, registered, n, m);
  }

  lemma {:induction false} ReachesFrozen<N>(g: Graph<N>, registered: seq<N>, r: N, v: string, n: N)
    requires Reduced(g, registered) && r in g && v != ""
    requires forall c :: c in g[r].edges ==> g[r].edges[c] in registered
    requires Leads(g, r, v, n)
    ensures n in registered
    decreases |v|
  {
    if v[1..] != "" {
      ReachesFrozen(g, registered, g[r].edges[v[0]], v[1..], n);
    }
  }

  /** A longest word separates the root from everything below it. */
  lemma {:induction false} RootIsDifferent<N>(g: Graph<N>, r: N, words: set<string>, v: string, n: N)
    requires forall w :: Accepts(g, r, w) <==> w in words
    requires Leads(g, r, v, n) && v != "" && Live(g, n)
    ensures !SameLanguage(g, r, n)
  {
    var u :| Accepts(g, n, u);
    LeadsThenAccepts(g, r, v, n, u);
    var w := Longest(words, v + u);
    LeadsThenAccepts(g, r, v, n, w);
    assert Accepts(g, n, w) ==> v + w in words;
  }

  lemma {:induction false} Longest(words: set<string>, some: string) returns (w: string)
    requires some in words
    ensures w in words && forall x :: x in words ==> |x| <= |w|
    decreases |words|
  {
    if x :| x in words && |x| > |some| {
      assert words - {some} < words;
      w := Longest(words - {some}, x);
    } else {
      w := some;
    }
  }

  /** The finished automaton: different reachable nodes have different languages. */
  lemma ReachableNodesDiffer<N>(g: Graph<N>, registered: seq<N>, r: N, words: set<string>, a: N, b: N)
    requires Reduced(g, registered) && r in g && r !in registered
    requires forall c :: c in g[r].edges ==> g[r].edges[c] in registered
    requires forall w :: Accepts(g, r, w) <==> w in words
    requires Reachable(g, r, a) && Reachable(g, r, b) && a != b
    ensures !SameLanguage(g, a, b)
  {
    var u :| Leads(g, r, u, a);
    var v :| Leads(g, r, v, b);
    if u != "" { ReachesFrozen(g, registered, r, u, a); }
    if v != "" { ReachesFrozen(g, registered, r, v, b); }
    if u == "" {
      RootIsDifferent(g, r, words, v, b);
    } else if v == "" {
      RootIsDifferent(g, r, words, u, a);
    } else if SameLanguage(g, a, b) {
      var k :| 0 <= k < |registered| && registered[k] == a;
      var l :| 0 <= l < |registered| && registered[l] == b;
      EquivalentFrozenAreEqual(g, registered, k, l);
    }
  }

  /** An automaton whose nodes are reachable, live and pairwise different is the smallest
      one for its language: any other automaton h for the same words has at least as many
      nodes. */
  lemma {:induction false} NoSmallerAutomaton<N, M>(g: Graph<N>, r: N, nodes: set<N>, h: Graph<M>, s: M, spare: set<M>)
    requires forall n :: n in nodes ==> Reachable(g, r, n) && Live(g, n)
    requires forall a, b :: a in nodes && b in nodes && a != b ==> !SameLanguage(g, a, b)
    requires forall w :: Accepts(g, r, w) <==> Accepts(h, s, w)
    requires spare <= h.Keys
    requires forall n, v, m :: n in nodes && Leads(g, r, v, n) && m in h && Leads(h, s, v, m) ==> m in spare
    ensures |nodes| <= |spare|
    decreases |nodes|
  {
    if n :| n in nodes {
      var v :| Leads(g, r, v, n);
      var u :| Accepts(g, n, u);
      LeadsThenAccepts(g, r, v, n, u);
      var m := AcceptedPrefixLeads(h, s, v, u);
      forall n', v', m' | n' in nodes - {n} && Leads(g, r, v', n') && m' in h && Leads(h, s, v', m')
        ensures m' in spare - {m}
      {
        assert m' == m ==> SameLanguage(g, n, n') by {
          if m' == m { SameTargetSameLanguage(g, r, v, n, v', n', h, s, m); }
        }
      }
      NoSmallerAutomaton(g, r, nodes - {n}, h, s, spare - {m});
    }
  }

  lemma SameTargetSameLanguage<N, M>(g: Graph<N>, r: N, v: string, n: N, v': string, n': N, h: Graph<M>, s: M, m: M)
    requires forall w :: Accepts(g, r, w) <==> Accepts(h, s, w)
    requires Leads(g, r, v, n) && Leads(g, r, v', n')
    requires Leads(h, s, v, m) && Leads(h, s, v', m)
    ensures SameLanguage(g, n, n')
  {
    forall w ensures Accepts(g, n, w) <==> Accepts(g, n', w) {
      LeadsThenAccepts(g, r, v, n, w);
      LeadsThenAccepts(g, r, v', n', w);
      LeadsThenAccepts(h, s, v, m, w);
      LeadsThenAccepts(h, s, v', m, w);
    }
  }

  lemma {:induction false} AcceptedPrefixLeads<M>(h: Graph<M>, s: M, v: string, u: string) returns (m: M)
    requires Accepts(h, s, v + u)
    ensures m in h && Leads(h, s, v, m)
    decreases |v|
  {
    if v == "" {
      m := s;
    } else {
      assert (v + u)[1..] == v[1..] + u;
      m := AcceptedPrefixLeads(h, h[s].edges[v[0]], v[1..], u);
    }
  }
}
