/** How the ids of a half-built automaton bear on its keys: as long as only twins were merged
    its frozen nodes have the keys that Numbering foretells, and a merge of others means that
    the list is not Telling, whatever words are still to come. */
module BuilderKeys {
  import opened TokenGraph
  import opened Minimization
  import opened TokenSets
  import opened BuilderTheory
  import opened BuilderNumbers
  import Enumeration
  import Numbering
  import NodeKey

  /** A prefix that more words may still continue: one of the first `depth` path nodes'. */
  ghost predicate Open(s: State, depth: nat, a: string) {
    exists i :: 0 <= i < depth && i <= |s.word| && a == s.word[..i]
  }

  /** A word list and its prefixes that s may still grow into, the first `depth` path nodes
      being open. */
  ghost predicate Future(s: State, depth: nat, goal: set<string>, ps: seq<string>) {
    && s.words <= goal && s.made <= ps && Enumeration.NoRepeats(ps) && Numbering.OnlyPrefixes(goal, ps)
    && (forall w, a :: w in goal && w !in s.words && a in s.made && a <= w ==> Open(s, depth, a))
  }

  /** No other node got an id in between: the k-th node has the k-th id from the root's on. */
  ghost predicate InStep(s: State)
    requires s.path != []
  {
    forall n :: n in s.g ==> n.id == s.path[0].id + Index(s, n)
  }

  /** What s relies on while only twins were merged. */
  ghost predicate Right(s: State) {
    Sane(s) && |s.path| <= |s.word| + 1 && AcceptsWords(s) && Numbered(s)
  }

  lemma RightFacts(s: State)
    requires Right(s)
    ensures Sane(s) && 1 <= |s.path| <= |s.word| + 1 && AcceptsWords(s) && Numbered(s) && s.path[0] in s.g
    ensures Enumeration.NoRepeats(s.made) && MadeIsSpelled(s)
    ensures forall i :: 0 <= i < |s.path| ==> s.path[i] in s.g && Opened(s, i) && s.path[i] !in s.registered
    ensures forall r :: r in s.registered ==> r in s.g && IsFirst(s, r) && Live(s.g, r)
  {
    hide KeyOf, Opened, IsFirst, MadeIsSpelled;
    Facts(s);
  }

  lemma ToFrozenOrPath(s: State, a: string, n: TokenSet)
    requires Right(s) && To(s, a, n)
    ensures n in s.registered || exists i :: 0 <= i < |s.path| && n == s.path[i] && a == s.word[..i]
  {
    hide KeyOf, Numbered, AcceptsWords, Leads, Registry, AllLive;
    PathOrFrozen(s.g, s.path, s.word, s.registered, 0, a, n);
    if n !in s.registered { assert n == s.path[|a|] && a == s.word[..|a|]; }
  }

  /** What is left to read behind a prefix that is not open is what its node accepts. */
  lemma Residual(s: State, depth: nat, goal: set<string>, ps: seq<string>, a: string, n: TokenSet, x: string)
    requires Right(s) && Future(s, depth, goal, ps) && To(s, a, n) && !Open(s, depth, a)
    ensures a + x in goal <==> Accepts(s.g, n, x)
  {
    hide Sane, Numbered, Accepts, Leads;
    RightFacts(s);
    assert a in s.made;
    LeadsThenAccepts(s.g, s.path[0], a, n, x);
    assert a <= a + x;
  }

  /** Nothing continues a frozen prefix that the node does not. */
  lemma NextIsEdge(s: State, depth: nat, goal: set<string>, ps: seq<string>, a: string, n: TokenSet, c: char)
    requires Right(s) && Future(s, depth, goal, ps) && To(s, a, n) && !Open(s, depth, a)
    ensures a + [c] in ps <==> c in s.g[n].edges
    ensures c in s.g[n].edges ==> a + [c] in s.made && To(s, a + [c], s.g[n].edges[c])
  {
    hide Sane, Numbered, Accepts, Open;
    RightFacts(s);
    ShapeFacts(s);
    if c in s.g[n].edges {
      LeadsStep(s.g, s.path[0], a, n, c);
      assert To(s, a + [c], s.g[n].edges[c]);
    }
    if k :| 0 <= k < |ps| && ps[k] == a + [c] {
      MadeNext(s, depth, goal, ps, a, k);
      assert Spelled(s, s.made[k]);
      var x :| x in s.g && To(s, a + [c], x);
      var m := LeadsSplit(s.g, s.path[0], a, [c], x);
      LeadsUnique(s.g, s.path[0], a, m, n);
    }
  }

  lemma ShapeFacts(s: State)
    requires Sane(s)
    ensures Closed(s.g)
  {
    hide KeyOf, Live;
  }

  lemma PrefixesAreMade(s: State, w: string, a: string)
    requires Right(s) && w in s.words && a <= w
    ensures a in s.made
  {
    hide Sane, Leads, Accepts;
    RightFacts(s);
    var n := AcceptedLeads(s.g, s.path[0], w);
    assert w == a + w[|a|..];
    var m := LeadsSplit(s.g, s.path[0], a, w[|a|..], n);
    ToNode(s.g, s.path[0], a, m);
    assert To(s, a, m);
  }

  /** What is to come does not continue a prefix that is not open. */
  lemma MadeNext(s: State, depth: nat, goal: set<string>, ps: seq<string>, a: string, k: nat)
    requires Right(s) && Future(s, depth, goal, ps) && a in s.made && !Open(s, depth, a)
    requires k < |ps| && a <= ps[k]
    ensures k < |s.made| && s.made[k] == ps[k]
  {
    hide Sane, AcceptsWords, Numbered, Open;
    assert ps[k] == "" ==> a == ps[k];
    if k >= |s.made| && ps[k] != "" {
      assert ps[k] in ps;
      var w :| w in goal && ps[k] <= w;
      assert a <= w;
      PrefixesAreMade(s, w, ps[k]);
    }
  }

  /** A prefix and a proper continuation of it never leave the same to read. */
  lemma ContinuationDiffers(goal: set<string>, a: string, b: string, x: string)
    requires a <= b && a != b && b + x in goal
    ensures !Numbering.Same(goal, a, b)
  {
    var y := b[|a|..];
    var behind := set w | w in goal && b <= w;
    assert b + x in behind;
    var w := Longest(behind, b + x);
    var z := w[|b|..];
    assert b == a + y && w == b + z && w == a + (y + z);
    assert |b + (y + z)| > |w| && b <= b + (y + z);
    assert b + (y + z) !in goal;
  }

  /** Two frozen prefixes lead to one node exactly if the same is left to read behind them. */
  lemma SameIsOneNode(s: State, depth: nat, goal: set<string>, ps: seq<string>, a: string, n: TokenSet, b: string,
                      m: TokenSet)
    requires Right(s) && Future(s, depth, goal, ps) && n in s.registered && m in s.registered
    requires To(s, a, n) && To(s, b, m) && !Open(s, depth, a) && !Open(s, depth, b)
    ensures Numbering.Same(goal, a, b) <==> n == m
  {
    hide Sane, Numbered, Accepts, Leads, Open, Future;
    forall x ensures a + x in goal <==> Accepts(s.g, n, x) { Residual(s, depth, goal, ps, a, n, x); }
    forall x ensures b + x in goal <==> Accepts(s.g, m, x) { Residual(s, depth, goal, ps, b, m, x); }
    RightFacts(s);
    FrozenAreReduced(s);
    if Numbering.Same(goal, a, b) {
      forall x ensures Accepts(s.g, n, x) <==> Accepts(s.g, m, x) { Numbering.SameAt(goal, a, b, x); }
      var k :| 0 <= k < |s.registered| && s.registered[k] == n;
      var l :| 0 <= l < |s.registered| && s.registered[l] == m;
      EquivalentFrozenAreEqual(s.g, s.registered, k, l);
    }
  }

  lemma FrozenIsShut(s: State, depth: nat, a: string, n: TokenSet)
    requires Right(s) && depth <= |s.path| && n in s.registered && To(s, a, n)
    ensures !Open(s, depth, a)
  {
    hide Sane, Numbered, Leads;
    RightFacts(s);
    if i :| 0 <= i < depth && i <= |s.word| && a == s.word[..i] {
      AlongPath(s, i);
      ToUnique(s, a, n, s.path[i]);
    }
  }

  /** The number of the first prefix is the node's own. */
  lemma FirstIsIndex(s: State, depth: nat, goal: set<string>, ps: seq<string>, a: string, n: TokenSet)
    requires Right(s) && depth <= |s.path| && Future(s, depth, goal, ps) && n in s.registered && To(s, a, n)
    ensures a in ps && Numbering.First(goal, ps, a) == Index(s, n)
  {
    hide Sane, Accepts, To, Open, Numbering.Same, Numbering.First;
    RightFacts(s);
    var j := Index(s, n);
    assert IsFirst(s, n);
    FrozenIsShut(s, depth, a, n);
    FrozenIsShut(s, depth, s.made[j], n);
    SameIsOneNode(s, depth, goal, ps, s.made[j], n, a, n);
    assert a in s.made && ps[j] == s.made[j];
    forall t | 0 <= t < j ensures !Numbering.Same(goal, ps[t], a) {
      EarlierDiffers(s, depth, goal, ps, a, n, t);
    }
    var k := Numbering.First(goal, ps, a);
    assert Numbering.Same(goal, ps[k], a);
  }

  lemma EarlierDiffers(s: State, depth: nat, goal: set<string>, ps: seq<string>, a: string, n: TokenSet, t: nat)
    requires Right(s) && depth <= |s.path| && Future(s, depth, goal, ps) && n in s.registered && To(s, a, n)
    requires t < Index(s, n) && t < |ps|
    ensures !Numbering.Same(goal, ps[t], a)
  {
    hide Sane, Accepts, Leads, Open, AcceptsWords;
    RightFacts(s);
    var j := Index(s, n);
    assert IsFirst(s, n) && ps[t] == s.made[t] && Spelled(s, s.made[t]);
    var m :| m in s.g && To(s, s.made[t], m);
    FrozenIsShut(s, depth, a, n);
    FrozenIsShut(s, depth, s.made[j], n);
    ToFrozenOrPath(s, s.made[t], m);
    if m in s.registered {
      FrozenIsShut(s, depth, s.made[t], m);
      SameIsOneNode(s, depth, goal, ps, s.made[t], m, a, n);
    } else {
      var i :| 0 <= i < |s.path| && m == s.path[i] && s.made[t] == s.word[..i];
      PathComesFirst(s, i, t);
      SameIsOneNode(s, depth, goal, ps, s.made[j], n, a, n);
      var x :| Accepts(s.g, n, x);
      Residual(s, depth, goal, ps, s.made[j], n, x);
      ContinuationDiffers(goal, s.made[t], s.made[j], x);
      if Numbering.Same(goal, ps[t], a) { SameThrough(goal, s.made[t], a, s.made[j]); }
    }
  }

  lemma SameThrough(goal: set<string>, a: string, b: string, c: string)
    requires Numbering.Same(goal, a, b) && Numbering.Same(goal, c, b)
    ensures Numbering.Same(goal, a, c)
  {
    forall x ensures a + x in goal <==> c + x in goal {
      Numbering.SameAt(goal, a, b, x);
      Numbering.SameAt(goal, c, b, x);
    }
  }

  lemma PathComesFirst(s: State, i: nat, t: nat)
    requires Right(s) && i < |s.path| && t < |s.made| && s.made[t] == s.word[..i]
    ensures forall j :: t < j < |s.made| ==> s.made[t] <= s.made[j] && s.made[t] != s.made[j]
  {
    hide Sane, AcceptsWords, MadeIsSpelled, IsFirst;
    assert Opened(s, i);
  }

  /** A frozen node, or one whose targets are all frozen, has the key that its prefix foretells. */
  lemma KeyIsForetold(s: State, depth: nat, goal: set<string>, ps: seq<string>, a: string, n: TokenSet)
    requires Right(s) && depth <= |s.path| && Future(s, depth, goal, ps) && To(s, a, n) && !Open(s, depth, a)
    requires InStep(s) && forall c :: c in s.g[n].edges ==> s.g[n].edges[c] in s.registered
    ensures Numbering.Key(goal, ps, s.path[0].id, a) == KeyOf(s.g[n])
  {
    hide Right, Leads, Future, Open, Numbering.Targets, NodeKey.KeyOf, InStep;
    HasRoot(s, a, n);
    Residual(s, depth, goal, ps, a, n, "");
    assert a + "" == a;
    TargetsAreForetold(s, depth, goal, ps, a, n);
  }

  lemma HasRoot(s: State, a: string, n: TokenSet)
    requires Right(s) && To(s, a, n)
    ensures s.path != [] && n in s.g
  {
  }

  lemma TargetsAreForetold(s: State, depth: nat, goal: set<string>, ps: seq<string>, a: string, n: TokenSet)
    requires Right(s) && depth <= |s.path| && Future(s, depth, goal, ps) && To(s, a, n) && !Open(s, depth, a)
    requires InStep(s) && forall c :: c in s.g[n].edges ==> s.g[n].edges[c] in s.registered
    ensures s.path != [] && Numbering.Targets(goal, ps, s.path[0].id, a) == Ids(s.g[n].edges)
  {
    hide *;
    HasRoot(s, a, n);
    forall c: char
      ensures c in Numbering.Targets(goal, ps, s.path[0].id, a) <==> c in Ids(s.g[n].edges)
      ensures c in Ids(s.g[n].edges) ==>
                Numbering.Targets(goal, ps, s.path[0].id, a)[c] == Ids(s.g[n].edges)[c]
    {
      TargetIsForetold(s, depth, goal, ps, a, n, c);
    }
  }

  lemma TargetIsForetold(s: State, depth: nat, goal: set<string>, ps: seq<string>, a: string, n: TokenSet, c: char)
    requires Right(s) && depth <= |s.path| && Future(s, depth, goal, ps) && To(s, a, n) && !Open(s, depth, a)
    requires InStep(s) && forall c :: c in s.g[n].edges ==> s.g[n].edges[c] in s.registered
    ensures s.path != []
    ensures var foretold, ids := Numbering.Targets(goal, ps, s.path[0].id, a), Ids(s.g[n].edges);
            (c in foretold <==> c in ids) && (c in ids ==> foretold[c] == ids[c])
  {
    hide Sane, Numbered, AcceptsWords, Leads, Future, Open, Numbering.First, Numbering.Targets;
    RightFacts(s);
    NextIsEdge(s, depth, goal, ps, a, n, c);
    Numbering.TargetAt(goal, ps, s.path[0].id, a, c);
    if c in s.g[n].edges { FirstIsIndex(s, depth, goal, ps, a + [c], s.g[n].edges[c]); }
  }

  /** Two nodes that are no twins but have one key: keys do not tell the nodes of the list apart. */
  lemma MergeOfOthers(s: State, m: TokenSet, goal: set<string>, ps: seq<string>)
    requires Right(s) && InStep(s) && |s.path| >= 2 && m in s.registered && Future(s, |s.path| - 1, goal, ps)
    requires var top := s.path[|s.path| - 1];
             top in s.g && m in s.g && KeyOf(s.g[m]) == KeyOf(s.g[top]) && !Twins(s.g, m, top)
    ensures !Numbering.Apart(goal, ps, s.path[0].id)
  {
    hide Sane, Numbered, AcceptsWords, Leads, Future, Numbering.Key, Numbering.Same, Open, KeyOf;
    RightFacts(s);
    var n := |s.path|;
    var top, u, v := s.path[n - 1], s.word[..n - 1], s.made[Index(s, m)];
    assert IsFirst(s, m);
    AlongPath(s, n - 1);
    FrozenIsShut(s, n - 1, v, m);
    TopIsShut(s);
    TopTargets(s, m);
    KeyIsForetold(s, n - 1, goal, ps, u, top);
    KeyIsForetold(s, n - 1, goal, ps, v, m);
    OthersDiffer(s, m, goal, ps, u, v);
    InFuture(s, goal, ps, u, top);
    InFuture(s, goal, ps, v, m);
    assert v == "" ==> v == s.word[..0];
    AlongPath(s, 0);
    if v == "" { ToUnique(s, v, m, s.path[0]); }
    assert |u| > 0;
  }

  lemma InFuture(s: State, goal: set<string>, ps: seq<string>, a: string, n: TokenSet)
    requires Right(s) && To(s, a, n) && exists depth :: Future(s, depth, goal, ps)
    ensures a in ps
  {
    hide Sane, AcceptsWords, Leads, Open;
    RightFacts(s);
    assert a in s.made;
  }

  lemma TopIsShut(s: State)
    requires Right(s) && |s.path| >= 2
    ensures !Open(s, |s.path| - 1, s.word[..|s.path| - 1])
  {
    hide Sane, AcceptsWords, Numbered;
    assert forall i :: 0 <= i < |s.path| - 1 ==> |s.word[..i]| == i;
  }

  lemma TopTargets(s: State, m: TokenSet)
    requires Sane(s) && |s.path| >= 2 && m in s.registered
    ensures var top := s.path[|s.path| - 1];
            && top in s.g && m in s.g
            && (forall c :: c in s.g[top].edges ==> s.g[top].edges[c] in s.registered)
            && (forall c :: c in s.g[m].edges ==> s.g[m].edges[c] in s.registered)
  {
    hide KeyOf, Live;
  }

  lemma OthersDiffer(s: State, m: TokenSet, goal: set<string>, ps: seq<string>, u: string, v: string)
    requires Right(s) && |s.path| >= 2 && m in s.registered && Future(s, |s.path| - 1, goal, ps)
    requires To(s, u, s.path[|s.path| - 1]) && To(s, v, m) && !Open(s, |s.path| - 1, u) && !Open(s, |s.path| - 1, v)
    requires !Twins(s.g, m, s.path[|s.path| - 1])
    ensures !Numbering.Same(goal, u, v)
  {
    hide Sane, Numbered, Accepts, Leads, Open, Future;
    var top, depth := s.path[|s.path| - 1], |s.path| - 1;
    RightFacts(s);
    TopTargets(s, m);
    FrozenAreReduced(s);
    if Numbering.Same(goal, u, v) {
      forall x ensures Accepts(s.g, top, x) <==> Accepts(s.g, m, x) {
        Residual(s, depth, goal, ps, u, top, x);
        Residual(s, depth, goal, ps, v, m, x);
        Numbering.SameAt(goal, u, v, x);
      }
      SameLanguageIsTwin(s.g, s.registered, top, m);
    }
  }

  /** With the path folded back and only twins merged, keys tell the nodes of the list apart. */
  lemma FinishedIsTelling(s: State)
    requires Right(s) && InStep(s) && |s.path| == 1 && Numbering.OnlyPrefixes(s.words, s.made)
    ensures Numbering.Apart(s.words, s.made, s.path[0].id)
  {
    hide Sane, Numbered, AcceptsWords, Leads, Numbering.Key, Numbering.Same, Numbering.OnlyPrefixes;
    RightFacts(s);
    forall a, b | a in s.made && b in s.made && a != "" && b != ""
                  && Numbering.Key(s.words, s.made, s.path[0].id, a) == Numbering.Key(s.words, s.made, s.path[0].id, b)
      ensures Numbering.Same(s.words, a, b)
    {
      var n := FinishedTo(s, a);
      var m := FinishedTo(s, b);
      FrozenIsShut(s, 1, a, n);
      FrozenIsShut(s, 1, b, m);
      KeyIsForetold(s, 1, s.words, s.made, a, n);
      KeyIsForetold(s, 1, s.words, s.made, b, m);
      RegistryTells(s, n, m);
      SameIsOneNode(s, 1, s.words, s.made, a, n, b, m);
    }
  }

  lemma RegistryTells(s: State, n: TokenSet, m: TokenSet)
    requires Sane(s) && n in s.registered && m in s.registered && n in s.g && m in s.g
    requires KeyOf(s.g[n]) == KeyOf(s.g[m])
    ensures n == m
  {
    hide KeyOf, Live, Shape;
  }

  lemma FinishedTo(s: State, a: string) returns (n: TokenSet)
    requires Right(s) && |s.path| == 1 && a in s.made && a != ""
    ensures n in s.registered && To(s, a, n)
    ensures forall c :: c in s.g[n].edges ==> s.g[n].edges[c] in s.registered
  {
    hide KeyOf, AcceptsWords, Leads, Live, Registry;
    var k :| 0 <= k < |s.made| && s.made[k] == a;
    assert Spelled(s, s.made[k]);
    n :| n in s.g && To(s, a, n);
    ToFrozenOrPath(s, a, n);
  }
}
