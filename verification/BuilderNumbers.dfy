/** Which node of a half-built automaton was made when, as long as only twins were merged:
    each was made for the first prefix that leads to it. */
module BuilderNumbers {
  import opened TokenGraph
  import opened Minimization
  import opened TokenSets
  import opened BuilderTheory
  import Enumeration

  /** Where words lead from the root. */
  ghost predicate To(s: State, a: string, n: TokenSet)
    requires s.path != []
  {
    n in s.g && Leads(s.g, s.path[0], a, n)
  }

  ghost predicate Spelled(s: State, a: string)
    requires s.path != []
  {
    exists n :: n in s.g && To(s, a, n)
  }

  /** Words lead somewhere exactly along the prefixes nodes were made for. */
  ghost predicate MadeIsSpelled(s: State)
    requires s.path != []
  {
    && (forall k :: 0 <= k < |s.made| ==> Spelled(s, s.made[k]))
    && (forall a, n :: n in s.g && To(s, a, n) ==> a in s.made)
  }

  /** How many nodes were made before n. */
  function Index(s: State, n: TokenSet): int { if n in s.index then s.index[n] else -1 }

  /** The i-th path node was made for the path's prefix, and all later ones lie below it. */
  ghost predicate Opened(s: State, i: nat)
    requires i < |s.path| && i <= |s.word|
  {
    var k := Index(s, s.path[i]);
    && 0 <= k < |s.made| && s.made[k] == s.word[..i]
    && forall t :: k < t < |s.made| ==> s.word[..i] <= s.made[t]
  }

  /** r was made for the first prefix that leads to it. */
  ghost predicate IsFirst(s: State, r: TokenSet)
    requires s.path != []
  {
    var j := Index(s, r);
    0 <= j < |s.made| && To(s, s.made[j], r) && forall t :: 0 <= t < j ==> !To(s, s.made[t], r)
  }

  ghost predicate Numbered(s: State)
    requires 1 <= |s.path| <= |s.word| + 1
  {
    && Enumeration.NoRepeats(s.made) && MadeIsSpelled(s)
    && (forall i :: 0 <= i < |s.path| ==> Opened(s, i))
    && (forall r :: r in s.registered ==> IsFirst(s, r))
  }

  lemma {:induction false} ToNode(g: Graph<TokenSet>, r: TokenSet, a: string, n: TokenSet)
    requires Leads(g, r, a, n)
    ensures n in g
    decreases |a|
  {
    if a != "" { ToNode(g, g[r].edges[a[0]], a[1..], n); }
  }

  /** Only the path's own word leads to a path node. */
  lemma ToPath(s: State, i: nat, a: string)
    requires Sane(s) && i < |s.path| && To(s, a, s.path[i])
    ensures i <= |s.word| && a == s.word[..i]
  {
    hide KeyOf, Live, Leads, Registry, AllLive;
    Facts(s);
    PathOrFrozen(s.g, s.path, s.word, s.registered, 0, a, s.path[i]);
  }

  lemma AlongPath(s: State, i: nat)
    requires Sane(s) && i < |s.path|
    ensures i <= |s.word| && To(s, s.word[..i], s.path[i])
  {
    hide KeyOf, Live, Leads, Registry, AllLive;
    PathLeads(s.g, s.path, s.word, s.registered, i);
  }

  lemma ToUnique(s: State, a: string, n: TokenSet, m: TokenSet)
    requires s.path != [] && To(s, a, n) && To(s, a, m)
    ensures n == m
  {
    LeadsUnique(s.g, s.path[0], a, n, m);
  }

  // ---------------------------------------------------------------- merging twins

  /** Where words lead after the top node gave way to its twin m. */
  lemma MergeLeads(s: State, m: TokenSet, a: string, r: TokenSet)
    requires Sane(s) && |s.path| >= 2 && m in s.registered && Twins(s.g, m, s.path[|s.path| - 1])
    ensures |s.path| <= |s.word| + 1 && s.path[|s.path| - 2] in s.g && MergeTop(s, m).g.Keys == s.g.Keys
    ensures To(MergeTop(s, m), a, r) <==>
              || (r != s.path[|s.path| - 1] && To(s, a, r))
              || (r == m && a == s.word[..|s.path| - 1])
  {
    hide KeyOf, Live, Leads, Registry, AllLive;
    Facts(s);
    TopEdge(s);
    var n := |s.path|;
    var p, top, u, c := s.path[n - 2], s.path[n - 1], s.word[..n - 1], s.word[n - 2];
    var g' := MergeTop(s, m).g;
    AlongPath(s, n - 1);
    LastEdgeLeads(s.g, s.path, s.word, s.registered, m);
    assert Leads(g', s.path[0], u, m);
    if Leads(g', s.path[0], a, r) {
      var x := RedirectLeadsBack(s.g, p, c, m, s.path[0], a, r);
      if x == top { ToPath(s, n - 1, a); }
      MergeKeepsSane(s, m);
      PathOrFrozen(g', s.path[..n - 1], s.word, s.registered, 0, a, r);
      assert r != top;
    }
    if r != top && Leads(s.g, s.path[0], a, r) {
      RedirectLeads(s.g, p, c, m, s.path[0], a, r);
    }
  }

  lemma MergeKeepsSpelled(s: State, m: TokenSet)
    requires Sane(s) && |s.path| >= 2 && m in s.registered && Twins(s.g, m, s.path[|s.path| - 1])
    requires MadeIsSpelled(s)
    ensures |s.path| <= |s.word| + 1 && s.path[|s.path| - 2] in s.g && MadeIsSpelled(MergeTop(s, m))
  {
    hide Sane, To, Twins;
    Facts(s);
    var n := |s.path|;
    MergeLeads(s, m, "", m);
    var s' := MergeTop(s, m);
    AlongPath(s, n - 1);
    forall k | 0 <= k < |s.made| ensures Spelled(s', s'.made[k]) {
      assert Spelled(s, s.made[k]);
      var x :| x in s.g && To(s, s.made[k], x);
      MergeLeads(s, m, s.made[k], x);
      if x == s.path[n - 1] {
        ToPath(s, n - 1, s.made[k]);
        MergeLeads(s, m, s.made[k], m);
      }
    }
    forall a, r | r in s'.g && To(s', a, r) ensures a in s.made {
      MergeLeads(s, m, a, r);
    }
  }

  lemma TwinsDoNotMeet(s: State, m: TokenSet, y: string)
    requires Sane(s) && |s.path| >= 2 && m in s.registered && Twins(s.g, m, s.path[|s.path| - 1])
    ensures !Leads(s.g, s.path[|s.path| - 1], y, m)
  {
    hide KeyOf, Live, Registry, AllLive;
    var top := s.path[|s.path| - 1];
    Facts(s);
    if Leads(s.g, top, y, m) {
      assert y != "" && Leads(s.g, m, y, m);
      var k :| 0 <= k < |s.registered| && s.registered[k] == m;
      FrozenLeads(s.g, s.registered, k, y, m);
      assert false;
    }
  }

  /** The top node was made behind the first prefix that leads to its twin. */
  lemma TwinIsEarlier(s: State, m: TokenSet)
    requires Sane(s) && |s.path| >= 2 && m in s.registered && Twins(s.g, m, s.path[|s.path| - 1])
    requires |s.path| <= |s.word| + 1 && Opened(s, |s.path| - 1) && IsFirst(s, m)
    ensures Index(s, m) < Index(s, s.path[|s.path| - 1])
  {
    hide Sane, Leads, Twins;
    Facts(s);
    var n := |s.path|;
    var k, j := Index(s, s.path[n - 1]), Index(s, m);
    AlongPath(s, n - 1);
    if j == k {
      ToUnique(s, s.made[j], m, s.path[n - 1]);
    } else if j > k {
      var u, v := s.word[..n - 1], s.made[j];
      var y := v[|u|..];
      assert v == u + y;
      var top := LeadsSplit(s.g, s.path[0], u, y, m);
      LeadsUnique(s.g, s.path[0], u, top, s.path[n - 1]);
      TwinsDoNotMeet(s, m, y);
    }
  }

  lemma MergeKeepsFirst(s: State, m: TokenSet, r: TokenSet)
    requires Sane(s) && |s.path| >= 2 && m in s.registered && Twins(s.g, m, s.path[|s.path| - 1])
    requires Enumeration.NoRepeats(s.made) && |s.path| <= |s.word| + 1 && Opened(s, |s.path| - 1)
    requires r in s.registered && IsFirst(s, r)
    ensures s.path[|s.path| - 2] in s.g && IsFirst(MergeTop(s, m), r)
  {
    hide Sane, To, Twins;
    Facts(s);
    var n, j := |s.path|, Index(s, r);
    MergeLeads(s, m, s.made[j], r);
    var s' := MergeTop(s, m);
    if r == m { TwinIsEarlier(s, m); }
    forall t | 0 <= t < j ensures !To(s', s.made[t], r) {
      MergeLeads(s, m, s.made[t], r);
    }
  }

  lemma MergeKeepsNumbered(s: State, m: TokenSet)
    requires Sane(s) && |s.path| >= 2 && m in s.registered && Twins(s.g, m, s.path[|s.path| - 1])
    requires |s.path| <= |s.word| + 1 && Numbered(s)
    ensures s.path[|s.path| - 2] in s.g && Numbered(MergeTop(s, m))
  {
    hide Sane, To, Twins, MadeIsSpelled, IsFirst;
    Facts(s);
    MergeKeepsSpelled(s, m);
    assert Opened(s, |s.path| - 1);
    var s' := MergeTop(s, m);
    forall i | 0 <= i < |s'.path| ensures Opened(s', i) { assert Opened(s, i); }
    forall r | r in s.registered ensures IsFirst(s', r) { MergeKeepsFirst(s, m, r); }
  }

  // ---------------------------------------------------------------- the other changes

  lemma TopIsFirst(s: State)
    requires Sane(s) && |s.path| >= 2 && |s.path| <= |s.word| + 1
    requires Enumeration.NoRepeats(s.made) && Opened(s, |s.path| - 1)
    ensures IsFirst(s, s.path[|s.path| - 1])
  {
    hide Sane, To;
    var n := |s.path|;
    AlongPath(s, n - 1);
    forall t | 0 <= t < Index(s, s.path[n - 1]) ensures !To(s, s.made[t], s.path[n - 1]) {
      if To(s, s.made[t], s.path[n - 1]) { ToPath(s, n - 1, s.made[t]); }
    }
  }

  lemma RegisterKeepsNumbered(s: State)
    requires Sane(s) && |s.path| >= 2 && |s.path| <= |s.word| + 1 && s.path[|s.path| - 1] in s.g && Numbered(s)
    ensures Numbered(RegisterTop(s))
  {
    hide Sane, Leads, KeyOf;
    var s', n := RegisterTop(s), |s.path|;
    assert s'.path[0] == s.path[0] && Opened(s, n - 1);
    TopIsFirst(s);
    forall i | 0 <= i < |s'.path| ensures Opened(s', i) { assert Opened(s, i); }
    forall r | r in s'.registered ensures IsFirst(s', r) {
      assert r in s.registered || r == s.path[n - 1];
      assert IsFirst(s, r);
    }
    forall k | 0 <= k < |s'.made| ensures Spelled(s', s'.made[k]) { SameSpelled(s, s', s.made[k]); }
  }

  /** Two states in which the same words lead to the same nodes. */
  ghost predicate SameWalks(s: State, s': State) {
    && s.path != [] && s'.path != [] && s'.path[0] == s.path[0] && s'.g.Keys == s.g.Keys
    && forall a, n :: n in s.g ==> (To(s', a, n) <==> To(s, a, n))
  }

  lemma SameSpelled(s: State, s': State, a: string)
    requires SameWalks(s, s') && Spelled(s, a)
    ensures Spelled(s', a)
  {
    hide To;
    var x :| x in s.g && To(s, a, x);
    assert To(s', a, x);
  }

  lemma WalksKeepNumbered(s: State, s': State)
    requires 1 <= |s.path| <= |s.word| + 1 && 1 <= |s'.path| <= |s'.word| + 1
    requires Numbered(s) && SameWalks(s, s') && s'.made == s.made && s'.index == s.index
    requires s'.registered == s.registered && s'.path == s.path
    requires s'.word[..|s.path| - 1] == s.word[..|s.path| - 1] && forall r :: r in s.registered ==> r in s.g
    ensures Numbered(s')
  {
    hide To;
    forall i | 0 <= i < |s.path| ensures Opened(s', i) {
      assert s'.word[..i] == s'.word[..|s.path| - 1][..i] == s.word[..|s.path| - 1][..i] == s.word[..i];
      assert Opened(s, i);
    }
    forall r | r in s.registered ensures IsFirst(s', r) { assert IsFirst(s, r); }
    forall k | 0 <= k < |s'.made| ensures Spelled(s', s'.made[k]) { SameSpelled(s, s', s.made[k]); }
  }

  lemma RelabelKeepsNumbered(s: State, word: string)
    requires Sane(s) && |s.path| <= |s.word| + 1 && Numbered(s)
    requires |s.path| - 1 <= |word| && word[..|s.path| - 1] == s.word[..|s.path| - 1]
    ensures Numbered(s.(word := word))
  {
    hide Sane, Numbered, Leads;
    Facts(s);
    WalksKeepNumbered(s, s.(word := word));
  }

  lemma FinalKeepsNumbered(s: State)
    requires Sane(s) && |s.path| == |s.word| + 1 && Numbered(s) && s.path[|s.path| - 1] in s.g
    ensures Numbered(MakeFinal(s))
  {
    hide Leads, Sane, Numbered;
    Facts(s);
    var s' := MakeFinal(s);
    assert forall n :: n in s.g ==> s'.g[n].edges == s.g[n].edges;
    forall a, n | n in s.g ensures To(s', a, n) <==> To(s, a, n) {
      if To(s, a, n) { LeadsStays(s.g, s'.g, s.path[0], a, n); }
      if To(s', a, n) { LeadsStays(s'.g, s.g, s.path[0], a, n); }
    }
    WalksKeepNumbered(s, s');
  }

  /** Where words lead after a leaf was hung below the end of the path. */
  lemma ExtendLeads(s: State, leaf: TokenSet, a: string, n: TokenSet)
    requires Sane(s) && CanExtend(s, leaf)
    ensures Extend(s, leaf).g.Keys == s.g.Keys + {leaf}
    ensures To(Extend(s, leaf), a, n) <==> To(s, a, n) || (n == leaf && a == s.word[..|s.path|])
  {
    hide KeyOf, Live, Leads, Registry, AllLive;
    var s', last, c := Extend(s, leaf), s.path[|s.path| - 1], s.word[|s.path| - 1];
    Facts(s);
    ExtendKeepsSane(s, leaf);
    AlongPath(s', |s.path|);
    if To(s, a, n) { LeadsStays(s.g, s'.g, s.path[0], a, n); }
    if To(s', a, n) {
      if n == leaf { ToPath(s', |s.path|, a); } else { LeafLeadsBack(s.g, last, c, leaf, s.path[0], a, n); }
    }
  }

  /** The new prefix led nowhere before. */
  lemma NewIsNotSpelled(s: State, leaf: TokenSet)
    requires Sane(s) && CanExtend(s, leaf) && MadeIsSpelled(s)
    ensures s.word[..|s.path|] !in s.made
  {
    hide Sane, To, Extend, CanExtend;
    LeafIsNew(s, leaf);
    var u := s.word[..|s.path|];
    if k :| 0 <= k < |s.made| && s.made[k] == u {
      assert Spelled(s, s.made[k]);
      var x :| x in s.g && To(s, u, x);
      ExtendLeads(s, leaf, u, x);
      ExtendLeads(s, leaf, u, leaf);
      ToUnique(Extend(s, leaf), u, x, leaf);
    }
  }

  lemma LeafIsNew(s: State, leaf: TokenSet)
    requires CanExtend(s, leaf)
    ensures leaf !in s.g && 1 <= |s.path| <= |s.word| && s.path[|s.path| - 1] in s.g
    ensures Extend(s, leaf).path == s.path + [leaf] && Extend(s, leaf).made == s.made + [s.word[..|s.path|]]
    ensures Extend(s, leaf).word == s.word && Extend(s, leaf).registered == s.registered
    ensures Extend(s, leaf).index == s.index[leaf := |s.made|]
  {
  }

  lemma ExtendKeepsSpelled(s: State, leaf: TokenSet)
    requires Sane(s) && CanExtend(s, leaf) && MadeIsSpelled(s)
    ensures Extend(s, leaf).path != [] && MadeIsSpelled(Extend(s, leaf))
  {
    hide Sane, Leads, Extend, CanExtend;
    LeafIsNew(s, leaf);
    var s' := Extend(s, leaf);
    ExtendLeads(s, leaf, s.word[..|s.path|], leaf);
    forall k | 0 <= k < |s'.made| ensures Spelled(s', s'.made[k]) {
      if k < |s.made| {
        assert Spelled(s, s.made[k]);
        var x :| x in s.g && To(s, s.made[k], x);
        ExtendLeads(s, leaf, s.made[k], x);
      }
    }
    forall a, n | n in s'.g && To(s', a, n) ensures a in s'.made {
      ExtendLeads(s, leaf, a, n);
    }
  }

  lemma ExtendKeepsNumbered(s: State, leaf: TokenSet)
    requires Sane(s) && CanExtend(s, leaf) && Numbered(s)
    ensures 1 <= |Extend(s, leaf).path| <= |s.word| + 1 && Extend(s, leaf).word == s.word && Numbered(Extend(s, leaf))
  {
    hide Sane, To, Extend, CanExtend, MadeIsSpelled;
    LeafIsNew(s, leaf);
    Facts(s);
    var s' := Extend(s, leaf);
    NewIsNotSpelled(s, leaf);
    ExtendKeepsSpelled(s, leaf);
    forall i | 0 <= i < |s'.path| ensures Opened(s', i) {
      if i < |s.path| {
        assert Opened(s, i);
        assert s.word[..i] <= s.word[..|s.path|];
      }
    }
    forall r | r in s'.registered ensures IsFirst(s', r) {
      assert IsFirst(s, r) && r in s.g && r != leaf;
      ExtendLeads(s, leaf, s.made[Index(s, r)], r);
      forall t | 0 <= t < Index(s, r) ensures !To(s', s'.made[t], r) { ExtendLeads(s, leaf, s.made[t], r); }
    }
  }
}
