/** The builder's invariant: what it makes is right, and numbered as foretold, as long as only
    twins were merged; once others were, it can neither be mended by later words nor can the
    list be one whose keys tell its nodes apart. */
module BuilderExact {
  import opened TokenGraph
  import opened Minimization
  import opened TokenSets
  import opened BuilderTheory
  import opened BuilderNumbers
  import opened BuilderKeys
  import Numbering

  /** Whatever words follow, the finished list has keys that do not tell its nodes apart. */
  ghost predicate Doomed(s: State)
    requires s.path != []
  {
    forall goal, ps :: Future(s, |s.path|, goal, ps) ==> !Numbering.Apart(goal, ps, s.path[0].id)
  }

  /** u has left the path along an edge that will not change any more. */
  ghost predicate Off(s: State, u: string) {
    exists j :: 0 <= j < |u| && LeavesAt(s, u, j)
  }

  ghost predicate LeavesAt(s: State, u: string, j: nat)
    requires j < |u|
  {
    && j < |s.path| && j <= |s.word| && s.path[j] in s.g && u[..j] == s.word[..j] && u[j] in s.g[s.path[j]].edges
    && (j + 1 < |s.path| && j < |s.word| ==> u[j] != s.word[j])
  }

  /** t was right for u, but gave way to another node with its key. */
  ghost predicate LostAt(s: State, u: string, t: TokenSet) {
    && u != "" && Off(s, u)
    && t in s.g && t !in s.path && t !in s.registered && Live(s.g, t)
    && (forall c :: c in s.g[t].edges ==> s.g[t].edges[c] in s.registered)
    && Displaced(s, t)
    && (forall x :: Accepts(s.g, t, x) <==> u + x in s.words)
  }

  ghost predicate Displaced(s: State, t: TokenSet)
    requires t in s.g
  {
    var key := KeyOf(s.g[t]);
    key in s.minimized && s.minimized[key] in s.g && s.g[s.minimized[key]] != s.g[t]
  }

  ghost predicate Lost(s: State) {
    exists u, t :: t in s.g && LostAt(s, u, t)
  }

  ghost predicate Exact(s: State)
    requires Sane(s)
  {
    && (s.clean ==> AcceptsWords(s) && Numbered(s))
    && (!s.clean ==> Lost(s) && (InStep(s) ==> Doomed(s)))
  }

  // ---------------------------------------------------------------- once lost, always lost

  /** What must not change for t to stay lost. */
  lemma LostStays(s: State, s': State, u: string, t: TokenSet)
    requires Sane(s) && LostAt(s, u, t) && Off(s', u)
    requires forall r :: r in s.registered || r == t ==> r in s.g && r in s'.g && s'.g[r] == s.g[r]
    requires t !in s'.path && t !in s'.registered && forall r :: r in s.registered ==> r in s'.registered
    requires forall key :: key in s.minimized ==> key in s'.minimized && s'.minimized[key] == s.minimized[key]
    requires forall x :: u + x in s'.words <==> u + x in s.words
    ensures Lost(s')
  {
    hide Sane, Accepts, Off, Displaced;
    forall x ensures Accepts(s'.g, t, x) <==> Accepts(s.g, t, x) { DisplacedAccepts(s, s', t, x); }
    var x :| Accepts(s.g, t, x);
    assert Accepts(s'.g, t, x);
    DisplacedStays(s, s', t);
    assert LostAt(s', u, t);
  }

  lemma DisplacedStays(s: State, s': State, t: TokenSet)
    requires Sane(s) && t in s.g && Displaced(s, t)
    requires forall r :: r in s.registered || r == t ==> r in s.g && r in s'.g && s'.g[r] == s.g[r]
    requires forall key :: key in s.minimized ==> key in s'.minimized && s'.minimized[key] == s.minimized[key]
    ensures Displaced(s', t)
  {
    hide KeyOf, Live, Shape;
  }

  lemma DisplacedAccepts(s: State, s': State, t: TokenSet, x: string)
    requires Sane(s) && t in s.g && forall c :: c in s.g[t].edges ==> s.g[t].edges[c] in s.registered
    requires forall r :: r in s.registered || r == t ==> r in s.g && r in s'.g && s'.g[r] == s.g[r]
    ensures Accepts(s'.g, t, x) <==> Accepts(s.g, t, x)
  {
    hide KeyOf, Live;
    if x != "" && x[0] in s.g[t].edges {
      FrozenUntouched(s.g, s'.g, s.registered, s.g[t].edges[x[0]], x[1..]);
    }
  }

  /** A prefix that has left the path stays off when the path gets shorter... */
  lemma OffShorter(s: State, s': State, u: string)
    requires Sane(s) && Off(s, u) && |s.path| >= 2 && s'.path == s.path[..|s.path| - 1] && s'.word == s.word
    requires forall n :: n in s'.path ==> n in s.g && n in s'.g && s'.g[n].edges.Keys == s.g[n].edges.Keys
    ensures Off(s', u)
  {
    hide KeyOf, Live, Registry, AllLive;
    var j :| 0 <= j < |u| && LeavesAt(s, u, j);
    TopEdge(s);
    if j == |s.path| - 1 {
      assert u[..j - 1] == u[..j][..j - 1] == s.word[..j][..j - 1] == s.word[..j - 1];
      assert u[j - 1] == u[..j][j - 1] == s.word[..j][j - 1] == s.word[j - 1];
      assert s'.path[j - 1] in s'.path;
      assert LeavesAt(s', u, j - 1);
    } else {
      assert s'.path[j] in s'.path;
      assert LeavesAt(s', u, j);
    }
  }

  /** ...when it goes on... */
  lemma OffLonger(s: State, leaf: TokenSet, u: string)
    requires Sane(s) && CanExtend(s, leaf) && Off(s, u)
    ensures Off(Extend(s, leaf), u)
  {
    hide KeyOf, Live, Registry, AllLive;
    var j :| 0 <= j < |u| && LeavesAt(s, u, j);
    Facts(s);
    assert LeavesAt(Extend(s, leaf), u, j);
  }

  /** ...and for the next word. */
  lemma OffRelabelled(s: State, word: string, u: string)
    requires Sane(s) && Off(s, u)
    requires |s.path| - 1 <= |word| && word[..|s.path| - 1] == s.word[..|s.path| - 1]
    ensures Off(s.(word := word), u)
  {
    hide KeyOf, Live, Registry, AllLive;
    var j :| 0 <= j < |u| && LeavesAt(s, u, j);
    Facts(s);
    assert forall i :: 0 <= i < |s.path| - 1 ==>
        word[i] == word[..|s.path| - 1][i] == s.word[..|s.path| - 1][i] == s.word[i];
    assert LeavesAt(s.(word := word), u, j);
  }

  /** The word that the whole path spells does not continue it. */
  lemma OffIsNotWord(s: State, u: string, x: string)
    requires Off(s, u) && |s.path| == |s.word| + 1
    ensures u + x != s.word
  {
    var j :| 0 <= j < |u| && LeavesAt(s, u, j);
    assert (u + x)[j] == u[j];
  }

  // ---------------------------------------------------------------- the steps

  /** A word that may still come after a change could come before it. */
  lemma FutureBefore(s: State, depth: nat, s': State, depth': nat, goal: set<string>, ps: seq<string>)
    requires Future(s', depth', goal, ps) && s.words <= s'.words && s.made <= s'.made
    requires forall w :: w in s'.words && w !in s.words ==> w == s'.word
    requires forall a :: a in s.made && Open(s', depth', a) ==> Open(s, depth, a)
    requires forall a :: a in s.made && s'.word !in s.words && s'.word in s'.words && a <= s'.word ==> Open(s, depth, a)
    ensures Future(s, depth, goal, ps)
  {
    hide Open;
  }

  /** The path has lost its top. */
  ghost predicate Shortened(s: State, s': State) {
    && |s.path| >= 2 && s'.path == s.path[..|s.path| - 1] && s'.word == s.word
    && s'.words == s.words && s'.made == s.made
  }

  lemma ShortenedFuture(s: State, s': State, goal: set<string>, ps: seq<string>)
    requires Shortened(s, s') && Future(s', |s'.path|, goal, ps)
    ensures Future(s, |s.path|, goal, ps) && Future(s, |s.path| - 1, goal, ps)
  {
    FutureBefore(s, |s.path| - 1, s', |s'.path|, goal, ps);
    FutureBefore(s, |s.path|, s', |s'.path|, goal, ps);
  }

  lemma MergeKeepsLost(s: State, m: TokenSet)
    requires Sane(s) && |s.path| >= 2 && m in s.registered && Lost(s)
    ensures |s.path| <= |s.word| + 1 && s.path[|s.path| - 2] in s.g && Lost(MergeTop(s, m))
  {
    hide KeyOf, Live, Accepts, Registry, AllLive, Off;
    Facts(s);
    TopEdge(s);
    var s' := MergeTop(s, m);
    var p := s.path[|s.path| - 2];
    assert s'.g[p].edges.Keys == s.g[p].edges.Keys && forall n :: n in s.g && n != p ==> s'.g[n] == s.g[n];
    var u, t :| t in s.g && LostAt(s, u, t);
    OffShorter(s, s', u);
    LostStays(s, s', u, t);
  }

  lemma RegisterKeepsLost(s: State)
    requires Sane(s) && |s.path| >= 2 && s.path[|s.path| - 1] in s.g && Lost(s)
    requires KeyOf(s.g[s.path[|s.path| - 1]]) !in s.minimized
    ensures Lost(RegisterTop(s))
  {
    hide KeyOf, Live, Accepts, Registry, AllLive, Off, Displaced;
    Facts(s);
    var u, t :| t in s.g && LostAt(s, u, t);
    OffShorter(s, RegisterTop(s), u);
    LostStays(s, RegisterTop(s), u, t);
  }

  lemma ExtendKeepsLost(s: State, leaf: TokenSet)
    requires Sane(s) && CanExtend(s, leaf) && Lost(s)
    ensures Lost(Extend(s, leaf))
  {
    hide KeyOf, Live, Accepts, Registry, AllLive, Off, Displaced, Shape;
    Facts(s);
    var u, t :| t in s.g && LostAt(s, u, t);
    OffLonger(s, leaf, u);
    LostStays(s, Extend(s, leaf), u, t);
  }

  lemma RelabelKeepsLost(s: State, word: string)
    requires Sane(s) && Lost(s)
    requires |s.path| - 1 <= |word| && word[..|s.path| - 1] == s.word[..|s.path| - 1]
    ensures Lost(s.(word := word))
  {
    hide KeyOf, Live, Accepts, Registry, AllLive, Off, Displaced, Shape;
    Facts(s);
    var u, t :| t in s.g && LostAt(s, u, t);
    OffRelabelled(s, word, u);
    LostStays(s, s.(word := word), u, t);
  }

  lemma FinalKeepsLost(s: State)
    requires Sane(s) && |s.path| == |s.word| + 1 && s.path[|s.path| - 1] in s.g && Lost(s)
    ensures Lost(MakeFinal(s))
  {
    hide KeyOf, Live, Accepts, Registry, AllLive, Displaced, Shape;
    Facts(s);
    var s' := MakeFinal(s);
    var u, t :| t in s.g && LostAt(s, u, t);
    var j :| 0 <= j < |u| && LeavesAt(s, u, j);
    assert s'.g[s.path[j]].edges == s.g[s.path[j]].edges && LeavesAt(s', u, j);
    forall x ensures u + x in s'.words <==> u + x in s.words { OffIsNotWord(s, u, x); }
    LostStays(s, s', u, t);
  }

  // ---------------------------------------------------------------- merging others

  /** The node that gives way to another one was right, and is lost. */
  lemma MergeLoses(s: State, m: TokenSet)
    requires Sane(s) && AcceptsWords(s) && |s.path| >= 2 && m in s.registered && TopLive(s)
    requires var top := s.path[|s.path| - 1];
             top in s.g && m in s.g && KeyOf(s.g[m]) == KeyOf(s.g[top]) && !Twins(s.g, m, top)
    ensures |s.path| <= |s.word| + 1 && s.path[|s.path| - 2] in s.g && Lost(MergeTop(s, m))
  {
    hide Sane, Accepts, Live, Off, KeyOf, Redirect;
    Facts(s);
    MergeFacts(s, m);
    TopTargets(s, m);
    var n := |s.path|;
    var s', top, u := MergeTop(s, m), s.path[n - 1], s.word[..n - 1];
    OffByMerge(s, m);
    forall x ensures Accepts(s'.g, top, x) <==> u + x in s.words {
      DisplacedAccepts(s, s', top, x);
      AlongPath(s, n - 1);
      LeadsThenAccepts(s.g, s.path[0], u, top, x);
    }
    StillLive(s, s', top);
    KeyIsTaken(s, m);
    assert LostAt(s', u, top);
  }

  lemma MergeFacts(s: State, m: TokenSet)
    requires Sane(s) && |s.path| >= 2
    ensures |s.path| <= |s.word| + 1 && s.path[|s.path| - 2] in s.g
    ensures var s', p := MergeTop(s, m), s.path[|s.path| - 2];
            && s'.g.Keys == s.g.Keys && s'.g[p].edges.Keys == s.g[p].edges.Keys && s'.words == s.words
            && (forall r :: r in s.registered || r == s.path[|s.path| - 1] ==> r in s.g && r !in s'.path)
            && (forall r :: r in s.g && r != p ==> s'.g[r] == s.g[r])
            && p !in s.registered && p != s.path[|s.path| - 1] && s.path[|s.path| - 1] !in s.registered
  {
    hide KeyOf, Live;
    TopEdge(s);
    Facts(s);
  }

  lemma OffByMerge(s: State, m: TokenSet)
    requires Sane(s) && |s.path| >= 2
    ensures |s.path| <= |s.word| + 1 && s.path[|s.path| - 2] in s.g && Off(MergeTop(s, m), s.word[..|s.path| - 1])
  {
    hide Sane;
    TopEdge(s);
    var n := |s.path|;
    var u := s.word[..n - 1];
    assert u[..n - 2] == s.word[..n - 2] && u[n - 2] == s.word[n - 2];
    assert LeavesAt(MergeTop(s, m), u, n - 2);
  }

  lemma StillLive(s: State, s': State, t: TokenSet)
    requires Live(s.g, t) && t in s.g && Sane(s) && forall c :: c in s.g[t].edges ==> s.g[t].edges[c] in s.registered
    requires forall r :: r in s.registered || r == t ==> r in s.g && r in s'.g && s'.g[r] == s.g[r]
    ensures Live(s'.g, t)
  {
    hide Sane, Accepts;
    var x :| Accepts(s.g, t, x);
    DisplacedAccepts(s, s', t, x);
  }

  lemma KeyIsTaken(s: State, m: TokenSet)
    requires Sane(s) && m in s.registered && m in s.g
    ensures KeyOf(s.g[m]) in s.minimized && s.minimized[KeyOf(s.g[m])] == m
  {
    hide KeyOf, Live, Shape;
  }

  // ---------------------------------------------------------------- the invariant

  lemma MergeKeepsExact(s: State, m: TokenSet)
    requires Sane(s) && Exact(s) && |s.path| >= 2 && m in s.registered && TopLive(s)
    requires var top := s.path[|s.path| - 1]; top in s.g && m in s.g && KeyOf(s.g[m]) == KeyOf(s.g[top])
    ensures |s.path| <= |s.word| + 1 && s.path[|s.path| - 2] in s.g
    ensures Sane(MergeTop(s, m)) && Exact(MergeTop(s, m)) && TopLive(MergeTop(s, m))
  {
    hide KeyOf, Accepts, Live, Shape, Registry, AllLive, Numbered, Lost, Twins, Numbering.Apart, Future;
    MergeKeepsSane(s, m);
    var s', top := MergeTop(s, m), s.path[|s.path| - 1];
    if s'.clean {
      forall w ensures Accepts(s'.g, s.path[0], w) <==> w in s.words { MergeSilent(s, m, w); }
      MergeKeepsNumbered(s, m);
    } else {
      if s.clean { MergeLoses(s, m); } else { MergeKeepsLost(s, m); }
      forall goal, ps | InStep(s') && Future(s', |s'.path|, goal, ps) ensures !Numbering.Apart(goal, ps, s.path[0].id) {
        ShortenedFuture(s, s', goal, ps);
        if s.clean { MergeOfOthers(s, m, goal, ps); }
      }
    }
  }

  lemma RegisterKeepsExact(s: State)
    requires Sane(s) && TopLive(s) && Exact(s) && |s.path| >= 2 && s.path[|s.path| - 1] in s.g
    requires KeyOf(s.g[s.path[|s.path| - 1]]) !in s.minimized
    ensures Sane(RegisterTop(s)) && Exact(RegisterTop(s)) && TopLive(RegisterTop(s))
  {
    hide KeyOf, Accepts, Live, Shape, Registry, AllLive, Numbered, Lost, Numbering.Apart, Future;
    RegisterKeepsSane(s);
    Facts(s);
    var s' := RegisterTop(s);
    if s.clean {
      RegisterKeepsNumbered(s);
    } else {
      RegisterKeepsLost(s);
      forall goal, ps | InStep(s') && Future(s', |s'.path|, goal, ps) ensures !Numbering.Apart(goal, ps, s.path[0].id) {
        ShortenedFuture(s, s', goal, ps);
      }
    }
  }

  lemma RelabelKeepsExact(s: State, word: string)
    requires Sane(s) && Exact(s)
    requires |s.path| - 1 <= |word| && word[..|s.path| - 1] == s.word[..|s.path| - 1]
    requires var k := |s.path| - 1; k == |s.word| || (k < |word| && s.word[k] < word[k])
    ensures Sane(s.(word := word)) && Exact(s.(word := word))
    ensures s.path[|s.path| - 1] in s.g
    ensures |s.path| <= |word| ==> LabelsBelow(s.g[s.path[|s.path| - 1]].edges, word[|s.path| - 1])
  {
    hide KeyOf, Accepts, Live, Numbered, Lost, Numbering.Apart, Future;
    ShapeRelabel(s.g, s.path, s.word, word, s.registered);
    var s' := s.(word := word);
    if s.clean {
      RelabelKeepsNumbered(s, word);
    } else {
      RelabelKeepsLost(s, word);
      forall goal, ps | InStep(s') && Future(s', |s.path|, goal, ps) ensures !Numbering.Apart(goal, ps, s.path[0].id) {
        RelabelledFuture(s, word, goal, ps);
      }
    }
  }

  lemma RelabelledFuture(s: State, word: string, goal: set<string>, ps: seq<string>)
    requires 1 <= |s.path| <= |s.word| + 1 && |s.path| - 1 <= |word| && word[..|s.path| - 1] == s.word[..|s.path| - 1]
    requires Future(s.(word := word), |s.path|, goal, ps)
    ensures Future(s, |s.path|, goal, ps)
  {
    forall a | Open(s.(word := word), |s.path|, a) ensures Open(s, |s.path|, a) {
      var i :| 0 <= i < |s.path| && i <= |word| && a == word[..i];
      assert word[..i] == word[..|s.path| - 1][..i] == s.word[..|s.path| - 1][..i] == s.word[..i];
    }
  }

  lemma ExtendKeepsExact(s: State, leaf: TokenSet)
    requires Sane(s) && Exact(s) && CanExtend(s, leaf)
    ensures Sane(Extend(s, leaf)) && Exact(Extend(s, leaf))
  {
    hide KeyOf, Accepts, Live, Shape, Registry, AllLive, Numbered, Lost, Numbering.Apart, Future, CanExtend;
    ExtendKeepsSane(s, leaf);
    LeafIsNew(s, leaf);
    var s' := Extend(s, leaf);
    assert s'.path[0] == s.path[0] && s'.clean == s.clean && s'.words == s.words;
    if s.clean {
      forall w ensures Accepts(s'.g, s.path[0], w) <==> w in s.words { ExtendSilent(s, leaf, w); }
      ExtendKeepsNumbered(s, leaf);
    } else {
      ExtendKeepsLost(s, leaf);
      forall goal, ps | InStep(s') && Future(s', |s'.path|, goal, ps) ensures !Numbering.Apart(goal, ps, s.path[0].id) {
        ExtendedFuture(s, leaf, goal, ps);
      }
    }
  }

  lemma ExtendedFuture(s: State, leaf: TokenSet, goal: set<string>, ps: seq<string>)
    requires CanExtend(s, leaf) && Future(Extend(s, leaf), |s.path| + 1, goal, ps)
    ensures Future(s, |s.path|, goal, ps)
  {
    hide CanExtend, Numbering.OnlyPrefixes;
    LeafIsNew(s, leaf);
    var s' := Extend(s, leaf);
    assert s'.words == s.words && ps[|s.made|] == s.word[..|s.path|];
    forall a | a in s.made && Open(s', |s.path| + 1, a) ensures Open(s, |s.path|, a) {
      var k :| 0 <= k < |s.made| && s.made[k] == a;
      assert ps[k] == a;
      var i :| 0 <= i < |s.path| + 1 && i <= |s.word| && a == s.word[..i];
      assert i != |s.path|;
    }
  }

  lemma FinalKeepsExact(s: State)
    requires Sane(s) && Exact(s) && |s.path| == |s.word| + 1
    ensures Sane(MakeFinal(s)) && Exact(MakeFinal(s)) && TopLive(MakeFinal(s))
  {
    hide KeyOf, Live, Accepts, Numbered, Lost, Registry, Numbering.Apart, Future;
    FinalKeepsSane(s);
    var s' := MakeFinal(s);
    if s.clean {
      forall w ensures Accepts(s'.g, s.path[0], w) <==> w in s'.words {
        FinalAddsWord(s.g, s.path, s.word, s.registered, 0, w);
        assert s.word[0..] == s.word;
      }
      FinalKeepsNumbered(s);
    } else {
      FinalKeepsLost(s);
      forall goal, ps | InStep(s') && Future(s', |s.path|, goal, ps) ensures !Numbering.Apart(goal, ps, s.path[0].id) {
        FinalFuture(s, goal, ps);
      }
    }
  }

  lemma FinalFuture(s: State, goal: set<string>, ps: seq<string>)
    requires |s.path| == |s.word| + 1 && s.path[|s.path| - 1] in s.g && Future(MakeFinal(s), |s.path|, goal, ps)
    ensures Future(s, |s.path|, goal, ps)
  {
    forall a | a <= s.word ensures Open(s, |s.path|, a) { assert a == s.word[..|a|]; }
    FutureBefore(s, |s.path|, MakeFinal(s), |s.path|, goal, ps);
  }
}
