/** lunr.TokenSet.Builder and TokenSet.fromArray. */
module TokenSetBuilder {
  import opened TokenGraph
  import opened TokenSets
  import opened BuilderTheory
  import opened BuilderNumbers
  import opened BuilderKeys
  import opened BuilderExact
  import opened BuilderFinish
  import opened Numbering
  import Minimization
  import Enumeration

  datatype Unchecked = Unchecked(parent: TokenSet, ch: char, child: TokenSet)

  /** The stack lists the edges of the path. */
  ghost predicate StackSpells(root: TokenSet, stack: seq<Unchecked>, path: seq<TokenSet>, word: string) {
    && 1 <= |path| && path[0] == root
    && |stack| == |path| - 1 <= |word|
    && forall i :: 0 <= i < |stack| ==> stack[i] == Unchecked(path[i], word[i], path[i + 1])
  }

  /** A cached key is the node's key; nodes that may still change have none. */
  ghost predicate CachesTrue(nodes: set<TokenSet>, s: State)
    reads nodes`str
  {
    && (forall n :: n in nodes ==> n.str == "" || (n in s.g && n.str == KeyOf(s.g[n])))
    && (forall i :: 0 <= i < |s.path| && s.path[i] in nodes ==> s.path[i].str == "")
  }

  lemma CachesExtend(nodes: set<TokenSet>, s: State, next: TokenSet)
    requires CachesTrue(nodes, s) && CanExtend(s, next) && next.str == "" && nodes == s.g.Keys
    ensures CachesTrue(nodes + {next}, Extend(s, next))
  {
    hide KeyOf;
  }

  lemma CachesRelabel(nodes: set<TokenSet>, s: State, word: string)
    requires CachesTrue(nodes, s)
    ensures CachesTrue(nodes, s.(word := word))
  {
    hide KeyOf;
  }

  lemma CachesMerge(nodes: set<TokenSet>, s: State, m: TokenSet)
    requires Sane(s) && CachesTrue(nodes, s) && |s.path| >= 2 && nodes == s.g.Keys
    requires |s.path| <= |s.word| + 1 && s.path[|s.path| - 2] in s.g
    ensures CachesTrue(nodes, MergeTop(s, m))
  {
    hide KeyOf, Minimization.Shape, Registry;
  }

  lemma CachesFinal(nodes: set<TokenSet>, s: State)
    requires CachesTrue(nodes, s) && s.path != [] && s.path[|s.path| - 1] in s.g && nodes == s.g.Keys
    ensures CachesTrue(nodes, MakeFinal(s))
  {
    hide KeyOf;
  }

  lemma StackGrows(root: TokenSet, stack: seq<Unchecked>, path: seq<TokenSet>, word: string, next: TokenSet)
    requires StackSpells(root, stack, path, word) && |path| <= |word|
    ensures StackSpells(root, stack + [Unchecked(path[|path| - 1], word[|path| - 1], next)], path + [next], word)
  {
  }

  lemma StackTop(root: TokenSet, stack: seq<Unchecked>, path: seq<TokenSet>, word: string)
    requires StackSpells(root, stack, path, word)
    ensures path != [] && path[|path| - 1] == if stack == [] then root else stack[|stack| - 1].child
  {
  }

  lemma StackRelabels(root: TokenSet, stack: seq<Unchecked>, path: seq<TokenSet>, prev: string, word: string)
    requires StackSpells(root, stack, path, prev)
    requires |path| - 1 <= |word| && word[..|path| - 1] == prev[..|path| - 1]
    ensures StackSpells(root, stack, path, word)
  {
    forall i | 0 <= i < |stack| ensures word[i] == prev[i] {
      assert word[..|path| - 1][i] == prev[..|path| - 1][i];
    }
  }

  class Builder {
    var previousWord: string
    const root: TokenSet
    var uncheckedNodes: seq<Unchecked>
    var minimizedNodes: map<string, TokenSet>
    const ids: IdSource
    ghost var nodes: set<TokenSet>
    ghost var s: State

    /** The heap is what the state s says. */
    ghost predicate Reflects()
      reads this`uncheckedNodes, this`minimizedNodes, this`nodes, this`s, ids, nodes
    {
      && Snapshot(nodes) == s.g
      && minimizedNodes == s.minimized
      && StackSpells(root, uncheckedNodes, s.path, s.word)
      && CachesTrue(nodes, s)
      && (forall n :: n in nodes ==> n.id < ids.nextId)
    }

    /** Nothing else took an id since the root was made. */
    ghost predicate InSequence()
      reads this`s, ids
    {
      s.path != [] && InStep(s) && ids.nextId == s.path[0].id + |s.made|
    }

    ghost predicate Consistent()
      reads this`uncheckedNodes, this`minimizedNodes, this`nodes, this`s, ids, nodes
    {
      Reflects() && Sane(s)
    }

    /** Between insertions: the path spells the whole previous word. */
    ghost predicate Valid()
      reads this, ids, nodes
    {
      && Consistent() && Exact(s) && TopLive(s)
      && previousWord == s.word && |s.path| == |s.word| + 1
    }

    constructor (ids: IdSource)
      modifies ids
      ensures Valid() && s.words == {} && previousWord == "" && this.ids == ids && fresh(nodes)
      ensures s.made == Trie([]) && InSequence() && root.id == old(ids.nextId)
    {
      var r := new TokenSet(ids);
      previousWord, root, uncheckedNodes, minimizedNodes, this.ids := "", r, [], map[], ids;
      nodes := {r};
      s := State(map[r := Node(false, map[])], [r], "", [], map[], {}, [""], map[r := 0], true);
      new;
      SnapshotIs(nodes, s.g);
      StartIsExact(s, r);
    }

    /** A frozen node with the same key takes the place of the node on top of the stack. */
    method MergeTopInto(m: TokenSet)
      requires Consistent() && Exact(s) && TopLive(s) && |uncheckedNodes| > 0
      requires m in s.registered && m in s.g
      requires s.path[|s.path| - 1] in s.g && KeyOf(s.g[m]) == KeyOf(s.g[s.path[|s.path| - 1]])
      modifies this`uncheckedNodes, this`s, nodes`edges, nodes`final
      ensures Consistent() && Exact(s) && TopLive(s)
      ensures s.path == old(s.path)[..|old(s.path)| - 1] && s.word == old(s.word) && s.words == old(s.words)
      ensures s.made == old(s.made) && (old(InSequence()) ==> InSequence())
    {
      hide Sane, Exact, TopLive, KeyOf, Snapshot, CachesTrue, InStep, MergeTop;
      ghost var s0 := s;
      var top := |uncheckedNodes| - 1;
      var node := uncheckedNodes[top];
      MergeKeepsSaneAndExact(s0, m);
      MergeKeepsStep(s0, m);
      SnapshotAt(nodes, node.parent);
      CachesMerge(nodes, s0, m);
      node.parent.Set(node.parent.final, node.ch, m, nodes);
      s := MergeTop(s0, m);
      uncheckedNodes := uncheckedNodes[..top];
    }

    /** The node on top of the stack is frozen, its key cached. */
    method FreezeTop(childKey: string)
      requires Consistent() && Exact(s) && TopLive(s) && |uncheckedNodes| > 0
      requires childKey !in minimizedNodes
      requires s.path[|s.path| - 1] in s.g && childKey == KeyOf(s.g[s.path[|s.path| - 1]])
      modifies this`uncheckedNodes, this`minimizedNodes, this`s, nodes`str
      ensures Consistent() && Exact(s) && TopLive(s)
      ensures s.path == old(s.path)[..|old(s.path)| - 1] && s.word == old(s.word) && s.words == old(s.words)
      ensures s.made == old(s.made) && (old(InSequence()) ==> InSequence())
    {
      hide Sane, Exact, TopLive, KeyOf, Snapshot, InStep, RegisterTop;
      var top := |uncheckedNodes| - 1;
      var node := uncheckedNodes[top];
      TopFacts(s);
      RegisterKeepsExact(s);
      RegisterKeepsStep(s);
      node.child.str := childKey;
      minimizedNodes := minimizedNodes[childKey := node.child];
      s := RegisterTop(s);
      uncheckedNodes := uncheckedNodes[..top];
    }

    method MinimizeTop()
      requires Consistent() && Exact(s) && TopLive(s) && |uncheckedNodes| > 0
      modifies this`uncheckedNodes, this`minimizedNodes, this`s, nodes
      ensures Consistent() && Exact(s) && TopLive(s)
      ensures s.path == old(s.path)[..|old(s.path)| - 1] && s.word == old(s.word) && s.words == old(s.words)
      ensures s.made == old(s.made) && (old(InSequence()) ==> InSequence())
    {
      hide Sane, Exact, TopLive, KeyOf, Snapshot;
      TopFacts(s);
      var child := uncheckedNodes[|uncheckedNodes| - 1].child;
      var childKey := child.ToString();
      SnapshotAt(nodes, child);
      if childKey in minimizedNodes {
        MergeTopInto(minimizedNodes[childKey]);
      } else {
        FreezeTop(childKey);
      }
    }

    /** minimize: everything below the first downTo edges of the path is folded away. */
    method Minimize(downTo: nat)
      requires Consistent() && Exact(s) && TopLive(s)
      modifies this`uncheckedNodes, this`minimizedNodes, this`s, nodes
      ensures Consistent() && Exact(s) && TopLive(s)
      ensures s.path == old(s.path)[..if downTo < |old(s.path)| then downTo + 1 else |old(s.path)|]
      ensures s.word == old(s.word) && s.words == old(s.words)
      ensures s.made == old(s.made) && (old(InSequence()) ==> InSequence())
    {
      hide Sane, Exact, TopLive, KeyOf, Snapshot;
      var i := |uncheckedNodes|;
      while i > downTo
        invariant Consistent() && Exact(s) && TopLive(s)
        invariant i == |uncheckedNodes| == |s.path| - 1
        invariant i <= |old(s.path)| - 1 && (i >= downTo || i == |old(s.path)| - 1)
        invariant s.path == old(s.path)[..i + 1] && s.word == old(s.word) && s.words == old(s.words)
        invariant s.made == old(s.made) && (old(InSequence()) ==> InSequence())
      {
        MinimizeTop();
        assert old(s.path)[..i + 1][..i] == old(s.path)[..i];
        i := i - 1;
      }
    }

    function LastNode(): TokenSet
      reads this
    {
      if uncheckedNodes == [] then root else uncheckedNodes[|uncheckedNodes| - 1].child
    }

    /** A fresh node is hung below the end of the path and pushed. */
    method Hang(ch: char) returns (next: TokenSet)
      requires Consistent()
      requires 1 <= |s.path| <= |s.word| && ch == s.word[|s.path| - 1] && s.path[|s.path| - 1] in s.g
      requires LabelsBelow(s.g[s.path[|s.path| - 1]].edges, ch)
      modifies this`uncheckedNodes, this`s, this`nodes, nodes`edges, ids
      ensures CanExtend(old(s), next) && s == Extend(old(s), next) && Reflects()
      ensures fresh(next) && nodes == old(nodes) + {next}
      ensures next.id == old(ids.nextId) && ids.nextId == old(ids.nextId) + 1
    {
      hide Sane, KeyOf, Snapshot, StackSpells, Extend, CanExtend, CachesTrue, LabelsBelow;
      ghost var s0, nodes0 := s, nodes;
      StackTop(root, uncheckedNodes, s0.path, s0.word);
      var node := LastNode();
      SnapshotAt(nodes0, node);
      LastNotFrozen(s0);
      next := new TokenSet(ids);
      LeafFits(s0, ch, next);
      ghost var s1 := Extend(s0, next);
      FreshLeaf(s0, next);
      var stack := uncheckedNodes + [Unchecked(node, ch, next)];
      StackGrows(root, uncheckedNodes, s0.path, s0.word, next);
      nodes, uncheckedNodes, s := nodes0 + {next}, stack, s1;
      assert Snapshot(nodes0) == s0.g;
      node.Link(ch, next, nodes0);
      assert Snapshot(nodes) == s1.g;
      CachesExtend(nodes0, s0, next);
    }

    /** One new node at the end of the path. */
    method AddNode(ch: char)
      requires Consistent() && Exact(s)
      requires 1 <= |s.path| <= |s.word| && ch == s.word[|s.path| - 1] && s.path[|s.path| - 1] in s.g
      requires LabelsBelow(s.g[s.path[|s.path| - 1]].edges, ch)
      modifies this`uncheckedNodes, this`s, this`nodes, nodes`edges, ids
      ensures Consistent() && Exact(s) && s.word == old(s.word) && s.words == old(s.words)
      ensures |s.path| == |old(s.path)| + 1 && s.made == old(s.made) + [s.word[..|old(s.path)|]]
      ensures old(InSequence()) ==> InSequence()
      ensures s.path[|s.path| - 1] in s.g && s.g[s.path[|s.path| - 1]] == Node(false, map[])
      ensures fresh(nodes - old(nodes)) && old(nodes) <= nodes
    {
      hide Builder.Reflects, Sane, Exact, TopLive, KeyOf, Snapshot, StackSpells, Extend, CanExtend;
      ghost var s0 := s;
      var next := Hang(ch);
      ExtendKeepsExact(s0, next);
      FreshLeaf(s0, next);
      if old(InSequence()) { ExtendKeepsStep(s0, next); }
    }

    /** The path is cut back to what the new word shares with the previous one, and from
        now on spells a prefix of the new word. */
    method Branch(word: string) returns (commonPrefix: nat)
      requires Valid() && !Minimization.Before(word, previousWord)
      modifies this`uncheckedNodes, this`minimizedNodes, this`s, nodes
      ensures Consistent() && s.word == word && s.words == old(s.words) && Exact(s)
      ensures commonPrefix == Common(old(previousWord), word) && s.made == old(s.made)
      ensures old(InSequence()) ==> InSequence()
      ensures |s.path| == commonPrefix + 1 && s.path[commonPrefix] in s.g
      ensures commonPrefix < |word| ==> LabelsBelow(s.g[s.path[commonPrefix]].edges, word[commonPrefix])
    {
      hide Sane, Exact, TopLive, KeyOf, Snapshot, LabelsBelow, CachesTrue, Minimization.Before, InStep, Common;
      commonPrefix := 0;
      while commonPrefix < |word| && commonPrefix < |previousWord| && word[commonPrefix] == previousWord[commonPrefix]
        invariant commonPrefix <= |word| && commonPrefix <= |previousWord|
                    && word[..commonPrefix] == previousWord[..commonPrefix]
      {
        commonPrefix := commonPrefix + 1;
      }
      Minimization.FirstDifference(word, previousWord, commonPrefix);
      CommonIs(previousWord, word, commonPrefix);
      Minimize(commonPrefix);
      ghost var s0 := s;
      assert |s0.path| == commonPrefix + 1;
      RelabelKeepsExact(s0, word);
      StackRelabels(root, uncheckedNodes, s0.path, s0.word, word);
      CachesRelabel(nodes, s0, word);
      RelabelKeepsStep(s0, word);
      s := s0.(word := word);
    }

    /** The rest of the word hangs below the end of the path. */
    method AddSuffix(commonPrefix: nat, word: string)
      requires Consistent() && s.word == word && Exact(s)
      requires commonPrefix <= |word| && |s.path| == commonPrefix + 1 && s.path[commonPrefix] in s.g
      requires commonPrefix < |word| ==> LabelsBelow(s.g[s.path[commonPrefix]].edges, word[commonPrefix])
      modifies this`uncheckedNodes, this`s, this`nodes, nodes`edges, ids
      ensures Consistent() && s.word == word && s.words == old(s.words) && Exact(s)
      ensures |s.path| == |word| + 1 && fresh(nodes - old(nodes)) && old(nodes) <= nodes
      ensures s.made == old(s.made) + Numbering.Branch(word, commonPrefix) && (old(InSequence()) ==> InSequence())
    {
      hide Builder.Reflects, Sane, Exact, TopLive, KeyOf, Snapshot, LabelsBelow, StackSpells;
      for i := commonPrefix to |word|
        invariant Consistent() && Exact(s) && s.word == word && s.words == old(s.words)
        invariant |s.path| == i + 1 && s.path[i] in s.g
        invariant i < |word| ==> LabelsBelow(s.g[s.path[i]].edges, word[i])
        invariant fresh(nodes - old(nodes)) && old(nodes) <= nodes
        invariant s.made == old(s.made) + Numbering.Branch(word, commonPrefix)[..i - commonPrefix]
        invariant old(InSequence()) ==> InSequence()
      {
        AddNode(word[i]);
        if i + 1 < |word| { NothingBelow(word[i + 1]); }
      }
    }

    /** Builder.insert; false stands for the error thrown on a word out of order. */
    method Insert(word: string) returns (ok: bool)
      requires Valid()
      modifies this, nodes, ids
      ensures Valid() && fresh(nodes - old(nodes))
      ensures ok <==> !Minimization.Before(word, old(previousWord))
      ensures if ok then s.words == old(s.words) + {word} && previousWord == word
              else s == old(s) && previousWord == old(previousWord) && nodes == old(nodes)
      ensures ok ==> s.made == old(s.made) + Numbering.Branch(word, Common(old(previousWord), word))
      ensures old(InSequence()) ==> InSequence()
    {
      hide Builder.Reflects, Sane, Exact, TopLive, KeyOf, Snapshot, LabelsBelow, StackSpells;
      if Minimization.Before(word, previousWord) {
        return false;
      }
      var commonPrefix := Branch(word);
      AddSuffix(commonPrefix, word);
      FinishWord();
      previousWord := word;
      return true;
    }

    /** The node at the end of the path becomes final. */
    method FinishWord()
      requires Consistent() && Exact(s) && |s.path| == |s.word| + 1
      modifies this`s, nodes`final
      ensures Consistent() && TopLive(s) && s.words == old(s.words) + {s.word} && Exact(s)
      ensures s.word == old(s.word) && s.path == old(s.path) && s.made == old(s.made)
      ensures old(InSequence()) ==> InSequence()
    {
      hide Sane, Exact, TopLive, KeyOf, Snapshot, CachesTrue;
      ghost var s0, nodes0 := s, nodes;
      FinalKeepsExact(s0);
      LastNotFrozen(s0);
      var node := LastNode();
      SnapshotAt(nodes0, node);
      ghost var s1 := MakeFinal(s0);
      CachesFinal(nodes0, s0);
      node.SetFinal(true, nodes0);
      s := s1;
    }

    /** What fromArray hands out: the nodes still in use and their ranks. */
    ghost method Harvest() returns (kept: set<TokenSet>, rank: map<TokenSet, nat>)
      requires Consistent() && Exact(s) && s.path == [root]
      requires OnlyPrefixes(s.words, s.made) && Enumeration.NoRepeats(s.made)
      ensures kept <= nodes && root in kept && Ranked(Snapshot(kept), rank)
      ensures s.clean ==>
                && (forall w :: Accepts(Snapshot(kept), root, w) <==> w in s.words)
                && Minimal(Snapshot(kept), root) && Trim(Snapshot(kept), root)
      ensures (forall w :: w != "" ==> (Accepts(Snapshot(kept), root, w) <==> w in s.words)) ==> s.clean
      ensures InSequence() ==> (s.clean <==> Apart(s.words, s.made, root.id))
    {
      hide Sane, Exact, KeyOf, Accepts, Minimal, Trim, Ranked, Apart, OnlyPrefixes;
      kept, rank := Kept(s), OrderRank(s);
      FinishedIsRanked(s);
      assert Snapshot(kept) == Restrict(s.g, kept);
      FinishedIffTelling(s);
      FinishedAccepts(s);
      assert forall w: string :: "" + w == w;
      if s.clean { FinishedIsExact(s); }
    }

    /** Builder.finish. */
    method Finish()
      requires Valid()
      modifies this`uncheckedNodes, this`minimizedNodes, this`s, nodes
      ensures Consistent() && Exact(s) && s.path == [root] && s.words == old(s.words)
      ensures s.made == old(s.made) && (old(InSequence()) ==> InSequence())
    {
      hide Sane, Exact, TopLive, KeyOf, Snapshot;
      Minimize(0);
      assert s.path == [s.path[0]];
    }
  }

  lemma LastNotFrozen(s: State)
    requires Sane(s)
    ensures s.path != [] && s.path[|s.path| - 1] in s.g && s.path[|s.path| - 1] !in s.registered
              && |s.path| <= |s.word| + 1
    ensures forall n :: n in s.registered ==> n in s.g
  {
    hide KeyOf;
    Facts(s);
  }

  lemma LeafFits(s: State, ch: char, leaf: TokenSet)
    requires 1 <= |s.path| <= |s.word| && s.path[|s.path| - 1] in s.g && ch == s.word[|s.path| - 1]
    requires LabelsBelow(s.g[s.path[|s.path| - 1]].edges, ch)
    requires leaf !in s.g
    ensures CanExtend(s, leaf)
  {
  }

  lemma FreshLeaf(s: State, leaf: TokenSet)
    requires Sane(s) && CanExtend(s, leaf)
    ensures leaf !in s.registered && 1 <= |s.path| <= |s.word| && s.path[|s.path| - 1] in s.g
    ensures Extend(s, leaf) == s.(g := Extend(s, leaf).g, path := s.path + [leaf],
                                  made := s.made + [s.word[..|s.path|]], index := s.index[leaf := |s.made|])
    ensures var p := s.path[|s.path| - 1];
            Extend(s, leaf).g ==
                s.g[p := s.g[p].(edges := s.g[p].edges[s.word[|s.path| - 1] := leaf])][leaf := Node(false, map[])]
    ensures forall n :: n in s.registered ==> n in s.g && n != s.path[|s.path| - 1]
  {
    hide KeyOf;
    Facts(s);
  }

  lemma NothingBelow(ch: char)
    ensures LabelsBelow(map[], ch)
  {
  }

  lemma TopFacts(s: State)
    requires Sane(s) && |s.path| >= 2
    ensures s.path[|s.path| - 1] in s.g && s.path[|s.path| - 1] !in s.registered
    ensures s.path[|s.path| - 2] in s.g && s.path[|s.path| - 2] !in s.registered
    ensures |s.path| <= |s.word| + 1 && forall i :: 0 <= i < |s.path| - 1 ==> s.path[i] != s.path[|s.path| - 1]
    ensures forall key :: key in s.minimized ==>
              s.minimized[key] in s.registered && s.minimized[key] in s.g && KeyOf(s.g[s.minimized[key]]) == key
    ensures forall n :: n in s.registered ==> n in s.g
  {
    hide KeyOf;
    Facts(s);
  }

  lemma MergeKeepsSaneAndExact(s: State, m: TokenSet)
    requires Sane(s) && Exact(s) && TopLive(s) && |s.path| >= 2 && m in s.registered && m in s.g
    requires s.path[|s.path| - 1] in s.g && KeyOf(s.g[m]) == KeyOf(s.g[s.path[|s.path| - 1]])
    ensures |s.path| <= |s.word| + 1 && s.path[|s.path| - 2] in s.g
    ensures Sane(MergeTop(s, m)) && Exact(MergeTop(s, m)) && TopLive(MergeTop(s, m))
    ensures forall n :: n in s.registered ==> n != s.path[|s.path| - 2]
  {
    hide Sane, Exact, KeyOf;
    Facts(s);
    MergeKeepsExact(s, m);
  }

  // ---------------------------------------------------------------- ids in sequence

  lemma MergeKeepsStep(s: State, m: TokenSet)
    requires |s.path| >= 2 && |s.path| <= |s.word| + 1 && s.path[|s.path| - 2] in s.g
    ensures var s' := MergeTop(s, m);
            && s'.path == s.path[..|s.path| - 1] && s'.word == s.word && s'.words == s.words && s'.made == s.made
            && s'.minimized == s.minimized
            && s'.g == Minimization.Redirect(s.g, s.path[|s.path| - 2], s.word[|s.path| - 2], m)
            && (InStep(s) ==> InStep(s'))
  {
  }

  lemma RegisterKeepsStep(s: State)
    requires |s.path| >= 2 && s.path[|s.path| - 1] in s.g
    ensures var s', child := RegisterTop(s), s.path[|s.path| - 1];
            && s'.path == s.path[..|s.path| - 1] && s'.word == s.word && s'.words == s.words && s'.made == s.made
            && s'.minimized == s.minimized[KeyOf(s.g[child]) := child] && s'.g == s.g
            && (InStep(s) ==> InStep(s'))
  {
  }

  lemma RelabelKeepsStep(s: State, word: string)
    requires s.path != []
    ensures InStep(s) ==> InStep(s.(word := word))
  {
  }

  lemma ExtendKeepsStep(s: State, leaf: TokenSet)
    requires CanExtend(s, leaf) && InStep(s) && leaf.id == s.path[0].id + |s.made|
    ensures InStep(Extend(s, leaf))
  {
    LeafIsNew(s, leaf);
  }

  /** A new builder has only the root. */
  lemma StartIsExact(s: State, r: TokenSet)
    requires s == State(map[r := Node(false, map[])], [r], "", [], map[], {}, [""], map[r := 0], true)
    ensures Sane(s) && Exact(s) && TopLive(s) && InStep(s)
  {
    assert Leads(s.g, r, "", r) && To(s, "", r) && Spelled(s, "");
    forall a, n | n in s.g && To(s, a, n) ensures a in s.made { assert a == ""; }
    assert "" in s.made;
  }

  /** TokenSet.fromArray; null stands for the error thrown on a list out of order.  The automaton is
      right exactly if the keys its nodes get tell them apart, and then there is no smaller one. */
  method FromArray(arr: seq<string>, ids: IdSource)
    returns (root: TokenSet?, ghost nodes: set<TokenSet>, ghost rank: map<TokenSet, nat>)
    modifies ids
    ensures root != null <==> InOrder(arr)
    ensures fresh(nodes)
    ensures root != null ==> root in nodes && Ranked(Snapshot(nodes), rank)
    ensures root != null && Telling(arr, old(ids.nextId)) ==>
              && (forall w :: Accepts(Snapshot(nodes), root, w) <==> w in arr)
              && Minimal(Snapshot(nodes), root) && Trim(Snapshot(nodes), root)
    ensures root != null && !Telling(arr, old(ids.nextId)) ==>
              exists w :: w != "" && !(Accepts(Snapshot(nodes), root, w) <==> w in arr)
    ensures root != null ==> ids.nextId == old(ids.nextId) + |Trie(arr)|
  {
    hide Sane, TopLive, KeyOf, Snapshot, Accepts, Minimal, Trim, Ranked, Builder.Reflects, Exact, Apart, Trie, Common,
         OnlyPrefixes, InStep;
    var builder := new Builder(ids);
    for i := 0 to |arr|
      invariant builder.Valid() && fresh(builder) && fresh(builder.nodes) && builder.ids == ids
      invariant builder.InSequence() && builder.root.id == old(ids.nextId)
      invariant builder.s.words == WordsOf(arr[..i]) && builder.s.made == Trie(arr[..i])
      invariant builder.previousWord == Last(arr[..i])
      invariant InOrder(arr[..i])
    {
      TrieGrows(arr[..i], arr[i]);
      var ok := builder.Insert(arr[i]);
      assert arr[..i + 1] == arr[..i] + [arr[i]];
      if !ok {
        return null, {}, map[];
      }
    }
    assert arr[..|arr|] == arr;
    builder.Finish();
    TrieIsComplete(arr);
    TrieHasNoRepeats(arr);
    root := builder.root;
    nodes, rank := builder.Harvest();
  }

  /** No automaton for the words of a list has fewer nodes than the one made from it. */
  lemma FewestNodes<M>(arr: seq<string>, nodes: set<TokenSet>, root: TokenSet, g: Graph<TokenSet>, h: Graph<M>,
                       start: M)
    requires root in g && g.Keys == nodes && Minimal(g, root) && Trim(g, root)
    requires forall w :: Accepts(g, root, w) <==> w in arr
    requires start in h && forall w :: Accepts(h, start, w) <==> w in arr
    ensures |nodes| <= |h.Keys|
  {
    Smallest(g, root, h, start);
  }
}
