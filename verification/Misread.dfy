/** A list of words that fromArray gets wrong. */
module MisreadList {
  import NodeKey
  import opened Minimization
  import opened Numbering

  /** With ids from 1 on, the node behind "2" has edges 0 and 1 to the nodes 2 and 12, the one
      behind "4" has edges 0 and 1 to the nodes 21 and 2, and both have the key 002112. */
  const MISREAD: seq<string> := ["0", "1xxxxxx", "20", "21y", "3xxxxx", "40z", "41"]

  lemma Grown(arr: seq<string>, v: string, w: string, k: nat)
    requires v == Last(arr)
    requires k <= |v| && k <= |w| && forall i :: 0 <= i < k ==> v[i] == w[i]
    requires k < |v| && k < |w| ==> v[k] != w[k]
    ensures var ps, qs := Trie(arr), Trie(arr + [w]);
            ps <= qs && |qs| == |ps| + |w| - k && forall i :: |ps| <= i < |qs| ==> qs[i] == w[..k + 1 + i - |ps|]
    ensures arr == [] ==> Trie(arr) == [""]
  {
    CommonIs(v, w, k);
    TrieGrows(arr, w);
  }

  lemma MisreadTrie()
    ensures var ps := Trie(MISREAD);
            && |Trie(MISREAD[..3])| == 11 && Trie(MISREAD[..3]) <= ps
            && |Trie(MISREAD[..5])| == 19 && Trie(MISREAD[..5]) <= ps
            && |ps| == 23 && ps[1] == "0" && ps[11] == "21" && ps[19] == "4" && ps[20] == "40"
  {
    hide Trie, Common;
    Grown(MISREAD[..0], "", "0", 0);
    assert MISREAD[..0] + ["0"] == MISREAD[..1];
    Grown(MISREAD[..1], "0", "1xxxxxx", 0);
    assert MISREAD[..1] + ["1xxxxxx"] == MISREAD[..2];
    Grown(MISREAD[..2], "1xxxxxx", "20", 0);
    assert MISREAD[..2] + ["20"] == MISREAD[..3];
    Grown(MISREAD[..3], "20", "21y", 1);
    assert MISREAD[..3] + ["21y"] == MISREAD[..4];
    Grown(MISREAD[..4], "21y", "3xxxxx", 0);
    assert MISREAD[..4] + ["3xxxxx"] == MISREAD[..5];
    Grown(MISREAD[..5], "3xxxxx", "40z", 0);
    assert MISREAD[..5] + ["40z"] == MISREAD[..6];
    Grown(MISREAD[..6], "40z", "41", 1);
    assert MISREAD[..6] + ["41"] == MISREAD[..7];
    assert MISREAD[..7] == MISREAD;
  }

  /** A listed word that no other one continues has nothing left to read. */
  lemma Ends(words: set<string>, a: string, x: string)
    requires a in words && forall w :: w in words && a <= w ==> w == a
    ensures a + x in words <==> x == ""
  {
    if a + x in words { assert a <= a + x; }
    if x == "" { assert a + x == a; }
  }

  /** Only one prefix leads to a node whose words end like no others. */
  lemma Alone(words: set<string>, ps: seq<string>, a: string, c: char, k: nat)
    requires a + [c] in words && forall w :: w in words && w != "" && w[|w| - 1] == c ==> w == a + [c]
    requires k < |ps| && ps[k] == a && a !in ps[..k]
    ensures First(words, ps, a) == k
  {
    hide First, Same;
    var j := First(words, ps, a);
    SameItself(words, a);
    SameAt(words, ps[j], a, [c]);
    LastApart(ps[j], a, c);
    forall i | 0 <= i < k ensures ps[i] != a { assert ps[..k][i] == ps[i]; }
  }

  lemma SameItself(words: set<string>, a: string)
    ensures Same(words, a, a)
  {
  }

  lemma LastApart(b: string, a: string, c: char)
    ensures (b + [c])[|b + [c]| - 1] == c && (b + [c] == a + [c] ==> b == a)
  {
    assert (b + [c])[..|b|] == b && (a + [c])[..|a|] == a;
  }

  lemma TwoLabels()
    ensures NodeKey.Sorted({'0', '1'}) == ['0', '1']
  {
    assert '0' in {'0', '1'} && NodeKey.Least({'0', '1'}) == '0';
    assert {'0', '1'} - {'0'} == {'1'} && NodeKey.Least({'1'}) == '1';
    assert {'1'} - {'1'} == {};
    assert NodeKey.Sorted({'1'}) == ['1'];
  }

  lemma TwoEdges(p: nat, q: nat)
    ensures NodeKey.Arcs(map['0' := p, '1' := q]) == [NodeKey.Arc('0', p), NodeKey.Arc('1', q)]
  {
    hide NodeKey.Sorted;
    TwoLabels();
    assert map['0' := p, '1' := q].Keys == {'0', '1'};
  }

  lemma TwoArcs(p: nat, q: nat)
    ensures NodeKey.KeyOf(false, map['0' := p, '1' := q]) == "00" + NodeKey.Decimal(p) + "1" + NodeKey.Decimal(q)
  {
    hide NodeKey.Arcs, NodeKey.Decimal, NodeKey.Tail;
    TwoEdges(p, q);
    TwoArcsTail(NodeKey.Arc('0', p), NodeKey.Arc('1', q));
  }

  lemma TwoArcsTail(a: NodeKey.Arc, b: NodeKey.Arc)
    ensures NodeKey.Tail([a, b]) == [a.ch] + NodeKey.Decimal(a.id) + [b.ch] + NodeKey.Decimal(b.id)
  {
    hide NodeKey.Decimal, NodeKey.Tail;
    NodeKey.TailConcat([a], [b]);
    assert [a] + [b] == [a, b];
    OneArcTail(a);
    OneArcTail(b);
  }

  lemma OneArcTail(a: NodeKey.Arc)
    ensures NodeKey.Tail([a]) == [a.ch] + NodeKey.Decimal(a.id)
  {
    hide NodeKey.Decimal;
    assert [a][1..] == [];
  }

  /** The first word's node stands for the end of every word. */
  lemma FirstEnd(words: set<string>, ps: seq<string>, b: string)
    requires |ps| > 1 && ps[0] == "" && ps[1] in words && "" !in words
    requires forall w :: w in words && ps[1] <= w ==> w == ps[1]
    requires b in words && b in ps && forall w :: w in words && b <= w ==> w == b
    ensures First(words, ps, b) == 1
  {
    hide First;
    forall x ensures ps[1] + x in words <==> b + x in words {
      Ends(words, ps[1], x);
      Ends(words, b, x);
    }
    assert Same(words, ps[1], b);
    assert ps[0] + "" == "" && b + "" == b;
    assert !Same(words, ps[0], b);
  }

  /** A prefix has the word's characters. */
  lemma PrefixAt(a: string, w: string, i: nat)
    requires a <= w && i < |a|
    ensures w[i] == a[i]
  {
  }

  lemma MisreadEnds(a: string, w: string)
    requires a in {"0", "20", "41"} && w in MISREAD && a <= w
    ensures w == a
  {
    PrefixAt(a, w, 0);
    if |a| > 1 { PrefixAt(a, w, 1); }
  }

  lemma MisreadNext(a: string, c: char)
    requires a == "2" || a == "4"
    ensures a + [c] in Trie(MISREAD) <==> c == '0' || c == '1'
  {
    hide Trie;
    TrieIsPrefixes(MISREAD, a + [c]);
    forall w | w in MISREAD && a + [c] <= w ensures c == '0' || c == '1' {
      PrefixAt(a + [c], w, 0);
      PrefixAt(a + [c], w, 1);
    }
    assert a == "2" ==> a + ['0'] <= "20" && a + ['1'] <= "21y";
    assert a == "4" ==> a + ['0'] <= "40z" && a + ['1'] <= "41";
    assert "20" in MISREAD && "21y" in MISREAD && "40z" in MISREAD && "41" in MISREAD;
  }

  lemma MisreadFirstEnd(b: string)
    requires b == "20" || b == "41"
    ensures b in Trie(MISREAD) && First(WordsOf(MISREAD), Trie(MISREAD), b) == 1
  {
    hide Trie, First;
    MisreadTrie();
    TrieIsPrefixes(MISREAD, b);
    assert "0" in MISREAD && "20" in MISREAD && "41" in MISREAD;
    forall w | w in MISREAD && "0" <= w { MisreadEnds("0", w); }
    forall w | w in MISREAD && b <= w { MisreadEnds(b, w); }
    FirstEnd(WordsOf(MISREAD), Trie(MISREAD), b);
  }

  lemma MisreadAlone21()
    ensures "21" in Trie(MISREAD) && First(WordsOf(MISREAD), Trie(MISREAD), "21") == 11
  {
    hide Trie, First;
    var ps := Trie(MISREAD);
    MisreadTrie();
    TrieIsPrefixes(MISREAD[..3], "21");
    forall w | w in MISREAD[..3] ensures !("21" <= w) {
      if "21" <= w { PrefixAt("21", w, 1); }
    }
    assert "21" + ['y'] == "21y" && "21y" in MISREAD;
    assert ps[..11] == Trie(MISREAD[..3]);
    Alone(WordsOf(MISREAD), ps, "21", 'y', 11);
  }

  lemma MisreadAlone40()
    ensures "40" in Trie(MISREAD) && First(WordsOf(MISREAD), Trie(MISREAD), "40") == 20
  {
    hide Trie, First;
    var ps := Trie(MISREAD);
    MisreadTrie();
    TrieIsPrefixes(MISREAD[..5], "40");
    forall w | w in MISREAD[..5] ensures !("40" <= w) {
      if "40" <= w { PrefixAt("40", w, 0); }
    }
    assert "40" + ['z'] == "40z" && "40z" in MISREAD;
    assert ps[..20] == Trie(MISREAD[..5]) + ["4"];
    Alone(WordsOf(MISREAD), ps, "40", 'z', 20);
  }

  lemma TwoTargets(words: set<string>, ps: seq<string>, a: string)
    requires forall c :: a + [c] in ps <==> c == '0' || c == '1'
    ensures a + ['0'] in ps && a + ['1'] in ps
    ensures Targets(words, ps, 1, a) ==
              map['0' := 1 + First(words, ps, a + ['0']), '1' := 1 + First(words, ps, a + ['1'])]
  {
    hide Targets, First;
    forall c ensures c in Targets(words, ps, 1, a) <==> c == '0' || c == '1' { TargetAt(words, ps, 1, a, c); }
    assert a + ['0'] in ps && a + ['1'] in ps;
    TargetAt(words, ps, 1, a, '0');
    TargetAt(words, ps, 1, a, '1');
  }

  lemma MisreadTargets()
    ensures var words, ps := WordsOf(MISREAD), Trie(MISREAD);
            Targets(words, ps, 1, "2") == map['0' := 2, '1' := 12]
                && Targets(words, ps, 1, "4") == map['0' := 21, '1' := 2]
  {
    hide Trie, First, Targets;
    var words, ps := WordsOf(MISREAD), Trie(MISREAD);
    MisreadFirstEnd("20");
    MisreadFirstEnd("41");
    MisreadAlone21();
    MisreadAlone40();
    forall a, c | a == "2" || a == "4" ensures a + [c] in ps <==> c == '0' || c == '1' { MisreadNext(a, c); }
    TwoTargets(words, ps, "2");
    TwoTargets(words, ps, "4");
    assert "2" + ['0'] == "20" && "2" + ['1'] == "21" && "4" + ['0'] == "40" && "4" + ['1'] == "41";
  }

  lemma MisreadKeys()
    ensures Key(WordsOf(MISREAD), Trie(MISREAD), 1, "2") == "002112" == Key(WordsOf(MISREAD), Trie(MISREAD), 1, "4")
  {
    hide Targets, Trie, NodeKey.KeyOf;
    MisreadTargets();
    TwoArcs(2, 12);
    TwoArcs(21, 2);
  }

  lemma MisreadInOrder()
    ensures InOrder(MISREAD)
  {
  }

  /** Two different nodes of this list share a key. */
  lemma MisreadIsMisread()
    ensures InOrder(MISREAD) && !Telling(MISREAD, 1)
  {
    hide Trie, Key, InOrder, Before;
    MisreadInOrder();
    MisreadKeys();
    TrieIsPrefixes(MISREAD, "2");
    TrieIsPrefixes(MISREAD, "4");
    assert "2" <= "20" && "4" <= "40z" && "20" in MISREAD && "40z" in MISREAD && "21y" in MISREAD;
    assert "2" + "1y" == "21y" && "4" + "1y" == "41y";
    assert !Same(WordsOf(MISREAD), "2", "4");
  }
}
