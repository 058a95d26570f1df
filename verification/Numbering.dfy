/** Which ids the nodes of lunr.TokenSet.Builder get, said in terms of the word list alone,
    and whether the keys made of them tell the nodes of that list apart. */
module Numbering {
  import NodeKey
  import opened Minimization
  import Enumeration

  /** The list fromArray accepts: no word before its predecessor. */
  predicate InOrder(arr: seq<string>) {
    forall i :: 0 <= i < |arr| - 1 ==> !Before(arr[i + 1], arr[i])
  }

  ghost function WordsOf(arr: seq<string>): set<string> { set w | w in arr }

  // ---------------------------------------------------------------- the order of creation

  function Common(a: string, b: string): (k: nat)
    ensures k <= |a| && k <= |b| && a[..k] == b[..k]
    ensures k < |a| && k < |b| ==> a[k] != b[k]
  {
    if a == "" || b == "" || a[0] != b[0] then 0
    else
      var k := Common(a[1..], b[1..]) + 1;
      assert a[..k] == [a[0]] + a[1..][..k - 1] && b[..k] == [b[0]] + b[1..][..k - 1];
      k
  }

  lemma CommonIs(v: string, w: string, k: nat)
    requires k <= |v| && k <= |w| && forall i :: 0 <= i < k ==> v[i] == w[i]
    requires k < |v| && k < |w| ==> v[k] != w[k]
    ensures Common(v, w) == k
  {
    var c := Common(v, w);
    assert forall i :: 0 <= i < c ==> v[i] == v[..c][i] == w[..c][i] == w[i];
  }

  /** The prefixes of a word that are longer than `from`. */
  function Branch(word: string, from: nat): seq<string>
    requires from <= |word|
  {
    seq(|word| - from, i requires 0 <= i < |word| - from => word[..from + i + 1])
  }

  function Last(arr: seq<string>): string { if arr == [] then "" else arr[|arr| - 1] }

  /** The prefixes of the words, each where its node is created: the k-th gets the k-th id. */
  function Trie(arr: seq<string>): (ps: seq<string>)
    ensures ps != [] && ps[0] == ""
  {
    if arr == [] then [""]
    else
      var init, w := arr[..|arr| - 1], Last(arr);
      Trie(init) + Branch(w, Common(Last(init), w))
  }

  lemma TrieGrows(arr: seq<string>, w: string)
    ensures Trie(arr + [w]) == Trie(arr) + Branch(w, Common(Last(arr), w))
  {
    assert (arr + [w])[..|arr|] == arr;
  }

  lemma BranchMembers(w: string, k: nat, a: string)
    requires k <= |w|
    ensures a in Branch(w, k) <==> a <= w && |a| > k
  {
    if a <= w && |a| > k { assert Branch(w, k)[|a| - k - 1] == a; }
  }

  lemma SharedPrefix(v: string, w: string, a: string)
    requires a <= w && |a| <= Common(v, w)
    ensures a <= v
  {
    hide Common;
    var k := Common(v, w);
    assert a == w[..k][..|a|] == v[..k][..|a|];
  }

  lemma {:induction false} TrieIsPrefixes(arr: seq<string>, a: string)
    ensures a in Trie(arr) <==> a == "" || exists w :: w in arr && a <= w
    decreases |arr|
  {
    hide Common, Branch;
    if arr != [] {
      var init, w := arr[..|arr| - 1], Last(arr);
      var k := Common(Last(init), w);
      assert arr == init + [w] && w in arr;
      TrieIsPrefixes(init, a);
      BranchMembers(w, k, a);
      if a != "" && a <= w && |a| <= k {
        SharedPrefix(Last(init), w, a);
        assert Last(init) in init;
      }
      assert forall v :: v in arr <==> v in init || v == w;
      if a in Trie(init) && a != "" {
        var v :| v in init && a <= v;
        assert v in arr;
      }
    }
  }

  lemma {:induction false} NotBeforeOnward(a: string, b: string, c: string)
    requires !Before(b, a) && !Before(c, b)
    ensures !Before(c, a)
    decreases |a|
  {
    if a != "" && b != "" && c != "" && a[0] == b[0] == c[0] { NotBeforeOnward(a[1..], b[1..], c[1..]); }
  }

  lemma {:induction false} LastIsGreatest(arr: seq<string>, v: string)
    requires InOrder(arr) && v in arr
    ensures !Before(Last(arr), v)
    decreases |arr|
  {
    var init, w := arr[..|arr| - 1], Last(arr);
    assert arr == init + [w];
    if v in init {
      LastIsGreatest(init, v);
      assert !Before(arr[|arr| - 1], arr[|arr| - 2]);
      NotBeforeOnward(v, Last(init), w);
    } else {
      NotBeforeItself(w);
    }
  }

  lemma {:induction false} NotBeforeItself(a: string)
    ensures !Before(a, a)
    decreases |a|
  {
    if a != "" { NotBeforeItself(a[1..]); }
  }

  /** A prefix of two words is one of all words between them. */
  lemma {:induction false} Between(v: string, p: string, w: string, a: string)
    requires a <= v && a <= w && !Before(p, v) && !Before(w, p)
    ensures a <= p
    decreases |a|
  {
    if a != "" {
      assert v[0] == a[0] == w[0];
      assert a[1..] <= v[1..] && a[1..] <= w[1..];
      Between(v[1..], p[1..], w[1..], a[1..]);
      assert p == [p[0]] + p[1..] && a == [a[0]] + a[1..];
    }
  }

  /** What is longer than the common prefix with the word before is a prefix of no earlier one. */
  lemma NewPrefix(arr: seq<string>, a: string, v: string)
    requires InOrder(arr) && arr != [] && v in arr[..|arr| - 1]
    requires a <= Last(arr) && |a| > Common(Last(arr[..|arr| - 1]), Last(arr))
    ensures !(a <= v)
  {
    var init, w := arr[..|arr| - 1], Last(arr);
    LastIsGreatest(init, v);
    assert !Before(arr[|arr| - 1], arr[|arr| - 2]);
    if a <= v { Between(v, Last(init), w, a); }
  }

  // ---------------------------------------------------------------- one list for a set of words

  ghost predicate Ascending(ps: seq<string>) {
    forall i, j :: 0 <= i < j < |ps| ==> Before(ps[i], ps[j])
  }

  lemma {:induction false} PrefixIsBefore(w: string, i: nat, j: nat)
    requires i < j <= |w|
    ensures Before(w[..i], w[..j])
    decreases i
  {
    if i > 0 {
      assert w[..i][1..] == w[1..][..i - 1] && w[..j][1..] == w[1..][..j - 1];
      PrefixIsBefore(w[1..], i - 1, j - 1);
    }
  }

  /** A prefix of an earlier word comes before a new prefix of a later one. */
  lemma {:induction false} OldIsBefore(a: string, v: string, w: string, i: nat)
    requires a <= v && !Before(w, v) && i <= |w| && !(w[..i] <= v)
    ensures Before(a, w[..i])
    decreases |a|
  {
    if a != "" && a[0] == w[0] {
      assert w[..i][1..] == w[1..][..i - 1];
      assert v[0] == a[0] && a[1..] <= v[1..];
      OldIsBefore(a[1..], v[1..], w[1..], i - 1);
    }
  }

  lemma {:induction false} TrieAscends(arr: seq<string>)
    requires InOrder(arr)
    ensures Ascending(Trie(arr))
    decreases |arr|
  {
    hide Common, Before, InOrder, Ascending;
    NothingAscends();
    if arr != [] {
      var init, w := arr[..|arr| - 1], Last(arr);
      var k := Common(Last(init), w);
      InitInOrder(arr);
      TrieAscends(init);
      var tips := Branch(w, k);
      forall a, j | a in Trie(init) && 0 <= j < |tips| ensures Before(a, tips[j]) { OldAndNew(arr, a, k + j + 1); }
      BranchAscends(w, k);
      Joined(Trie(init), tips);
    }
  }

  lemma NothingAscends()
    ensures Ascending([""])
  {
  }

  lemma InitInOrder(arr: seq<string>)
    requires InOrder(arr) && arr != []
    ensures InOrder(arr[..|arr| - 1])
  {
  }

  lemma BranchAscends(w: string, k: nat)
    requires k <= |w|
    ensures Ascending(Branch(w, k))
  {
    hide Before;
    var tips := Branch(w, k);
    forall i, j | 0 <= i < j < |tips| ensures Before(tips[i], tips[j]) { PrefixIsBefore(w, k + i + 1, k + j + 1); }
  }

  lemma Joined(ps: seq<string>, qs: seq<string>)
    requires Ascending(ps) && Ascending(qs) && forall a, j :: a in ps && 0 <= j < |qs| ==> Before(a, qs[j])
    ensures Ascending(ps + qs)
  {
    hide Before;
    forall i, j | 0 <= i < j < |ps + qs| ensures Before((ps + qs)[i], (ps + qs)[j]) {
      if i < |ps| { assert ps[i] in ps; }
    }
  }

  lemma OldAndNew(arr: seq<string>, a: string, i: nat)
    requires InOrder(arr) && arr != [] && a in Trie(arr[..|arr| - 1])
    requires Common(Last(arr[..|arr| - 1]), Last(arr)) < i <= |Last(arr)|
    ensures Before(a, Last(arr)[..i])
  {
    hide Common, Trie, InOrder;
    var init, w := arr[..|arr| - 1], Last(arr);
    TrieIsPrefixes(init, a);
    if v :| v in init && a <= v {
      NewPrefix(arr, w[..i], v);
      LastIsGreatest(arr, v);
      OldIsBefore(a, v, w, i);
    }
  }

  lemma {:induction false} BeforeIsOneWay(a: string, b: string)
    requires Before(a, b)
    ensures !Before(b, a) && a != b
    decreases |a|
  {
    if a != "" && a[0] == b[0] { BeforeIsOneWay(a[1..], b[1..]); }
  }

  lemma {:induction false} AscendingIsUnique(ps: seq<string>, qs: seq<string>)
    requires Ascending(ps) && Ascending(qs) && forall a :: a in ps <==> a in qs
    ensures ps == qs
    decreases |ps|
  {
    hide Before;
    forall x, y | Before(x, y) ensures !Before(y, x) && x != y { BeforeIsOneWay(x, y); }
    assert |ps| > 0 ==> ps[0] in ps;
    assert |qs| > 0 ==> qs[0] in qs;
    if ps != [] && qs != [] {
      assert ps[0] in qs && qs[0] in ps && ps[0] == qs[0];
      forall a ensures a in ps[1..] <==> a in qs[1..] {
        assert a in ps <==> a == ps[0] || a in ps[1..];
        assert a in qs <==> a == qs[0] || a in qs[1..];
      }
      AscendingIsUnique(ps[1..], qs[1..]);
      assert ps == [ps[0]] + ps[1..] && qs == [qs[0]] + qs[1..];
    }
  }

  /** No node is made twice. */
  lemma TrieHasNoRepeats(arr: seq<string>)
    requires InOrder(arr)
    ensures Enumeration.NoRepeats(Trie(arr))
  {
    hide Trie, Before;
    TrieAscends(arr);
    forall x, y | Before(x, y) ensures x != y { BeforeIsOneWay(x, y); }
  }

  /** The nodes made depend on the words alone. */
  lemma SameWordsSameTrie(arr: seq<string>, brr: seq<string>)
    requires InOrder(arr) && InOrder(brr) && WordsOf(arr) == WordsOf(brr)
    ensures Trie(arr) == Trie(brr)
  {
    hide Trie, Before;
    TrieAscends(arr);
    TrieAscends(brr);
    assert forall w :: w in arr <==> w in WordsOf(arr);
    assert forall w :: w in brr <==> w in WordsOf(brr);
    forall a ensures a in Trie(arr) <==> a in Trie(brr) {
      TrieIsPrefixes(arr, a);
      TrieIsPrefixes(brr, a);
    }
    AscendingIsUnique(Trie(arr), Trie(brr));
  }

  // ---------------------------------------------------------------- nodes of the right automaton

  /** Behind both prefixes the same is left to read: they lead to one node. */
  ghost predicate Same(words: set<string>, a: string, b: string) {
    forall x :: a + x in words <==> b + x in words
  }

  ghost function FirstFrom(words: set<string>, ps: seq<string>, a: string, i: nat): (k: nat)
    requires i <= |ps| && a in ps[i..]
    ensures i <= k < |ps| && Same(words, ps[k], a)
    ensures forall j :: i <= j < k ==> !Same(words, ps[j], a)
    decreases |ps| - i
  {
    if Same(words, ps[i], a) then i else FirstFrom(words, ps, a, i + 1)
  }

  /** A node has the number of the first prefix that leads to it: later ones merge with it. */
  ghost function First(words: set<string>, ps: seq<string>, a: string): (k: nat)
    requires a in ps
    ensures k < |ps| && Same(words, ps[k], a)
    ensures forall j :: 0 <= j < k ==> !Same(words, ps[j], a)
  {
    FirstFrom(words, ps, a, 0)
  }

  ghost predicate Next(ps: seq<string>, a: string, c: char) { a + [c] in ps }

  ghost function Labels(ps: seq<string>, a: string): (cs: set<char>)
    ensures forall c :: c in cs <==> Next(ps, a, c)
  {
    var cs := set p | p in ps && |p| == |a| + 1 && a + [p[|a|]] == p :: p[|a|];
    forall c | Next(ps, a, c) ensures c in cs {
      var p := a + [c];
      assert p in ps && p[|a|] == c;
    }
    cs
  }

  /** The ids behind the edges of the node that a leads to, if the first node got `first`. */
  ghost function Targets(words: set<string>, ps: seq<string>, first: nat, a: string): map<char, nat> {
    map c | c in Labels(ps, a) :: first + First(words, ps, a + [c])
  }

  ghost function Key(words: set<string>, ps: seq<string>, first: nat, a: string): string {
    NodeKey.KeyOf(a in words, Targets(words, ps, first, a))
  }

  /** No two different nodes below the root share a key. */
  ghost predicate Apart(words: set<string>, ps: seq<string>, first: nat) {
    forall a, b :: a in ps && b in ps && a != "" && b != "" && Key(words, ps, first, a) == Key(words, ps, first, b) ==>
      Same(words, a, b)
  }

  /** The keys that the nodes made for a list get tell them apart, if the root gets the id `first`. */
  ghost predicate Telling(arr: seq<string>, first: nat) { Apart(WordsOf(arr), Trie(arr), first) }

  /** The same of a set of words, in order. */
  ghost predicate Tellable(words: set<string>, first: nat) {
    forall arr :: InOrder(arr) && WordsOf(arr) == words ==> Telling(arr, first)
  }

  lemma TellableList(arr: seq<string>, first: nat)
    requires InOrder(arr)
    ensures Tellable(WordsOf(arr), first) <==> Telling(arr, first)
  {
    hide InOrder, Apart, Trie, WordsOf;
    if Telling(arr, first) {
      forall brr | InOrder(brr) && WordsOf(brr) == WordsOf(arr) ensures Telling(brr, first) {
        SameWordsSameTrie(arr, brr);
      }
    }
  }

  // ---------------------------------------------------------------- when keys tell nodes apart

  ghost predicate Complete(words: set<string>, ps: seq<string>) {
    forall w, a :: w in words && a <= w ==> a in ps
  }

  lemma TargetAt(words: set<string>, ps: seq<string>, first: nat, a: string, c: char)
    ensures c in Targets(words, ps, first, a) <==> a + [c] in ps
    ensures a + [c] in ps ==> Targets(words, ps, first, a)[c] == first + First(words, ps, a + [c])
  {
    assert Next(ps, a, c) <==> a + [c] in ps;
  }

  lemma SameAt(words: set<string>, a: string, b: string, x: string)
    requires Same(words, a, b)
    ensures a + x in words <==> b + x in words
  {
  }

  lemma SameTargetsLead(words: set<string>, ps: seq<string>, first: nat, a: string, b: string, x: string)
    requires Complete(words, ps) && (a in words ==> b in words)
    requires Targets(words, ps, first, a) == Targets(words, ps, first, b)
    requires a + x in words
    ensures b + x in words
  {
    hide Targets, Same, First;
    if x == "" {
      assert a + x == a && b + x == b;
    } else {
      var c, y := x[0], x[1..];
      assert a + x == (a + [c]) + y && b + x == (b + [c]) + y;
      assert a + [c] <= a + x;
      TargetAt(words, ps, first, a, c);
      TargetAt(words, ps, first, b, c);
      var k := First(words, ps, a + [c]);
      SameAt(words, ps[k], a + [c], y);
      SameAt(words, ps[k], b + [c], y);
    }
  }

  /** The nodes are those of the minimal automaton: edges and finality determine them. */
  lemma SameTargetsSame(words: set<string>, ps: seq<string>, first: nat, a: string, b: string)
    requires Complete(words, ps) && (a in words <==> b in words)
    requires Targets(words, ps, first, a) == Targets(words, ps, first, b)
    ensures Same(words, a, b)
  {
    hide Targets, Complete;
    forall x ensures a + x in words <==> b + x in words {
      if a + x in words { SameTargetsLead(words, ps, first, a, b, x); }
      if b + x in words { SameTargetsLead(words, ps, first, b, a, x); }
    }
  }

  /** No word continues a shared, non-empty prefix with a digit where another one has a smaller
      character.  The root has no key, so digits at the beginning of words do no harm. */
  ghost predicate Indexable(words: set<string>) {
    forall u, w, i :: u in words && w in words && 0 < i < |u| && i < |w| && u[..i] == w[..i] && u[i] < w[i] ==>
      !NodeKey.IsDigit(w[i])
  }

  ghost predicate OnlyPrefixes(words: set<string>, ps: seq<string>) {
    forall a :: a in ps && a != "" ==> exists w :: w in words && a <= w
  }

  lemma IndexableLabels(words: set<string>, ps: seq<string>, a: string)
    requires Indexable(words) && OnlyPrefixes(words, ps) && a != ""
    ensures NodeKey.PlainLabels(Labels(ps, a))
  {
    forall c, d | c in Labels(ps, a) && d in Labels(ps, a) && c < d ensures !NodeKey.IsDigit(d) {
      assert Next(ps, a, c) && Next(ps, a, d);
      var u :| u in words && a + [c] <= u;
      var w :| w in words && a + [d] <= w;
      var i := |a|;
      assert u[..i] == (a + [c])[..i] == a && w[..i] == (a + [d])[..i] == a;
      assert u[i] == (a + [c])[i] && w[i] == (a + [d])[i];
    }
  }

  lemma IndexableIsApart(words: set<string>, ps: seq<string>, first: nat)
    requires Indexable(words) && Complete(words, ps) && OnlyPrefixes(words, ps)
    ensures Apart(words, ps, first)
  {
    hide Complete, Labels, Same, Indexable, OnlyPrefixes, NodeKey.PlainLabels;
    forall a, b | a in ps && b in ps && a != "" && b != "" && Key(words, ps, first, a) == Key(words, ps, first, b)
      ensures Same(words, a, b)
    {
      IndexableLabels(words, ps, a);
      IndexableLabels(words, ps, b);
      var p, q := Targets(words, ps, first, a), Targets(words, ps, first, b);
      assert p.Keys == Labels(ps, a) && q.Keys == Labels(ps, b);
      NodeKey.PlainKeysTell(a in words, p, b in words, q);
      SameTargetsSame(words, ps, first, a, b);
    }
  }

  lemma TargetsAreEven(words: set<string>, ps: seq<string>, first: nat, a: string, width: nat)
    requires ps != [] && |NodeKey.Decimal(first)| == |NodeKey.Decimal(first + |ps| - 1)| == width
    ensures var m := Targets(words, ps, first, a); forall c :: c in m ==> |NodeKey.Decimal(m[c])| == width
  {
    hide Labels, Same, NodeKey.Decimal;
    var m := Targets(words, ps, first, a);
    forall c | c in m ensures |NodeKey.Decimal(m[c])| == width {
      NodeKey.LongerDecimal(first, m[c]);
      NodeKey.LongerDecimal(m[c], first + |ps| - 1);
    }
  }

  lemma EvenIdsAreApart(words: set<string>, ps: seq<string>, first: nat)
    requires Complete(words, ps) && ps != [] && |NodeKey.Decimal(first)| == |NodeKey.Decimal(first + |ps| - 1)|
    ensures Apart(words, ps, first)
  {
    hide Complete, Labels, Same, NodeKey.Decimal;
    var width := |NodeKey.Decimal(first)|;
    forall a, b | a in ps && b in ps && a != "" && b != "" && Key(words, ps, first, a) == Key(words, ps, first, b)
      ensures Same(words, a, b)
    {
      var p, q := Targets(words, ps, first, a), Targets(words, ps, first, b);
      TargetsAreEven(words, ps, first, a, width);
      TargetsAreEven(words, ps, first, b, width);
      NodeKey.EvenKeysTell(a in words, p, b in words, q, width);
      SameTargetsSame(words, ps, first, a, b);
    }
  }

  lemma TrieIsComplete(arr: seq<string>)
    ensures Complete(WordsOf(arr), Trie(arr)) && OnlyPrefixes(WordsOf(arr), Trie(arr))
  {
    hide Trie;
    forall w, a | w in WordsOf(arr) && a <= w ensures a in Trie(arr) { TrieIsPrefixes(arr, a); }
    forall a | a in Trie(arr) && a != "" ensures exists w :: w in WordsOf(arr) && a <= w {
      TrieIsPrefixes(arr, a);
      var w :| w in arr && a <= w;
      assert w in WordsOf(arr);
    }
  }

  /** The nodes of indexable lists can be told apart whatever their ids are... */
  lemma IndexableIsTelling(arr: seq<string>, first: nat)
    requires Indexable(WordsOf(arr))
    ensures Telling(arr, first)
  {
    hide Apart, Indexable, Trie;
    TrieIsComplete(arr);
    IndexableIsApart(WordsOf(arr), Trie(arr), first);
  }

  /** ...and so can those of all lists whose ids have equally many digits. */
  lemma EvenIdsAreTelling(arr: seq<string>, first: nat)
    requires |NodeKey.Decimal(first)| == |NodeKey.Decimal(first + |Trie(arr)| - 1)|
    ensures Telling(arr, first)
  {
    hide Apart, NodeKey.Decimal;
    TrieIsComplete(arr);
    EvenIdsAreApart(WordsOf(arr), Trie(arr), first);
  }
}
