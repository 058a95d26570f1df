/** The work-list walk of toArray: `seen` is every frame pushed so far, `stack` the pending
    ones, `words` what has been collected. */
module Enumeration {
  import opened TokenGraph
  import WorkStack

  datatype Frame<T> = Frame(prefix: string, node: T)

  ghost predicate NoRepeats<T>(s: seq<T>) {
    forall i, j :: 0 <= i < j < |s| ==> s[i] != s[j]
  }

  lemma {:induction false} ListedOnce<T>(s: seq<T>, elements: set<T>)
    requires NoRepeats(s) && forall x :: x in s <==> x in elements
    ensures |s| == |elements|
    decreases |s|
  {
    if s != [] {
      var init, last := s[..|s| - 1], s[|s| - 1];
      assert s == init + [last] && last in s;
      assert last !in init && forall x :: x in init <==> x in elements - {last};
      ListedOnce(init, elements - {last});
    } else {
      assert elements == {};
    }
  }

  ghost predicate Listed<T>(g: Graph<T>, seen: set<Frame<T>>, words: seq<string>, f: Frame<T>)
    requires f.node in g
  {
    && (g[f.node].final ==> f.prefix in words)
    && forall c :: c in g[f.node].edges ==> Frame(f.prefix + [c], g[f.node].edges[c]) in seen
  }

  ghost predicate Found<T>(g: Graph<T>, seen: set<Frame<T>>, stack: seq<Frame<T>>, w: string) {
    exists f :: f in seen && f !in stack && f.prefix == w && f.node in g && g[f.node].final
  }

  /** No pending prefix is a prefix of anything else ever pushed, which is why nothing is
      listed twice. */
  ghost predicate Separate<T>(seen: set<Frame<T>>, stack: seq<Frame<T>>) {
    forall f, h :: f in seen && h in stack && h.prefix <= f.prefix ==> f == h
  }

  ghost predicate Inv<T>(g: Graph<T>, root: T, seen: set<Frame<T>>, stack: seq<Frame<T>>, words: seq<string>) {
    && Closed(g) && Frame("", root) in seen
    && (forall f :: f in stack ==> f in seen)
    && Placed(g, root, seen)
    && Separate(seen, stack)
    && NoRepeats(stack) && NoRepeats(words)
    && (forall w :: w in words ==> Found(g, seen, stack, w))
    && AllListed(g, seen, stack, words)
  }

  ghost predicate Placed<T>(g: Graph<T>, root: T, seen: set<Frame<T>>) {
    forall f :: f in seen ==> f.node in g && Leads(g, root, f.prefix, f.node)
  }

  ghost predicate AllListed<T>(g: Graph<T>, seen: set<Frame<T>>, stack: seq<Frame<T>>, words: seq<string>) {
    forall f {:trigger Listed(g, seen, words, f)} :: f in seen && f !in stack ==>
        f.node in g && Listed(g, seen, words, f)
  }

  /** The frames pushed for a node whose edges are listed as ks. */
  ghost function Children<T>(g: Graph<T>, f: Frame<T>, ks: seq<char>): (r: seq<Frame<T>>)
    requires f.node in g && forall k :: k in ks ==> k in g[f.node].edges
    ensures |r| == |ks|
    ensures forall i :: 0 <= i < |ks| ==> r[i] == Frame(f.prefix + [ks[i]], g[f.node].edges[ks[i]])
  {
    if ks == [] then [] else
      var k := ks[|ks| - 1];
      Children(g, f, ks[..|ks| - 1]) + [Frame(f.prefix + [k], g[f.node].edges[k])]
  }

  lemma SeparateUnion<T>(seen: set<Frame<T>>, rest: seq<Frame<T>>, pushed: seq<Frame<T>>)
    requires Separate(seen, rest) && NoRepeats(rest) && NoRepeats(pushed)
    requires forall f :: f in rest ==> f in seen
    requires forall e, f :: e in pushed && f in seen ==> !(e.prefix <= f.prefix)
    requires forall e, f :: e in rest && f in pushed ==> !(e.prefix <= f.prefix)
    requires forall e, f :: e in pushed && f in pushed && e.prefix <= f.prefix ==> f == e
    ensures Separate(seen + (set f | f in pushed), rest + pushed)
    ensures NoRepeats(rest + pushed)
  {
    forall f, e | f in seen + (set f | f in pushed) && e in rest + pushed && e.prefix <= f.prefix ensures f == e {
      assert f in seen || f in pushed;
      assert e in rest || e in pushed;
    }
    var all := rest + pushed;
    forall a, b | 0 <= a < b < |all| ensures all[a] != all[b] {
      if a < |rest| <= b {
        assert rest[a] in seen && pushed[b - |rest|] in pushed;
        assert pushed[b - |rest|].prefix <= pushed[b - |rest|].prefix;
      }
    }
  }

  /** A child of a pending frame extends nothing that is pending, and nothing pushed so far
      extends it. */
  lemma ChildIsNew<T>(seen: set<Frame<T>>, rest: seq<Frame<T>>, h: Frame<T>, p: string)
    requires h in seen && h !in rest && Separate(seen, rest + [h]) && forall f :: f in rest ==> f in seen
    requires h.prefix <= p && |p| == |h.prefix| + 1
    ensures forall f :: f in seen ==> !(p <= f.prefix)
    ensures forall f :: f in rest ==> !(f.prefix <= p)
  {
    assert h in rest + [h] && forall e :: e in rest ==> e in rest + [h];
    forall f | f in seen ensures !(p <= f.prefix) {
      assert p <= f.prefix ==> h.prefix <= f.prefix;
    }
    forall f | f in rest ensures !(f.prefix <= p) {
      assert f.prefix <= p ==> f.prefix <= h.prefix || f.prefix == p;
    }
  }

  lemma ChildrenDiffer<T>(g: Graph<T>, h: Frame<T>, ks: seq<char>)
    requires h.node in g && NoRepeats(ks) && forall k :: k in ks ==> k in g[h.node].edges
    ensures var pushed := Children(g, h, ks);
            && NoRepeats(pushed)
            && (forall e, f :: e in pushed && f in pushed && e.prefix <= f.prefix ==> f == e)
  {
    var pushed := Children(g, h, ks);
    forall i | 0 <= i < |pushed|
      ensures |pushed[i].prefix| == |h.prefix| + 1 && pushed[i].prefix[|h.prefix|] == ks[i] {}
  }

  lemma ChildrenAreNew<T>(g: Graph<T>, root: T, seen: set<Frame<T>>, rest: seq<Frame<T>>, h: Frame<T>, ks: seq<char>)
    requires Closed(g) && h.node in g && Leads(g, root, h.prefix, h.node)
    requires forall k :: k in ks ==> k in g[h.node].edges
    requires h in seen && h !in rest && Separate(seen, rest + [h]) && forall f :: f in rest ==> f in seen
    ensures var pushed := Children(g, h, ks);
            && (forall e, f :: e in pushed && f in seen ==> !(e.prefix <= f.prefix))
            && (forall e, f :: e in rest && f in pushed ==> !(e.prefix <= f.prefix))
            && (forall f :: f in pushed ==> f.node in g && Leads(g, root, f.prefix, f.node))
  {
    var pushed := Children(g, h, ks);
    forall e | e in pushed
      ensures forall f :: f in seen ==> !(e.prefix <= f.prefix)
      ensures forall f :: f in rest ==> !(f.prefix <= e.prefix)
      ensures e.node in g && Leads(g, root, e.prefix, e.node)
    {
      var i :| 0 <= i < |ks| && pushed[i] == e;
      LeadsStep(g, root, h.prefix, h.node, ks[i]);
      ChildIsNew(seen, rest, h, e.prefix);
    }
  }

  lemma PopKeepsFrames<T>(g: Graph<T>, root: T, seen: set<Frame<T>>, rest: seq<Frame<T>>, h: Frame<T>, ks: seq<char>)
    requires Closed(g) && Placed(g, root, seen)
    requires h.node in g && NoRepeats(ks) && (forall k :: k in ks <==> k in g[h.node].edges)
    requires h in seen && h !in rest && NoRepeats(rest) && Separate(seen, rest + [h]) && Separate(seen, rest)
    requires forall f :: f in rest ==> f in seen
    ensures var pushed := Children(g, h, ks);
            var seen' := seen + (set f | f in pushed);
            && Placed(g, root, seen')
            && Separate(seen', rest + pushed) && NoRepeats(rest + pushed)
            && (forall f :: f in pushed ==> f !in seen)
  {
    var pushed := Children(g, h, ks);
    assert Leads(g, root, h.prefix, h.node);
    ChildrenAreNew(g, root, seen, rest, h, ks);
    ChildrenDiffer(g, h, ks);
    SeparateUnion(seen, rest, pushed);
    forall f | f in pushed ensures f !in seen {
      assert f.prefix <= f.prefix;
    }
  }

  /** Popping a frame, listing its word if it is final and pushing its children. */
  lemma PopKeepsInv<T>(g: Graph<T>, root: T, seen: set<Frame<T>>, stack: seq<Frame<T>>, words: seq<string>,
                       ks: seq<char>)
    requires Inv(g, root, seen, stack, words) && stack != []
    requires var h := stack[|stack| - 1];
             h.node in g && NoRepeats(ks) && (forall k :: k in ks <==> k in g[h.node].edges)
    ensures var h := stack[|stack| - 1];
            var pushed := Children(g, h, ks);
            Inv(g, root, seen + (set f | f in pushed), stack[..|stack| - 1] + pushed,
                if g[h.node].final then words + [h.prefix] else words)
  {
    var h, rest := stack[|stack| - 1], stack[..|stack| - 1];
    var pushed := Children(g, h, ks);
    var seen', stack' := seen + (set f | f in pushed), rest + pushed;
    var words' := if g[h.node].final then words + [h.prefix] else words;
    TopIsApart(seen, rest, stack, h);
    PopKeepsFrames(g, root, seen, rest, h, ks);
    PopKeepsWords(g, root, seen, stack, words, seen', stack', words');
    PopKeepsListed(g, root, seen, stack, words, ks, seen', stack', words');
  }

  lemma TopIsApart<T>(seen: set<Frame<T>>, rest: seq<Frame<T>>, stack: seq<Frame<T>>, h: Frame<T>)
    requires NoRepeats(stack) && Separate(seen, stack) && (forall f :: f in stack ==> f in seen)
    requires stack != [] && h == stack[|stack| - 1] && rest == stack[..|stack| - 1]
    ensures stack == rest + [h] && h in seen && h in stack && h !in rest && NoRepeats(rest)
    ensures (forall f :: f in rest ==> f in seen && f in stack) && Separate(seen, rest)
  {
  }

  lemma PopKeepsWords<T>(g: Graph<T>, root: T, seen: set<Frame<T>>, stack: seq<Frame<T>>, words: seq<string>,
                         seen': set<Frame<T>>, stack': seq<Frame<T>>, words': seq<string>)
    requires Inv(g, root, seen, stack, words) && stack != []
    requires var h := stack[|stack| - 1];
             && seen <= seen' && h !in stack'
             && (forall f :: f in stack' && f in seen ==> f in stack)
             && h in stack && words' == if g[h.node].final then words + [h.prefix] else words
    ensures NoRepeats(words') && forall w :: w in words' ==> Found(g, seen', stack', w)
  {
    var h := stack[|stack| - 1];
    forall i | 0 <= i < |words| ensures Found(g, seen', stack', words[i]) && words[i] != h.prefix {
      assert Found(g, seen, stack, words[i]);
      var f :| f in seen && f !in stack && f.prefix == words[i] && f.node in g && g[f.node].final;
      assert f in seen' && f !in stack';
      assert words[i] == h.prefix ==> h.prefix <= f.prefix;
    }
    assert h in seen';
  }

  lemma PopKeepsListed<T>(g: Graph<T>, root: T, seen: set<Frame<T>>, stack: seq<Frame<T>>, words: seq<string>,
                          ks: seq<char>, seen': set<Frame<T>>, stack': seq<Frame<T>>, words': seq<string>)
    requires Inv(g, root, seen, stack, words) && stack != []
    requires var h := stack[|stack| - 1];
             && h.node in g && (forall k :: k in ks <==> k in g[h.node].edges)
             && (var pushed := Children(g, h, ks);
                 seen' == seen + (set f | f in pushed) && stack' == stack[..|stack| - 1] + pushed)
             && words' == if g[h.node].final then words + [h.prefix] else words
    ensures AllListed(g, seen', stack', words')
  {
    var h := stack[|stack| - 1];
    var pushed := Children(g, h, ks);
    forall f | f in seen' && f !in stack' ensures f.node in g && Listed(g, seen', words', f) {
      if f == h {
        forall c | c in g[h.node].edges ensures Frame(h.prefix + [c], g[h.node].edges[c]) in seen' {
          var i :| 0 <= i < |ks| && ks[i] == c;
          assert pushed[i] in pushed;
        }
      } else {
        assert f in seen && f !in stack;
        assert Listed(g, seen, words, f);
      }
    }
  }

  lemma {:induction false} Complete<T>(g: Graph<T>, root: T, seen: set<Frame<T>>, words: seq<string>, f: Frame<T>,
                                       u: string)
    requires Inv(g, root, seen, [], words) && f in seen && Accepts(g, f.node, u)
    ensures f.prefix + u in words
    decreases |u|
  {
    assert Listed(g, seen, words, f);
    if u == "" {
      assert f.prefix + u == f.prefix;
    } else {
      Complete(g, root, seen, words, Frame(f.prefix + [u[0]], g[f.node].edges[u[0]]), u[1..]);
      assert f.prefix + u == (f.prefix + [u[0]]) + u[1..];
    }
  }

  lemma Start<T>(g: Graph<T>, root: T, rank: map<T, nat>)
    requires Ranked(g, rank) && root in g
    ensures Inv(g, root, {Frame("", root)}, [Frame("", root)], [])
  {
  }

  lemma TopInGraph<T>(g: Graph<T>, root: T, seen: set<Frame<T>>, stack: seq<Frame<T>>, words: seq<string>)
    requires Inv(g, root, seen, stack, words) && stack != []
    ensures stack[|stack| - 1].node in g
  {
    assert stack[|stack| - 1] in seen;
  }

  /** Frames of nodes outside the graph do not occur; they would count nothing. */
  ghost function Ranks<T>(rank: map<T, nat>, stack: seq<Frame<T>>): (r: seq<nat>)
    ensures |r| == |stack|
  {
    seq(|stack|, i requires 0 <= i < |stack| => if stack[i].node in rank then rank[stack[i].node] else 0)
  }

  lemma RanksConcat<T>(rank: map<T, nat>, a: seq<Frame<T>>, b: seq<Frame<T>>)
    ensures Ranks(rank, a + b) == Ranks(rank, a) + Ranks(rank, b)
  {
  }

  lemma ChildRank<T>(g: Graph<T>, rank: map<T, nat>, n: T)
    requires Ranked(g, rank) && n in g
    ensures n in rank && forall c :: c in g[n].edges ==> g[n].edges[c] in rank && rank[g[n].edges[c]] < rank[n]
  {
  }

  lemma PopShrinks<T>(g: Graph<T>, rank: map<T, nat>, fanOut: nat, stack: seq<Frame<T>>, ks: seq<char>)
    requires Ranked(g, rank) && DegreeAtMost(g, fanOut) && stack != []
    requires var h := stack[|stack| - 1];
             h.node in g && |ks| <= |g[h.node].edges| && (forall k :: k in ks ==> k in g[h.node].edges)
    ensures var stack' := stack[..|stack| - 1] + Children(g, stack[|stack| - 1], ks);
            WorkStack.Weight(fanOut, Ranks(rank, stack')) < WorkStack.Weight(fanOut, Ranks(rank, stack))
  {
    hide WorkStack.Weight, Ranked;
    var h, rest := stack[|stack| - 1], stack[..|stack| - 1];
    var pushed := Children(g, h, ks);
    ChildRank(g, rank, h.node);
    RanksConcat(rank, rest, [h]);
    assert stack == rest + [h] && Ranks(rank, [h]) == [rank[h.node]];
    RanksConcat(rank, rest, pushed);
    forall i | 0 <= i < |pushed| ensures Ranks(rank, pushed)[i] < rank[h.node] {
      assert ks[i] in ks;
    }
    WorkStack.PopAndPushShrinks(fanOut, Ranks(rank, rest), rank[h.node], Ranks(rank, pushed));
  }

  /** With nothing pending, the list holds each accepted word once. */
  lemma Outcome<T>(g: Graph<T>, root: T, seen: set<Frame<T>>, words: seq<string>)
    requires Inv(g, root, seen, [], words)
    ensures NoRepeats(words)
    ensures forall w :: w in words <==> Accepts(g, root, w)
  {
    forall w ensures w in words <==> Accepts(g, root, w) {
      if w in words {
        var f :| f in seen && f !in [] && f.prefix == w && f.node in g && g[f.node].final;
        LeadsThenAccepts(g, root, w, f.node, "");
        assert w + "" == w;
      }
      if Accepts(g, root, w) {
        Complete(g, root, seen, words, Frame("", root), w);
        assert "" + w == w;
      }
    }
  }
}
