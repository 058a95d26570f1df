/** Edit distance queries: the reference relation, and the work-list invariant that makes
    the automaton of fromFuzzyString accept exactly that relation. */
module Fuzzy {
  import opened TokenGraph
  import WorkStack

  // ---------------------------------------------------------------- reference meaning

  /** A query character stands for itself, and '*' for any one character. */
  predicate Stands(q: char, c: char) { q == c || q == WILDCARD }

  /** w is s after at most k edits, taken from left to right: keep a character, insert one,
      delete one, substitute one, or swap two neighbours (the swapped-in character is final,
      the other one may be edited again). */
  ghost predicate Near(s: string, k: nat, w: string)
    decreases |s| + |w| + k
  {
    || (s == "" && w == "")
    || (s != "" && w != "" && Stands(s[0], w[0]) && Near(s[1..], k, w[1..]))
    || (k > 0 && w != "" && Near(s, k - 1, w[1..]))
    || (k > 0 && s != "" && Near(s[1..], k - 1, w))
    || (k > 0 && s != "" && w != "" && Near(s[1..], k - 1, w[1..]))
    || (k > 0 && |s| > 1 && w != "" && Stands(s[1], w[0]) && Near([s[0]] + s[2..], k - 1, w[1..]))
  }

  lemma {:induction false} NearEmpty(k: nat, w: string)
    ensures Near("", k, w) <==> |w| <= k
    decreases k + |w|
  {
    if k > 0 && w != "" { NearEmpty(k - 1, w[1..]); }
  }

  /** A star in a term that allows edits is any one character, not a wildcard. */
  lemma NearStar(w: string)
    ensures Near("*", 0, w) <==> |w| == 1
  {
    if w != "" { NearEmpty(0, w[1..]); }
  }

  lemma NearNothing(s: string, k: nat)
    requires |s| == 1 && k > 0
    ensures Near(s, k, "")
  {
    assert Near(s[1..], k - 1, "");
  }

  // ---------------------------------------------------------------- work list

  datatype Frame<T> = Frame(node: T, edits: nat, str: string)

  /** Whatever is near `str` within `edits`, e accepts behind one more character that c stands for. */
  ghost predicate Consumes<T>(e: Frame<T>, c: char, edits: nat, str: string) {
    forall d, u :: Stands(c, d) && Near(str, edits, u) ==> Near(e.str, e.edits, [d] + u)
  }

  ghost predicate Within<T>(h: Frame<T>, e: Frame<T>) {
    forall u :: Near(h.str, h.edits, u) ==> Near(e.str, e.edits, u)
  }

  /** f claims nothing that its ancestors do not claim. */
  ghost predicate Warranted<T>(t: Tree<T>, seen: set<Frame<T>>, first: Frame<T>, f: Frame<T>) {
    if f.node == first.node then Within(f, first)
    else f.node in t.parent
         && exists e :: e in seen && e.node == t.parent[f.node].0 && Consumes(e, t.parent[f.node].1, f.edits, f.str)
  }

  ghost predicate Earned<T>(seen: set<Frame<T>>, n: T) {
    exists f :: f in seen && f.node == n && Near(f.str, f.edits, "")
  }

  /** For an empty term nothing ever comes back to the root or makes it final. */
  ghost predicate RootOpen<T>(t: Tree<T>, seen: set<Frame<T>>, first: Frame<T>)
    requires first.node in t.graph
  {
    first.str == "" ==> !t.graph[first.node].final && forall f :: f in seen && f.node == first.node ==> f.str == ""
  }

  ghost predicate Inv<T>(t: Tree<T>, seen: set<Frame<T>>, first: Frame<T>) {
    && IsTree(first.node, t)
    && first in seen
    && RootOpen(t, seen, first)
    && (forall f :: f in seen ==> f.node in t.graph && Warranted(t, seen, first, f))
    && (forall f :: f in seen && f.str == "" ==> f == first || t.graph[f.node].final)
    && (forall n :: n in t.graph && t.graph[n].final ==> Earned(seen, n))
  }

  // ---------------------------------------------------------------- progress

  /** The edge, the frame behind it and its finality are all in place. */
  ghost predicate Has<T>(g: Graph<T>, seen: set<Frame<T>>, n: T, c: char, edits: nat, str: string) {
    && n in g && c in g[n].edges && g[n].edges[c] in g
    && Frame(g[n].edges[c], edits, str) in seen
    && (str == "" ==> g[g[n].edges[c]].final)
  }

  /** The six things one pass over a frame does, in the order of the source: keep, insert,
      delete, delete the last character, substitute, transpose. */
  predicate Applies<T>(f: Frame<T>, move: nat) {
    match move
    case 1 => f.str != ""
    case 2 => f.edits > 0
    case 3 => f.edits > 0 && |f.str| > 1
    case 4 => f.edits > 0 && |f.str| == 1
    case 5 => f.edits > 0 && f.str != ""
    case 6 => f.edits > 0 && |f.str| > 1
    case _ => false
  }

  predicate FollowsEdge(move: nat) { move == 1 || move == 2 || move == 5 || move == 6 }

  /** The edge a move takes and the frame it leaves behind that edge. */
  function Edge<T>(f: Frame<T>, move: nat): (char, nat, string)
    requires Applies(f, move) && FollowsEdge(move)
  {
    match move
    case 1 => (f.str[0], f.edits, f.str[1..])
    case 2 => (WILDCARD, f.edits - 1, f.str)
    case 5 => (WILDCARD, f.edits - 1, f.str[1..])
    case _ => (f.str[1], f.edits - 1, [f.str[0]] + f.str[2..])
  }

  ghost predicate Achieved<T>(g: Graph<T>, seen: set<Frame<T>>, f: Frame<T>, move: nat)
    requires Applies(f, move)
  {
    f.node in g &&
    if FollowsEdge(move) then var (c, edits, str) := Edge(f, move); Has(g, seen, f.node, c, edits, str)
    else if move == 3 then Frame(f.node, f.edits - 1, f.str[1..]) in seen
    else g[f.node].final
  }

  /** The first `moves` things have been done for f. */
  ghost predicate Settled<T>(g: Graph<T>, seen: set<Frame<T>>, f: Frame<T>, moves: nat) {
    forall m {:trigger Applies(f, m)} :: 1 <= m <= moves && Applies(f, m) ==> Achieved(g, seen, f, m)
  }

  lemma SettledStays<T>(g: Graph<T>, g': Graph<T>, seen: set<Frame<T>>, seen': set<Frame<T>>, f: Frame<T>, moves: nat)
    requires Grows(g, g') && seen <= seen' && Settled(g, seen, f, moves)
    ensures Settled(g', seen', f, moves)
  {
  }

  // ---------------------------------------------------------------- steps

  lemma WarrantStays<T>(t: Tree<T>, t': Tree<T>, seen: set<Frame<T>>, seen': set<Frame<T>>, first: Frame<T>,
                        f: Frame<T>)
    requires Warranted(t, seen, first, f) && seen <= seen'
    requires forall m :: m in t.parent ==> m in t'.parent && t'.parent[m] == t.parent[m]
    ensures Warranted(t', seen', first, f)
  {
    if f.node != first.node {
      var e :| e in seen && e.node == t.parent[f.node].0 && Consumes(e, t.parent[f.node].1, f.edits, f.str);
      assert e in seen';
    }
  }

  /** Pushing a frame behind an edge; the edge is made final exactly when nothing of the
      string is left. */
  lemma PushKeepsInv<T>(t: Tree<T>, seen: set<Frame<T>>, first: Frame<T>, f: Frame<T>, c: char, next: T, edits: nat,
                        str: string)
    requires Inv(t, seen, first) && f in seen && CanGraft(first.node, t, f.node, c, next)
    requires Consumes(f, c, edits, str)
    ensures var t' := Graft(first.node, t, f.node, c, next, str == "");
            var seen' := seen + {Frame(next, edits, str)};
            Inv(t', seen', first) && Grows(t.graph, t'.graph) && Has(t'.graph, seen', f.node, c, edits, str)
  {
    hide Near, IsTree, Graft, Within, Consumes;
    var t' := Graft(first.node, t, f.node, c, next, str == "");
    var h := Frame(next, edits, str);
    var seen' := seen + {h};
    assert str == "" ==> Near(str, edits, "") by { if str == "" { NearEmpty(edits, ""); } }
    GraftIsTree(first.node, t, f.node, c, next, str == "");
    assert f in seen' && h in seen';
    assert Warranted(t', seen', first, h);
    forall e | e in seen ensures Warranted(t', seen', first, e) {
      WarrantStays(t, t', seen, seen', first, e);
    }
    forall n | n in t'.graph && t'.graph[n].final ensures Earned(seen', n) {
      if n in t.graph && t.graph[n].final {
        var e :| e in seen && e.node == n && Near(e.str, e.edits, "");
        assert e in seen';
      } else {
        assert h.node == n && Near(h.str, h.edits, "");
      }
    }
  }

  /** Deleting a character spends an edit and claims nothing new. */
  lemma DeletionWithin<T>(f: Frame<T>)
    requires f.edits > 0 && f.str != ""
    ensures Within(Frame(f.node, f.edits - 1, f.str[1..]), f)
  {
  }

  lemma WarrantPassesOn<T>(t: Tree<T>, seen: set<Frame<T>>, first: Frame<T>, f: Frame<T>, h: Frame<T>)
    requires Warranted(t, seen, first, f) && Within(h, f) && h.node == f.node
    ensures Warranted(t, seen, first, h)
  {
    hide Near;
    if f.node != first.node {
      var e :| e in seen && e.node == t.parent[f.node].0 && Consumes(e, t.parent[f.node].1, f.edits, f.str);
      assert Consumes(e, t.parent[f.node].1, h.edits, h.str);
    }
  }

  /** Pushing the frame of a deletion, which stays on the same node. */
  lemma DeletionKeepsInv<T>(t: Tree<T>, seen: set<Frame<T>>, first: Frame<T>, f: Frame<T>)
    requires Inv(t, seen, first) && f in seen && f.edits > 0 && |f.str| > 1
    ensures Inv(t, seen + {Frame(f.node, f.edits - 1, f.str[1..])}, first)
  {
    hide Near, IsTree, Within, Consumes;
    var h := Frame(f.node, f.edits - 1, f.str[1..]);
    var seen' := seen + {h};
    forall e | e in seen ensures Warranted(t, seen', first, e) {
      WarrantStays(t, t, seen, seen', first, e);
    }
    DeletionWithin(f);
    WarrantPassesOn(t, seen', first, f, h);
    forall n | n in t.graph && t.graph[n].final ensures Earned(seen', n) {
      var e :| e in seen && e.node == n && Near(e.str, e.edits, "");
      assert e in seen';
    }
  }

  /** Deleting the last character only makes the node final; no frame is pushed. */
  lemma LastDeletionKeepsInv<T>(t: Tree<T>, seen: set<Frame<T>>, first: Frame<T>, f: Frame<T>)
    requires Inv(t, seen, first) && f in seen && f.edits > 0 && |f.str| == 1
    ensures var t' := MadeFinal(t, f.node);
            Inv(t', seen, first) && Grows(t.graph, t'.graph) && t'.graph[f.node].final
  {
    hide Near, Within, Consumes, IsTree, Grows;
    var t' := MadeFinal(t, f.node);
    MadeFinalIsTree(first.node, t, f.node);
    forall e | e in seen ensures Warranted(t', seen, first, e) {
      WarrantStays(t, t', seen, seen, first, e);
    }
    NearNothing(f.str, f.edits);
  }

  lemma MoveConsumes<T>(f: Frame<T>, move: nat)
    requires Applies(f, move) && FollowsEdge(move)
    ensures var (c, edits, str) := Edge(f, move); Consumes(f, c, edits, str)
  {
    var (c, edits, str) := Edge(f, move);
    forall d, u | Stands(c, d) && Near(str, edits, u) ensures Near(f.str, f.edits, [d] + u) {
      assert ([d] + u)[1..] == u;
    }
  }

  // ---------------------------------------------------------------- a pass over one frame

  ghost predicate AllSettledBut<T>(g: Graph<T>, seen: set<Frame<T>>, open: set<Frame<T>>) {
    forall e {:trigger Settled(g, seen, e, 6)} :: e in seen && e !in open ==> Settled(g, seen, e, 6)
  }

  /** Between passes: everything pushed is pending or done with. */
  ghost predicate Idle<T>(t: Tree<T>, seen: set<Frame<T>>, stack: seq<Frame<T>>, first: Frame<T>) {
    && Inv(t, seen, first)
    && (forall e :: e in stack ==> e in seen)
    && AllSettledBut(t.graph, seen, set e | e in stack)
  }

  ghost function Rank<T>(f: Frame<T>): nat { |f.str| + f.edits }

  /** Number of frames the first `moves` things can have pushed; the fourth pushes none. */
  function Pushes(moves: nat): nat { if moves < 4 then moves else moves - 1 }

  /** During the pass over f: `stack` is what was pending plus a few smaller frames. */
  ghost predicate Working<T>(t: Tree<T>, seen: set<Frame<T>>, rest: seq<Frame<T>>, stack: seq<Frame<T>>,
                             first: Frame<T>, f: Frame<T>, moves: nat) {
    && Inv(t, seen, first) && f in seen
    && (forall e :: e in stack ==> e in seen)
    && AllSettledBut(t.graph, seen, (set e | e in stack) + {f})
    && Settled(t.graph, seen, f, moves)
    && rest <= stack && |stack| <= |rest| + Pushes(moves)
    && (forall i :: |rest| <= i < |stack| ==> Rank(stack[i]) < Rank(f))
  }

  lemma Begin<T>(t: Tree<T>, first: Frame<T>)
    requires IsTree(first.node, t) && t.graph == map[first.node := Node(false, map[])]
    ensures Idle(t, {first}, [first], first)
  {
  }

  lemma Pop<T>(t: Tree<T>, seen: set<Frame<T>>, stack: seq<Frame<T>>, first: Frame<T>)
    requires Idle(t, seen, stack, first) && stack != []
    ensures var rest, f := stack[..|stack| - 1], stack[|stack| - 1];
            f.node in t.graph && IsTree(first.node, t) && Working(t, seen, rest, rest, first, f, 0)
  {
    var rest, f := stack[..|stack| - 1], stack[|stack| - 1];
    assert f in stack && (set e | e in stack) == (set e | e in rest) + {f};
  }

  lemma InHand<T>(t: Tree<T>, seen: set<Frame<T>>, rest: seq<Frame<T>>, stack: seq<Frame<T>>, first: Frame<T>,
                  f: Frame<T>, moves: nat)
    requires Working(t, seen, rest, stack, first, f, moves)
    ensures IsTree(first.node, t) && f.node in t.graph
  {
  }

  lemma Skip<T>(t: Tree<T>, seen: set<Frame<T>>, rest: seq<Frame<T>>, stack: seq<Frame<T>>, first: Frame<T>,
                f: Frame<T>, moves: nat)
    requires Working(t, seen, rest, stack, first, f, moves) && !Applies(f, moves + 1)
    ensures Working(t, seen, rest, stack, first, f, moves + 1)
  {
  }

  /** Without edits left only the first move can apply. */
  lemma SkipEdits<T>(t: Tree<T>, seen: set<Frame<T>>, rest: seq<Frame<T>>, stack: seq<Frame<T>>, first: Frame<T>,
                     f: Frame<T>)
    requires Working(t, seen, rest, stack, first, f, 1) && f.edits == 0
    ensures Working(t, seen, rest, stack, first, f, 6)
  {
    Skip(t, seen, rest, stack, first, f, 1);
    Skip(t, seen, rest, stack, first, f, 2);
    Skip(t, seen, rest, stack, first, f, 3);
    Skip(t, seen, rest, stack, first, f, 4);
    Skip(t, seen, rest, stack, first, f, 5);
  }

  /** What stays settled when the automaton grows and one frame h is pushed. */
  lemma StaysSettled<T>(g: Graph<T>, g': Graph<T>, seen: set<Frame<T>>, h: Frame<T>, open: set<Frame<T>>,
                        open': set<Frame<T>>)
    requires Grows(g, g') && AllSettledBut(g, seen, open) && open <= open' && h in open'
    ensures AllSettledBut(g', seen + {h}, open')
  {
    forall e | e in seen + {h} && e !in open' ensures Settled(g', seen + {h}, e, 6) {
      SettledStays(g, g', seen, seen + {h}, e, 6);
    }
  }

  lemma Follow<T>(t: Tree<T>, seen: set<Frame<T>>, rest: seq<Frame<T>>, stack: seq<Frame<T>>, first: Frame<T>,
                  f: Frame<T>, moves: nat, next: T)
    requires Working(t, seen, rest, stack, first, f, moves)
    requires Applies(f, moves + 1) && FollowsEdge(moves + 1)
    requires var (c, edits, str) := Edge(f, moves + 1); CanGraft(first.node, t, f.node, c, next)
    ensures var (c, edits, str) := Edge(f, moves + 1);
            var h := Frame(next, edits, str);
            Working(Graft(first.node, t, f.node, c, next, str == ""), seen + {h}, rest, stack + [h], first, f,
                    moves + 1)
  {
    hide Inv, Near, IsTree, Graft, Consumes, Grows;
    InHand(t, seen, rest, stack, first, f, moves);
    var (c, edits, str) := Edge(f, moves + 1);
    var h := Frame(next, edits, str);
    MoveConsumes(f, moves + 1);
    PushKeepsInv(t, seen, first, f, c, next, edits, str);
    var t' := Graft(first.node, t, f.node, c, next, str == "");
    StaysSettled(t.graph, t'.graph, seen, h, (set e | e in stack) + {f}, (set e | e in stack + [h]) + {f});
    SettledStays(t.graph, t'.graph, seen, seen + {h}, f, moves);
    assert Achieved(t'.graph, seen + {h}, f, moves + 1);
  }

  lemma Delete<T>(t: Tree<T>, seen: set<Frame<T>>, rest: seq<Frame<T>>, stack: seq<Frame<T>>, first: Frame<T>,
                  f: Frame<T>)
    requires Working(t, seen, rest, stack, first, f, 2) && Applies(f, 3)
    ensures var h := Frame(f.node, f.edits - 1, f.str[1..]);
            Working(t, seen + {h}, rest, stack + [h], first, f, 3)
  {
    var h := Frame(f.node, f.edits - 1, f.str[1..]);
    DeletionKeepsInv(t, seen, first, f);
    StaysSettled(t.graph, t.graph, seen, h, (set e | e in stack) + {f}, (set e | e in stack + [h]) + {f});
    SettledStays(t.graph, t.graph, seen, seen + {h}, f, 2);
    assert Achieved(t.graph, seen + {h}, f, 3);
  }

  lemma DeleteLast<T>(t: Tree<T>, seen: set<Frame<T>>, rest: seq<Frame<T>>, stack: seq<Frame<T>>, first: Frame<T>,
                      f: Frame<T>)
    requires Working(t, seen, rest, stack, first, f, 3) && Applies(f, 4)
    ensures f.node in t.graph
    ensures Working(MadeFinal(t, f.node), seen, rest, stack, first, f, 4)
  {
    var t' := MadeFinal(t, f.node);
    LastDeletionKeepsInv(t, seen, first, f);
    assert seen + {f} == seen;
    StaysSettled(t.graph, t'.graph, seen, f, (set e | e in stack) + {f}, (set e | e in stack) + {f});
    SettledStays(t.graph, t'.graph, seen, seen, f, 3);
    assert Achieved(t'.graph, seen, f, 4);
  }

  ghost function Ranks<T>(stack: seq<Frame<T>>): (r: seq<nat>)
    ensures |r| == |stack| && forall i :: 0 <= i < |stack| ==> r[i] == Rank(stack[i])
  {
    seq(|stack|, i requires 0 <= i < |stack| => Rank(stack[i]))
  }

  /** A finished pass leaves at most five frames, all smaller than the one popped. */
  lemma Finish<T>(t: Tree<T>, seen: set<Frame<T>>, rest: seq<Frame<T>>, stack: seq<Frame<T>>, first: Frame<T>,
                  f: Frame<T>)
    requires Working(t, seen, rest, stack, first, f, 6)
    ensures Idle(t, seen, stack, first)
    ensures WorkStack.Weight(5, Ranks(stack)) < WorkStack.Weight(5, Ranks(rest + [f]))
  {
    hide Inv, Settled;
    forall e | e in seen && e !in (set e | e in stack) ensures Settled(t.graph, seen, e, 6) {}
    var pushed := stack[|rest|..];
    assert Ranks(stack) == Ranks(rest) + Ranks(pushed);
    assert Ranks(rest + [f]) == Ranks(rest) + [Rank(f)];
    WorkStack.PopAndPushShrinks(5, Ranks(rest), Rank(f), Ranks(pushed));
  }

  // ---------------------------------------------------------------- the outcome

  lemma {:induction false} Sound<T>(t: Tree<T>, seen: set<Frame<T>>, first: Frame<T>, n: T, u: string)
    returns (f: Frame<T>)
    requires Inv(t, seen, first) && Matches(t.graph, n, u)
    ensures f in seen && f.node == n && Near(f.str, f.edits, u)
    decreases |u|
  {
    if u == "" {
      assert Earned(seen, n);
      f :| f in seen && f.node == n && Near(f.str, f.edits, "");
    } else {
      var c := if u[0] in t.graph[n].edges && Matches(t.graph, t.graph[n].edges[u[0]], u[1..]) then u[0] else WILDCARD;
      var next := t.graph[n].edges[c];
      var h := Sound(t, seen, first, next, u[1..]);
      assert t.parent[next] == (n, c);
      assert Warranted(t, seen, first, h);
      f :| f in seen && f.node == n && Consumes(f, c, h.edits, h.str);
      assert Stands(c, u[0]) && [u[0]] + u[1..] == u;
    }
  }

  /** Where the next move of an edit script leads: a character is consumed by the edge
      `label`, or the node stays (no label) because a character is deleted. */
  datatype Move = Stop | Via(ch: char, edits: nat, str: string) | Drop(edits: nat, str: string)

  ghost function NextMove(s: string, k: nat, u: string): (m: Move)
    requires Near(s, k, u)
    ensures m.Stop? ==> u == ""
    ensures m.Drop? ==> k > 0 && |s| > 1 && m == Drop(k - 1, s[1..]) && Near(m.str, m.edits, u)
    ensures m.Via? ==> u != "" && Stands(m.ch, u[0]) && Near(m.str, m.edits, u[1..]) && |m.str| + m.edits <= |s| + k
    ensures m.Via? ==>
              || (s != "" && m == Via(s[0], k, s[1..]))
              || (k > 0 && m == Via(WILDCARD, k - 1, s))
              || (k > 0 && s != "" && m == Via(WILDCARD, k - 1, s[1..]))
              || (k > 0 && |s| > 1 && m == Via(s[1], k - 1, [s[0]] + s[2..]))
    ensures m.Stop? ==> s == "" || (|s| == 1 && k > 0)
  {
    if s == "" && u == "" then Stop
    else if s != "" && u != "" && Stands(s[0], u[0]) && Near(s[1..], k, u[1..]) then Via(s[0], k, s[1..])
    else if k > 0 && u != "" && Near(s, k - 1, u[1..]) then Via(WILDCARD, k - 1, s)
    else if k > 0 && s != "" && Near(s[1..], k - 1, u) then
      if |s| > 1 then Drop(k - 1, s[1..])
      else if u == "" then Stop
      else
        // No frame stands for deleting the last character and inserting others instead:
        // substituting it and inserting the rest is never longer.
        NearEmpty(k - 1, u); NearEmpty(k - 1, u[1..]);
        Via(WILDCARD, k - 1, s[1..])
    else if k > 0 && s != "" && u != "" && Near(s[1..], k - 1, u[1..]) then Via(WILDCARD, k - 1, s[1..])
    else Via(s[1], k - 1, [s[0]] + s[2..])
  }

  /** Every move of a settled frame is backed by an edge and a frame. */
  lemma MoveIsBacked<T>(g: Graph<T>, seen: set<Frame<T>>, f: Frame<T>, u: string)
    requires Settled(g, seen, f, 6) && Near(f.str, f.edits, u)
    ensures var m := NextMove(f.str, f.edits, u);
            && (m.Via? ==> Has(g, seen, f.node, m.ch, m.edits, m.str))
            && (m.Drop? ==> Frame(f.node, m.edits, m.str) in seen)
            && (m.Stop? && f.str != "" ==> f.node in g && g[f.node].final)
  {
    var k := f.edits;
    assert f.str != "" ==> Applies(f, 1);
    assert k > 0 ==> Applies(f, 2);
    assert k > 0 && f.str != "" ==> Applies(f, 5);
    assert k > 0 && |f.str| > 1 ==> Applies(f, 3) && Applies(f, 6);
    assert k > 0 && |f.str| == 1 ==> Applies(f, 4);
  }

  lemma {:induction false} Complete<T>(t: Tree<T>, seen: set<Frame<T>>, f: Frame<T>, u: string)
    requires AllSettledBut(t.graph, seen, {}) && f in seen && f.node in t.graph
    requires Near(f.str, f.edits, u)
    requires f.str == "" && u == "" ==> t.graph[f.node].final
    ensures Matches(t.graph, f.node, u)
    decreases |f.str| + |u| + f.edits
  {
    assert Settled(t.graph, seen, f, 6);
    MoveIsBacked(t.graph, seen, f, u);
    match NextMove(f.str, f.edits, u)
    case Stop =>
    case Drop(edits, str) =>
      Complete(t, seen, Frame(f.node, edits, str), u);
    case Via(ch, edits, str) =>
      Complete(t, seen, Frame(t.graph[f.node].edges[ch], edits, str), u[1..]);
  }

  /** With no frame pending the automaton matches exactly the words near the query, but not the
      empty word for the empty query, which has no edge and no final node to be matched by. */
  lemma Outcome<T>(t: Tree<T>, seen: set<Frame<T>>, first: Frame<T>)
    requires Idle(t, seen, [], first)
    ensures Closed(t.graph)
    ensures forall w :: Matches(t.graph, first.node, w) <==>
              (first.str != "" || w != "") && Near(first.str, first.edits, w)
  {
    assert AllSettledBut(t.graph, seen, {});
    forall w | first.str != "" || w != ""
      ensures Matches(t.graph, first.node, w) <==> Near(first.str, first.edits, w)
    {
      if Matches(t.graph, first.node, w) {
        var f := Sound(t, seen, first, first.node, w);
        assert Warranted(t, seen, first, f);
      }
      if Near(first.str, first.edits, w) {
        Complete(t, seen, first, w);
      }
    }
  }
}
