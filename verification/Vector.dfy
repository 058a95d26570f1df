/** lunr.Vector: a sparse vector kept as a flat list index, value, index, value, ... with
    ascending indices, searched by bisection and multiplied by merging. */
module Vectors {

  datatype Entry = Entry(index: real, value: real)

  /** The flat list read two by two. */
  function Entries(e: seq<real>): (ps: seq<Entry>)
    requires |e| % 2 == 0
    ensures |ps| == |e| / 2
  {
    seq(|e| / 2, k requires 0 <= k < |e| / 2 => Entry(e[2 * k], e[2 * k + 1]))
  }

  predicate Ascending(ps: seq<Entry>) {
    forall i, j :: 0 <= i < j < |ps| ==> ps[i].index < ps[j].index
  }

  /** The finite map the list stands for. */
  function Meaning(ps: seq<Entry>): map<real, real>
    decreases |ps|
  {
    if ps == [] then map[] else
      var last := ps[|ps| - 1];
      Meaning(ps[..|ps| - 1])[last.index := last.value]
  }

  lemma {:induction false} MeaningAt(ps: seq<Entry>, k: nat)
    requires Ascending(ps) && k < |ps|
    ensures ps[k].index in Meaning(ps) && Meaning(ps)[ps[k].index] == ps[k].value
    decreases |ps|
  {
    if k < |ps| - 1 {
      MeaningAt(ps[..|ps| - 1], k);
      assert ps[k].index < ps[|ps| - 1].index;
    }
  }

  lemma {:induction false} MeaningOnly(ps: seq<Entry>, x: real) returns (k: nat)
    requires x in Meaning(ps)
    ensures k < |ps| && ps[k].index == x
    decreases |ps|
  {
    if x == ps[|ps| - 1].index {
      k := |ps| - 1;
    } else {
      k := MeaningOnly(ps[..|ps| - 1], x);
    }
  }

  /** Where an index is or belongs: everything before is smaller, nothing behind is. */
  ghost predicate Divides(ps: seq<Entry>, x: real, p: nat) {
    && p <= |ps|
    && (forall k :: 0 <= k < p ==> ps[k].index < x)
    && (forall k :: p <= k < |ps| ==> x <= ps[k].index)
  }

  /** In an ascending list the two neighbours decide. */
  lemma DividedByNeighbours(ps: seq<Entry>, x: real, p: nat)
    requires Ascending(ps) && p <= |ps|
    requires p > 0 ==> ps[p - 1].index < x || (p < |ps| && ps[p].index == x)
    requires p < |ps| ==> x <= ps[p].index
    ensures Divides(ps, x, p)
  {
  }

  lemma EntryAt(e: seq<real>, p: nat)
    requires |e| % 2 == 0 && 2 * p < |e|
    ensures 2 * p + 1 < |e| && Entries(e)[p] == Entry(e[2 * p], e[2 * p + 1])
  {
  }

  lemma Found(ps: seq<Entry>, x: real, p: nat)
    requires Ascending(ps) && Divides(ps, x, p)
    ensures x in Meaning(ps) <==> p < |ps| && ps[p].index == x
    ensures x in Meaning(ps) ==> Meaning(ps)[x] == ps[p].value
  {
    if x in Meaning(ps) {
      var k := MeaningOnly(ps, x);
      assert k == p;
    }
    if p < |ps| && ps[p].index == x { MeaningAt(ps, p); }
  }

  lemma ReplacedKeeps(ps: seq<Entry>, p: nat, n: Entry, y: real)
    requires Ascending(ps) && p < |ps| && ps[p].index == n.index && y != n.index
    ensures Ascending(ps[p := n])
    ensures y in Meaning(ps) <==> y in Meaning(ps[p := n])
    ensures y in Meaning(ps) ==> Meaning(ps[p := n])[y] == Meaning(ps)[y]
  {
    var qs := ps[p := n];
    assert forall k :: 0 <= k < |ps| ==> qs[k].index == ps[k].index;
    assert Ascending(qs);
    hide Meaning, Ascending;
    if y in Meaning(ps) {
      var k := MeaningOnly(ps, y);
      MeaningAt(ps, k);
      MeaningAt(qs, k);
    } else if y in Meaning(qs) {
      var k := MeaningOnly(qs, y);
      MeaningAt(ps, k);
    }
  }

  lemma ReplacedMeans(ps: seq<Entry>, x: real, v: real, p: nat)
    requires Ascending(ps) && p < |ps| && ps[p].index == x
    ensures Ascending(ps[p := Entry(x, v)]) && Meaning(ps[p := Entry(x, v)]) == Meaning(ps)[x := v]
  {
    hide Meaning, Ascending;
    var qs := ps[p := Entry(x, v)];
    ReplacedKeeps(ps, p, Entry(x, v), x + 1.0);
    MeaningAt(qs, p);
    forall y | y != x
      ensures y in Meaning(ps) <==> y in Meaning(qs)
      ensures y in Meaning(ps) ==> Meaning(qs)[y] == Meaning(ps)[y]
    {
      ReplacedKeeps(ps, p, Entry(x, v), y);
    }
  }

  function Spliced(ps: seq<Entry>, p: nat, n: Entry): (qs: seq<Entry>)
    requires p <= |ps|
    ensures |qs| == |ps| + 1
  {
    ps[..p] + [n] + ps[p..]
  }

  /** The entries of a spliced list, one by one. */
  lemma SplicedAt(ps: seq<Entry>, p: nat, n: Entry, k: nat)
    requires p <= |ps| && k <= |ps|
    ensures Spliced(ps, p, n)[k] == if k < p then ps[k] else if k == p then n else ps[k - 1]
  {
  }

  lemma SplicedAscends(ps: seq<Entry>, x: real, v: real, p: nat)
    requires Ascending(ps) && Divides(ps, x, p) && (p < |ps| ==> ps[p].index != x)
    ensures Ascending(Spliced(ps, p, Entry(x, v)))
  {
    hide Spliced;
    var qs := Spliced(ps, p, Entry(x, v));
    forall i, j | 0 <= i < j < |qs| ensures qs[i].index < qs[j].index {
      SplicedAt(ps, p, Entry(x, v), i);
      SplicedAt(ps, p, Entry(x, v), j);
    }
  }

  lemma SplicedKeeps(ps: seq<Entry>, x: real, v: real, p: nat, y: real)
    requires Ascending(ps) && Divides(ps, x, p) && (p < |ps| ==> ps[p].index != x) && y != x
    ensures var qs := Spliced(ps, p, Entry(x, v));
            && (y in Meaning(ps) <==> y in Meaning(qs))
            && (y in Meaning(ps) ==> Meaning(qs)[y] == Meaning(ps)[y])
  {
    hide Spliced, Meaning, Ascending;
    SplicedAscends(ps, x, v, p);
    var qs := Spliced(ps, p, Entry(x, v));
    if y in Meaning(ps) {
      var k := MeaningOnly(ps, y);
      var k' := if k < p then k else k + 1;
      SplicedAt(ps, p, Entry(x, v), k');
      MeaningAt(ps, k);
      MeaningAt(qs, k');
    } else if y in Meaning(qs) {
      var k := MeaningOnly(qs, y);
      SplicedAt(ps, p, Entry(x, v), k);
      MeaningAt(ps, if k < p then k else k - 1);
    }
  }

  lemma SplicedMeans(ps: seq<Entry>, x: real, v: real, p: nat)
    requires Ascending(ps) && Divides(ps, x, p) && (p < |ps| ==> ps[p].index != x)
    ensures Ascending(Spliced(ps, p, Entry(x, v)))
    ensures Meaning(Spliced(ps, p, Entry(x, v))) == Meaning(ps)[x := v]
  {
    hide Spliced, Meaning, Ascending;
    SplicedAscends(ps, x, v, p);
    var qs := Spliced(ps, p, Entry(x, v));
    SplicedAt(ps, p, Entry(x, v), p);
    MeaningAt(qs, p);
    forall y | y != x
      ensures y in Meaning(ps) <==> y in Meaning(qs)
      ensures y in Meaning(ps) ==> Meaning(qs)[y] == Meaning(ps)[y]
    {
      SplicedKeeps(ps, x, v, p, y);
    }
  }

  lemma EntriesOfSplice(e: seq<real>, p: nat, x: real, v: real)
    requires |e| % 2 == 0 && 2 * p <= |e|
    ensures Entries(e[..2 * p] + [x, v] + e[2 * p..]) == Spliced(Entries(e), p, Entry(x, v))
  {
    var e' := e[..2 * p] + [x, v] + e[2 * p..];
    var ps, qs := Entries(e'), Spliced(Entries(e), p, Entry(x, v));
    forall k | 0 <= k < |ps| ensures ps[k] == qs[k] {
      if k > p { assert qs[k] == Entries(e)[k - 1]; }
    }
  }

  lemma EntriesOfUpdate(e: seq<real>, p: nat, v: real)
    requires |e| % 2 == 0 && 2 * p < |e|
    ensures Entries(e[2 * p + 1 := v]) == Entries(e)[p := Entry(e[2 * p], v)]
  {
  }

  // ---------------------------------------------------------------- dot product

  /** The sum of the products over the indices of ps that m has, too. */
  function DotMap(ps: seq<Entry>, m: map<real, real>): real
    decreases |ps|
  {
    if ps == [] then 0.0 else
      var last := ps[|ps| - 1];
      DotMap(ps[..|ps| - 1], m) + if last.index in m then last.value * m[last.index] else 0.0
  }

  /** Dropping an index that does not occur changes no product. */
  lemma {:induction false} DotIgnores(ps: seq<Entry>, m: map<real, real>, x: real, v: real)
    requires forall k :: 0 <= k < |ps| ==> ps[k].index != x
    ensures DotMap(ps, m[x := v]) == DotMap(ps, m)
    decreases |ps|
  {
    if ps != [] { DotIgnores(ps[..|ps| - 1], m, x, v); }
  }

  lemma {:induction false} NotBeyond(ps: seq<Entry>, x: real)
    requires forall k :: 0 <= k < |ps| ==> ps[k].index != x
    ensures x !in Meaning(ps)
  {
    if x in Meaning(ps) {
      var k := MeaningOnly(ps, x);
    }
  }

  /** What the merge adds when it passes one or two entries. */
  lemma MergeStep(p: seq<Entry>, a: Entry, q: seq<Entry>, b: Entry)
    requires Ascending(p + [a]) && Ascending(q + [b])
    ensures a.index < b.index ==> DotMap(p + [a], Meaning(q + [b])) == DotMap(p + [a], Meaning(q))
    ensures a.index > b.index ==> DotMap(p + [a], Meaning(q + [b])) == DotMap(p, Meaning(q + [b]))
    ensures a.index == b.index ==> DotMap(p + [a], Meaning(q + [b])) == DotMap(p, Meaning(q)) + a.value * b.value
  {
    assert (p + [a])[..|p|] == p && (q + [b])[..|q|] == q;
    assert (p + [a])[|p|] == a && (q + [b])[|q|] == b;
    forall k | 0 <= k < |p| ensures p[k].index < a.index { assert (p + [a])[k] == p[k]; }
    forall k | 0 <= k < |q| ensures q[k].index < b.index { assert (q + [b])[k] == q[k]; }
    if a.index < b.index {
      DotIgnores(p + [a], Meaning(q), b.index, b.value);
    } else if a.index > b.index {
      NotBeyond(q + [b], a.index);
    } else {
      DotIgnores(p, Meaning(q), b.index, b.value);
    }
  }

  /** The product does not depend on which vector is asked. */
  lemma {:induction false} DotIsSymmetric(ps: seq<Entry>, qs: seq<Entry>)
    requires Ascending(ps) && Ascending(qs)
    ensures DotMap(ps, Meaning(qs)) == DotMap(qs, Meaning(ps))
    decreases |ps| + |qs|
  {
    if ps == [] {
      DotWithNothing(qs);
    } else if qs == [] {
      DotWithNothing(ps);
    } else {
      var p, a := ps[..|ps| - 1], ps[|ps| - 1];
      var q, b := qs[..|qs| - 1], qs[|qs| - 1];
      assert ps == p + [a] && qs == q + [b];
      hide DotMap, Meaning;
      MergeStep(p, a, q, b);
      MergeStep(q, b, p, a);
      assert a.value * b.value == b.value * a.value;
      if a.index < b.index {
        DotIsSymmetric(ps, q);
      } else if a.index > b.index {
        DotIsSymmetric(p, qs);
      } else {
        DotIsSymmetric(p, q);
      }
    }
  }

  lemma {:induction false} DotWithNothing(ps: seq<Entry>)
    ensures DotMap(ps, map[]) == 0.0
    decreases |ps|
  {
    if ps != [] { DotWithNothing(ps[..|ps| - 1]); }
  }

  /** How far the merge has got: what is behind either cursor is smaller than what the other points at. */
  ghost predicate Abreast(ps: seq<Entry>, i: nat, qs: seq<Entry>, j: nat) {
    && i <= |ps| && j <= |qs|
    && (i < |ps| ==> forall k :: 0 <= k < j ==> qs[k].index < ps[i].index)
    && (j < |qs| ==> forall k :: 0 <= k < i ==> ps[k].index < qs[j].index)
  }

  lemma MergeStarts(ps: seq<Entry>, qs: seq<Entry>)
    ensures Abreast(ps, 0, qs, 0) && DotMap(ps[..0], Meaning(qs[..0])) == 0.0
  {
  }

  lemma PassLeft(ps: seq<Entry>, i: nat, qs: seq<Entry>, j: nat)
    requires Ascending(ps) && Ascending(qs) && Abreast(ps, i, qs, j) && i < |ps|
    requires j < |qs| ==> ps[i].index < qs[j].index
    ensures Abreast(ps, i + 1, qs, j)
    ensures DotMap(ps[..i + 1], Meaning(qs[..j])) == DotMap(ps[..i], Meaning(qs[..j]))
  {
    NotBeyond(qs[..j], ps[i].index);
    assert ps[..i + 1][..i] == ps[..i];
  }

  lemma PassRight(ps: seq<Entry>, i: nat, qs: seq<Entry>, j: nat)
    requires Ascending(ps) && Ascending(qs) && Abreast(ps, i, qs, j) && j < |qs|
    requires i < |ps| ==> qs[j].index < ps[i].index
    ensures Abreast(ps, i, qs, j + 1)
    ensures DotMap(ps[..i], Meaning(qs[..j + 1])) == DotMap(ps[..i], Meaning(qs[..j]))
  {
    DotIgnores(ps[..i], Meaning(qs[..j]), qs[j].index, qs[j].value);
    assert qs[..j + 1][..j] == qs[..j];
  }

  lemma PassBoth(ps: seq<Entry>, i: nat, qs: seq<Entry>, j: nat)
    requires Ascending(ps) && Ascending(qs) && Abreast(ps, i, qs, j) && i < |ps| && j < |qs|
    requires ps[i].index == qs[j].index
    ensures Abreast(ps, i + 1, qs, j + 1)
    ensures DotMap(ps[..i + 1], Meaning(qs[..j + 1])) == DotMap(ps[..i], Meaning(qs[..j])) + ps[i].value * qs[j].value
  {
    DotIgnores(ps[..i], Meaning(qs[..j]), qs[j].index, qs[j].value);
    assert ps[..i + 1][..i] == ps[..i] && qs[..j + 1][..j] == qs[..j];
  }

  /** Once either list is used up, the rest of the other adds nothing. */
  lemma {:induction false} RestAddsNothing(ps: seq<Entry>, i: nat, qs: seq<Entry>, j: nat)
    requires Ascending(ps) && Ascending(qs) && Abreast(ps, i, qs, j) && (i == |ps| || j == |qs|)
    ensures DotMap(ps, Meaning(qs)) == DotMap(ps[..i], Meaning(qs[..j]))
    decreases |ps| - i, |qs| - j
  {
    if i < |ps| {
      PassLeft(ps, i, qs, j);
      RestAddsNothing(ps, i + 1, qs, j);
    } else if j < |qs| {
      PassRight(ps, i, qs, j);
      RestAddsNothing(ps, i, qs, j + 1);
    } else {
      assert ps[..i] == ps && qs[..j] == qs;
    }
  }

  // ---------------------------------------------------------------- one list per map

  lemma LastIsGreatest(ps: seq<Entry>, x: real)
    requires Ascending(ps) && x in Meaning(ps)
    ensures x <= ps[|ps| - 1].index
  {
    var k := MeaningOnly(ps, x);
  }

  lemma LastIsNotBefore(ps: seq<Entry>)
    requires Ascending(ps) && ps != []
    ensures var p, x := ps[..|ps| - 1], ps[|ps| - 1].index; forall k :: 0 <= k < |p| ==> p[k].index != x
  {
  }

  lemma MeaningOfLast(ps: seq<Entry>)
    requires ps != []
    ensures Meaning(ps) == Meaning(ps[..|ps| - 1])[ps[|ps| - 1].index := ps[|ps| - 1].value]
  {
  }

  lemma MeaningWithoutLast(ps: seq<Entry>)
    requires Ascending(ps) && ps != []
    ensures var x := ps[|ps| - 1].index; Meaning(ps[..|ps| - 1]) == Meaning(ps) - {x}
  {
    hide Meaning;
    MeaningOfLast(ps);
    LastIsNotBefore(ps);
    NotBeyond(ps[..|ps| - 1], ps[|ps| - 1].index);
  }

  lemma LastsAgree(ps: seq<Entry>, qs: seq<Entry>)
    requires Ascending(ps) && Ascending(qs) && Meaning(ps) == Meaning(qs) && ps != []
    ensures qs != [] && ps[|ps| - 1] == qs[|qs| - 1]
  {
    hide Meaning;
    MeaningAt(ps, |ps| - 1);
    var k := MeaningOnly(qs, ps[|ps| - 1].index);
    MeaningAt(qs, |qs| - 1);
    LastIsGreatest(ps, qs[|qs| - 1].index);
    LastIsGreatest(qs, ps[|ps| - 1].index);
  }

  /** An ascending list is determined by its meaning. */
  lemma {:induction false} SameMeaningSameList(ps: seq<Entry>, qs: seq<Entry>)
    requires Ascending(ps) && Ascending(qs) && Meaning(ps) == Meaning(qs)
    ensures ps == qs
    decreases |ps|
  {
    hide Meaning;
    if qs != [] { LastsAgree(qs, ps); }
    if ps != [] {
      LastsAgree(ps, qs);
      MeaningWithoutLast(ps);
      MeaningWithoutLast(qs);
      SameMeaningSameList(ps[..|ps| - 1], qs[..|qs| - 1]);
      assert ps == ps[..|ps| - 1] + [ps[|ps| - 1]];
      assert qs == qs[..|qs| - 1] + [qs[|qs| - 1]];
    }
  }

  /** Additive updates, first to last. */
  function Added(m: map<real, real>, us: seq<Entry>): map<real, real>
    decreases |us|
  {
    if us == [] then m else
      var u, m' := us[|us| - 1], Added(m, us[..|us| - 1]);
      m'[u.index := if u.index in m' then m'[u.index] + u.value else u.value]
  }

  /** What a list of updates contributes to one index. */
  function Total(us: seq<Entry>, x: real): real
    decreases |us|
  {
    if us == [] then 0.0 else
      Total(us[..|us| - 1], x) + if us[|us| - 1].index == x then us[|us| - 1].value else 0.0
  }

  ghost predicate Mentions(us: seq<Entry>, x: real) {
    exists v :: Entry(x, v) in us
  }

  lemma {:induction false} AddedIsTotal(m: map<real, real>, us: seq<Entry>, x: real)
    ensures x in Added(m, us) <==> x in m || Mentions(us, x)
    ensures x in Added(m, us) ==> Added(m, us)[x] == (if x in m then m[x] else 0.0) + Total(us, x)
    ensures !Mentions(us, x) ==> Total(us, x) == 0.0
    decreases |us|
  {
    if us != [] {
      var u, us' := us[|us| - 1], us[..|us| - 1];
      AddedIsTotal(m, us', x);
      assert us == us' + [u];
      if u.index == x {
        assert Entry(x, u.value) in us;
      } else {
        assert forall v :: Entry(x, v) in us <==> Entry(x, v) in us';
      }
    }
  }

  lemma {:induction false} TotalWithout(us: seq<Entry>, k: nat, x: real)
    requires k < |us|
    ensures Total(us, x) == Total(us[..k] + us[k + 1..], x) + if us[k].index == x then us[k].value else 0.0
    decreases |us|
  {
    if k == |us| - 1 {
      assert us[..k] + us[k + 1..] == us[..k];
    } else {
      var us' := us[..|us| - 1];
      TotalWithout(us', k, x);
      var rest := us[..k] + us[k + 1..];
      assert rest[..|rest| - 1] == us'[..k] + us'[k + 1..];
    }
  }

  /** Where an update sits in a reordered list, and what is left without it. */
  lemma Elsewhere(us: seq<Entry>, vs: seq<Entry>) returns (k: nat)
    requires us != [] && multiset(us) == multiset(vs)
    ensures k < |vs| && vs[k] == us[|us| - 1]
    ensures multiset(us[..|us| - 1]) == multiset(vs[..k] + vs[k + 1..])
  {
    var u, us' := us[|us| - 1], us[..|us| - 1];
    assert us == us' + [u];
    assert u in multiset(vs);
    k :| 0 <= k < |vs| && vs[k] == u;
    var before, after := vs[..k], vs[k + 1..];
    assert vs == before + [u] + after;
    assert multiset(us') == multiset(us) - multiset{u};
    assert multiset(before + after) == multiset(vs) - multiset{u};
  }

  lemma {:induction false} TotalIsUnordered(us: seq<Entry>, vs: seq<Entry>, x: real)
    requires multiset(us) == multiset(vs)
    ensures Total(us, x) == Total(vs, x)
    decreases |us|
  {
    if us == [] {
      assert |multiset(vs)| == 0;
    } else {
      var k := Elsewhere(us, vs);
      TotalIsUnordered(us[..|us| - 1], vs[..k] + vs[k + 1..], x);
      TotalWithout(vs, k, x);
    }
  }

  /** Any order of the same additive updates gives the same map. */
  lemma OrderDoesNotMatter(m: map<real, real>, us: seq<Entry>, vs: seq<Entry>)
    requires multiset(us) == multiset(vs)
    ensures Added(m, us) == Added(m, vs)
  {
    forall x
      ensures x in Added(m, us) <==> x in Added(m, vs)
      ensures x in Added(m, us) ==> Added(m, us)[x] == Added(m, vs)[x]
    {
      AddedIsTotal(m, us, x);
      AddedIsTotal(m, vs, x);
      TotalIsUnordered(us, vs, x);
      assert forall v :: Entry(x, v) in us <==> Entry(x, v) in multiset(us);
      assert forall v :: Entry(x, v) in vs <==> Entry(x, v) in multiset(vs);
    }
  }

  // ---------------------------------------------------------------- the vector

  function SumOfSquares(ps: seq<Entry>): real
    decreases |ps|
  {
    if ps == [] then 0.0 else
      SumOfSquares(ps[..|ps| - 1]) + ps[|ps| - 1].value * ps[|ps| - 1].value
  }

  /** The squares are the products of a vector with itself. */
  lemma {:induction false} SquaresAreOwnDot(ps: seq<Entry>)
    requires Ascending(ps)
    ensures DotMap(ps, Meaning(ps)) == SumOfSquares(ps)
    decreases |ps|
  {
    if ps != [] {
      var p, a := ps[..|ps| - 1], ps[|ps| - 1];
      SquaresAreOwnDot(p);
      DotIgnores(p, Meaning(p), a.index, a.value);
    }
  }

  lemma {:induction false} SquaresNotNegative(ps: seq<Entry>)
    ensures SumOfSquares(ps) >= 0.0
    decreases |ps|
  {
    if ps != [] { SquaresNotNegative(ps[..|ps| - 1]); }
  }

  /** m is the square root of s. */
  ghost predicate IsRoot(m: real, s: real) {
    m >= 0.0 && m * m == s
  }

  /** What the update function handed to upsert does: give a value, or throw. */
  datatype Combined = Value(value: real) | Throw

  class Vector {
    var elements: seq<real>
    /** The cached magnitude, 0 when there is none. */
    var cached: real

    ghost predicate Valid()
      reads this
    {
      && |elements| % 2 == 0
      && Ascending(Entries(elements))
      && (cached != 0.0 ==> IsRoot(cached, SumOfSquares(Entries(elements))))
    }

    ghost function Contents(): map<real, real>
      requires Valid()
      reads this
    {
      Meaning(Entries(elements))
    }

    constructor ()
      ensures Valid() && Contents() == map[] && elements == []
    {
      elements, cached := [], 0.0;
    }

    /** The position, counted in the flat list, where an index is or belongs. */
    method PositionForIndex(index: real) returns (position: nat)
      requires |elements| % 2 == 0 && Ascending(Entries(elements))
      ensures position % 2 == 0 && Divides(Entries(elements), index, position / 2)
    {
      hide Ascending, Divides, Entries;
      ghost var ps := Entries(elements);
      if |elements| == 0 {
        DividedByNeighbours(ps, index, 0);
        return 0;
      }
      var start, end := 0, |elements| / 2;
      var sliceLength := end - start;
      var pivotPoint := sliceLength / 2;
      var pivotIndex := elements[pivotPoint * 2];
      EntryAt(elements, pivotPoint);
      while sliceLength > 1
        invariant 0 <= start < end <= |ps| && sliceLength == end - start
        invariant pivotPoint == start + sliceLength / 2 && pivotIndex == ps[pivotPoint].index
        invariant start == 0 || ps[start].index < index
        invariant end == |ps| || ps[end].index > index
      {
        if pivotIndex < index { start := pivotPoint; }
        if pivotIndex > index { end := pivotPoint; }
        if pivotIndex == index { break; }
        sliceLength := end - start;
        pivotPoint := start + sliceLength / 2;
        pivotIndex := elements[pivotPoint * 2];
        EntryAt(elements, pivotPoint);
      }
      DividedByNeighbours(ps, index, if pivotIndex < index then pivotPoint + 1 else pivotPoint);
      if pivotIndex == index { return pivotPoint * 2; }
      if pivotIndex > index { return pivotPoint * 2; }
      return (pivotPoint + 1) * 2;
    }

    /** Map update, combining with the value already there; if combining throws, nothing but the
        cache has changed. */
    method Upsert(insertIdx: real, val: real, fn: (real, real) -> Combined) returns (thrown: bool)
      requires Valid()
      modifies this
      ensures Valid()
      ensures thrown <==> insertIdx in old(Contents()) && fn(old(Contents())[insertIdx], val).Throw?
      ensures Contents() ==
              if thrown then old(Contents())
              else if insertIdx in old(Contents()) then
                old(Contents())[insertIdx := fn(old(Contents())[insertIdx], val).value]
              else old(Contents())[insertIdx := val]
      ensures cached == 0.0
    {
      hide SumOfSquares, Ascending, Meaning;
      ghost var ps := Entries(elements);
      cached := 0.0;
      var position := PositionForIndex(insertIdx);
      ghost var p := position / 2;
      Found(ps, insertIdx, p);
      if position < |elements| && elements[position] == insertIdx {
        var combined := fn(elements[position + 1], val);
        if combined.Throw? { return true; }
        EntriesOfUpdate(elements, p, combined.value);
        ReplacedMeans(ps, insertIdx, combined.value, p);
        elements := elements[position + 1 := combined.value];
      } else {
        EntriesOfSplice(elements, p, insertIdx, val);
        SplicedMeans(ps, insertIdx, val, p);
        elements := elements[..position] + [insertIdx, val] + elements[position..];
      }
      thrown := false;
    }

    /** Map update for an index that is not there yet; "duplicate index" for one that is. */
    method Insert(insertIdx: real, val: real) returns (thrown: bool)
      requires Valid()
      modifies this
      ensures Valid()
      ensures thrown <==> insertIdx in old(Contents())
      ensures Contents() == if thrown then old(Contents()) else old(Contents())[insertIdx := val]
    {
      thrown := Upsert(insertIdx, val, (a, b) => Throw);
    }

    /** The run of additive upserts by which a query vector comes about. */
    method AddAll(updates: seq<Entry>)
      requires Valid()
      modifies this
      ensures Valid() && Contents() == Added(old(Contents()), updates)
    {
      ghost var was := Contents();
      for i := 0 to |updates|
        invariant Valid() && Contents() == Added(was, updates[..i])
      {
        var thrown := Upsert(updates[i].index, updates[i].value, (a, b) => Value(a + b));
        assert updates[..i + 1][..i] == updates[..i];
      }
      assert updates[..|updates|] == updates;
    }

    /** The square root of the product with itself, whether or not it was cached. */
    method Magnitude(sqrt: real -> real) returns (m: real)
      requires Valid() && forall s :: s >= 0.0 ==> IsRoot(sqrt(s), s)
      modifies this`cached
      ensures Valid() && Contents() == old(Contents())
      ensures IsRoot(m, DotMap(Entries(elements), Contents()))
    {
      ghost var ps := Entries(elements);
      SquaresAreOwnDot(ps);
      if cached != 0.0 { return cached; }
      var sumOfSquares := 0.0;
      var i := 1;
      while i < |elements|
        invariant i % 2 == 1 && 1 <= i <= |elements| + 1
        invariant sumOfSquares == SumOfSquares(ps[..i / 2])
      {
        var val := elements[i];
        sumOfSquares := sumOfSquares + val * val;
        assert ps[..i / 2 + 1][..i / 2] == ps[..i / 2] && ps[i / 2].value == val;
        i := i + 2;
      }
      assert ps[..i / 2] == ps;
      SquaresNotNegative(ps);
      cached := sqrt(sumOfSquares);
      m := cached;
    }

    /** The sum of the products over the common indices. */
    method Dot(other: Vector) returns (dotProduct: real)
      requires Valid() && other.Valid()
      ensures dotProduct == DotMap(Entries(elements), other.Contents())
      ensures dotProduct == DotMap(Entries(other.elements), Contents())
    {
      hide DotMap, Meaning, Ascending, Abreast, SumOfSquares, Entries, IsRoot;
      var a, b := elements, other.elements;
      ghost var ps, qs := Entries(a), Entries(b);
      dotProduct := 0.0;
      MergeStarts(ps, qs);
      var i, j := 0, 0;
      ghost var p, q := 0, 0;
      while i < |a| && j < |b|
        invariant i == 2 * p && j == 2 * q && p <= |ps| && q <= |qs|
        invariant Abreast(ps, p, qs, q)
        invariant dotProduct == DotMap(ps[..p], Meaning(qs[..q]))
        decreases |a| + |b| - i - j
      {
        var aVal, bVal := a[i], b[j];
        EntryAt(a, p);
        EntryAt(b, q);
        if aVal < bVal {
          PassLeft(ps, p, qs, q);
          i, p := i + 2, p + 1;
        } else if aVal > bVal {
          PassRight(ps, p, qs, q);
          j, q := j + 2, q + 1;
        } else {
          PassBoth(ps, p, qs, q);
          dotProduct := dotProduct + a[i + 1] * b[j + 1];
          i, j, p, q := i + 2, j + 2, p + 1, q + 1;
        }
      }
      RestAddsNothing(ps, p, qs, q);
      DotIsSymmetric(ps, qs);
    }
  }
}
