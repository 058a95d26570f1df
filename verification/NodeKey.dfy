/** The string that TokenSet.toString makes of a node, "0" or "1" followed by each label
    and the decimal id of its target in label order, with nothing between the parts.
    The question this module settles is when two different nodes can get the same string. */
module NodeKey {

  type Digits = s: string | forall i :: 0 <= i < |s| ==> IsDigit(s[i])

  predicate IsDigit(c: char) { '0' <= c <= '9' }

  function DigitOf(d: nat): (c: char)
    requires d < 10
    ensures IsDigit(c)
  {
    '0' + d as char
  }

  /** A number's decimal text, without leading zeros. */
  function Decimal(n: nat): (s: Digits)
    ensures s != "" && (n > 0 ==> s[0] != '0')
  {
    if n < 10 then [DigitOf(n)] else Decimal(n / 10) + [DigitOf(n % 10)]
  }

  /** The number a digit string denotes; the inverse of Decimal. */
  function Value(s: Digits): nat {
    if s == "" then 0 else 10 * Value(s[..|s| - 1]) + (s[|s| - 1] - '0') as nat
  }

  lemma {:induction false} ValueOfDecimal(n: nat)
    ensures Value(Decimal(n)) == n
  {
    if n < 10 {
      assert Decimal(n)[..0] == "";
    } else {
      ValueOfDecimal(n / 10);
      assert Decimal(n)[..|Decimal(n)| - 1] == Decimal(n / 10);
    }
  }

  lemma {:induction false} DecimalOfValue(s: Digits)
    requires s != "" && s[0] != '0'
    ensures Decimal(Value(s)) == s && Value(s) > 0
    decreases |s|
  {
    var init, last := s[..|s| - 1], (s[|s| - 1] - '0') as nat;
    assert s == init + [DigitOf(last)];
    if init == "" {
      assert Value(init) == 0;
    } else {
      DecimalOfValue(init);
      assert Value(s) / 10 == Value(init) && Value(s) % 10 == last;
    }
  }

  /** One outgoing edge as the key sees it: the label and the id of the target. */
  datatype Arc = Arc(ch: char, id: nat)

  function Tail(arcs: seq<Arc>): string {
    if arcs == [] then "" else [arcs[0].ch] + Decimal(arcs[0].id) + Tail(arcs[1..])
  }

  function Key(final: bool, arcs: seq<Arc>): string {
    (if final then "1" else "0") + Tail(arcs)
  }

  predicate Ascending(arcs: seq<Arc>) {
    forall i, j :: 0 <= i < j < |arcs| ==> arcs[i].ch < arcs[j].ch
  }

  /** No digit label follows another label: the only place a digit may stand is first. */
  predicate Plain(arcs: seq<Arc>) {
    forall i :: 1 <= i < |arcs| ==> !IsDigit(arcs[i].ch)
  }

  predicate StartsWithDigit(s: string) { s != "" && IsDigit(s[0]) }

  /** A run of digits ends where the next character is not one. */
  lemma {:induction false} DigitRunUnique(a: Digits, x: string, b: Digits, y: string)
    requires !StartsWithDigit(x) && !StartsWithDigit(y)
    requires a + x == b + y
    ensures a == b && x == y
    decreases |a|
  {
    assert a == "" ==> a + x == x;
    assert b == "" ==> b + y == y;
    assert a != "" ==> (a + x)[0] == a[0];
    assert b != "" ==> (b + y)[0] == b[0];
    if a != "" && b != "" {
      assert (a + x)[1..] == a[1..] + x && (b + y)[1..] == b[1..] + y;
      DigitRunUnique(a[1..], x, b[1..], y);
    }
  }

  lemma {:induction false} TailInjective(p: seq<Arc>, q: seq<Arc>)
    requires Plain(p) && Plain(q)
    requires Tail(p) == Tail(q)
    ensures p == q
    decreases |p|
  {
    if p != [] && q != [] {
      var dp, dq := Decimal(p[0].id), Decimal(q[0].id);
      var tp, tq := Tail(p[1..]), Tail(q[1..]);
      assert Tail(p)[1..] == dp + tp && Tail(q)[1..] == dq + tq;
      assert Tail(p)[0] == p[0].ch && Tail(q)[0] == q[0].ch;
      assert |p| > 1 ==> tp[0] == p[1].ch;
      assert |q| > 1 ==> tq[0] == q[1].ch;
      DigitRunUnique(dp, tp, dq, tq);
      ValueOfDecimal(p[0].id);
      ValueOfDecimal(q[0].id);
      TailInjective(p[1..], q[1..]);
      assert p == [p[0]] + p[1..] && q == [q[0]] + q[1..];
    }
  }

  /** Two nodes without a digit label behind another label share a key only when they
      have the same finality and the same edges. */
  lemma KeyInjective(f: bool, p: seq<Arc>, h: bool, q: seq<Arc>)
    requires Plain(p) && Plain(q)
    requires Key(f, p) == Key(h, q)
    ensures f == h && p == q
  {
    assert Key(f, p)[0] == (if f then '1' else '0') && Key(h, q)[0] == (if h then '1' else '0');
    assert Key(f, p)[1..] == Tail(p) && Key(h, q)[1..] == Tail(q);
    TailInjective(p, q);
  }

  lemma {:induction false} TailConcat(p: seq<Arc>, q: seq<Arc>)
    ensures Tail(p + q) == Tail(p) + Tail(q)
    decreases |p|
  {
    if p == [] {
      assert p + q == q;
    } else {
      assert (p + q)[1..] == p[1..] + q;
      TailConcat(p[1..], q);
    }
  }

  lemma KeyOfNoArcs(final: bool)
    ensures Key(final, []) == if final then "1" else "0"
  {
  }

  lemma KeyExtends(final: bool, arcs: seq<Arc>, i: nat)
    requires i < |arcs|
    ensures Key(final, arcs[..i + 1]) == Key(final, arcs[..i]) + [arcs[i].ch] + Decimal(arcs[i].id)
  {
    assert arcs[..i + 1] == arcs[..i] + [arcs[i]];
    TailConcat(arcs[..i], [arcs[i]]);
    assert [arcs[i]][1..] == [];
  }

  /** Two neighbouring arcs, the second with a digit label, read as one arc. */
  lemma Glue(a: Arc, b: Arc) returns (m: Arc)
    requires IsDigit(b.ch) && a.id > 0
    ensures m.ch == a.ch && m.id > 0
    ensures Tail([m]) == Tail([a, b])
  {
    var glued: Digits := Decimal(a.id) + [b.ch] + Decimal(b.id);
    DecimalOfValue(glued);
    m := Arc(a.ch, Value(glued));
    assert [a, b][1..] == [b] && [m][1..] == [] && [b][1..] == [];
    assert Tail([b]) == [b.ch] + Decimal(b.id);
    assert Tail([a, b]) == [a.ch] + Decimal(a.id) + Tail([b]);
    assert Tail([m]) == [m.ch] + glued;
  }

  lemma TailSwap(x: seq<Arc>, y: seq<Arc>, y': seq<Arc>, z: seq<Arc>)
    requires Tail(y) == Tail(y')
    ensures Tail(x + y + z) == Tail(x + y' + z)
  {
    TailConcat(x + y, z);
    TailConcat(x + y', z);
    TailConcat(x, y);
    TailConcat(x, y');
  }

  /** Two neighbours replaced by one arc with the first one's label. */
  function Glued(p: seq<Arc>, k: nat, m: Arc): seq<Arc>
    requires 1 <= k < |p|
  {
    p[..k - 1] + [m] + p[k + 1..]
  }

  lemma GluedAt(p: seq<Arc>, k: nat, m: Arc, i: nat)
    requires 1 <= k < |p| && i < |p| - 1
    ensures |Glued(p, k, m)| == |p| - 1
    ensures Glued(p, k, m)[i] == if i < k - 1 then p[i] else if i == k - 1 then m else p[i + 1]
  {
  }

  lemma GluedAscends(p: seq<Arc>, k: nat, m: Arc)
    requires 1 <= k < |p| && Ascending(p) && m.ch == p[k - 1].ch && m.id > 0
    requires forall i :: 0 <= i < |p| ==> p[i].id > 0
    ensures var q := Glued(p, k, m);
            q != p && Ascending(q) && forall i :: 0 <= i < |q| ==> q[i].id > 0
  {
    hide Glued;
    var q := Glued(p, k, m);
    GluedAt(p, k, m, k - 1);
    forall i | 0 <= i < |q|
      ensures q[i].ch == p[if i < k then i else i + 1].ch && q[i].id > 0
    {
      GluedAt(p, k, m, i);
    }
  }

  lemma GluedReadsTheSame(p: seq<Arc>, k: nat, m: Arc)
    requires 1 <= k < |p| && Tail([p[k - 1], p[k]]) == Tail([m])
    ensures Tail(Glued(p, k, m)) == Tail(p)
  {
    hide Tail;
    TailSwap(p[..k - 1], [p[k - 1], p[k]], [m], p[k + 1..]);
    assert p == p[..k - 1] + [p[k - 1], p[k]] + p[k + 1..];
  }

  /** The condition is sharp.  A node with a digit label behind another one always has a
      rival: dropping that label and gluing the two ids around it gives other edges,
      still in label order and with a positive id, and the same key. */
  lemma KeyCollision(f: bool, p: seq<Arc>) returns (q: seq<Arc>)
    requires Ascending(p) && !Plain(p)
    requires forall i :: 0 <= i < |p| ==> p[i].id > 0
    ensures q != p && Ascending(q) && (forall i :: 0 <= i < |q| ==> q[i].id > 0)
    ensures Key(f, q) == Key(f, p)
  {
    hide Tail, Decimal, Value, Ascending, Glued;
    var k :| 1 <= k < |p| && IsDigit(p[k].ch);
    var m := Glue(p[k - 1], p[k]);
    q := Glued(p, k, m);
    GluedAscends(p, k, m);
    GluedReadsTheSame(p, k, m);
  }

  // ---------------------------------------------------------------- label order

  predicate IsLeast(c: char, s: set<char>) {
    c in s && forall d :: d in s ==> c <= d
  }

  function Least(s: set<char>): (c: char)
    requires s != {}
    ensures IsLeast(c, s)
  {
    LeastExists(s);
    var c :| c in s && IsLeast(c, s);
    c
  }

  lemma {:induction false} LeastExists(s: set<char>)
    requires s != {}
    ensures exists c :: c in s && IsLeast(c, s)
    decreases |s|
  {
    var c :| c in s;
    if s == {c} {
      assert IsLeast(c, s);
    } else {
      LeastExists(s - {c});
      var m :| m in s - {c} && IsLeast(m, s - {c});
      assert forall d :: d in s ==> d == c || d in s - {c};
      assert IsLeast(if m <= c then m else c, s);
    }
  }

  /** Object.keys(...).sort() */
  function Sorted(s: set<char>): (r: seq<char>)
    ensures forall c :: c in r <==> c in s
    ensures forall i, j :: 0 <= i < j < |r| ==> r[i] < r[j]
    decreases |s|
  {
    if s == {} then [] else
      var c := Least(s);
      assert s - {c} < s;
      [c] + Sorted(s - {c})
  }

  /** No digit label behind a smaller label. */
  predicate PlainLabels(s: set<char>) {
    forall c, d :: c in s && d in s && c < d ==> !IsDigit(d)
  }

  // ---------------------------------------------------------------- keys of edge maps

  /** The outgoing edges in the order toString lists them. */
  function Arcs(ids: map<char, nat>): (arcs: seq<Arc>)
    ensures |arcs| == |Sorted(ids.Keys)|
  {
    var labels := Sorted(ids.Keys);
    seq(|labels|, i requires 0 <= i < |labels| => assert labels[i] in ids.Keys; Arc(labels[i], ids[labels[i]]))
  }

  function KeyOf(final: bool, ids: map<char, nat>): string { Key(final, Arcs(ids)) }

  lemma ArcsAreEdges(ids: map<char, nat>)
    ensures forall i :: 0 <= i < |Arcs(ids)| ==> Arcs(ids)[i].ch in ids && Arcs(ids)[i].id == ids[Arcs(ids)[i].ch]
    ensures forall c :: c in ids ==> exists i :: 0 <= i < |Arcs(ids)| && Arcs(ids)[i].ch == c
  {
    var labels, arcs := Sorted(ids.Keys), Arcs(ids);
    forall i | 0 <= i < |arcs| ensures arcs[i].ch in ids && arcs[i].id == ids[arcs[i].ch] {
      assert labels[i] in labels;
    }
    forall c | c in ids ensures exists i :: 0 <= i < |arcs| && arcs[i].ch == c {
      assert c in labels;
      var i :| 0 <= i < |labels| && labels[i] == c;
      assert arcs[i].ch == c;
    }
  }

  lemma ArcsAscend(ids: map<char, nat>)
    ensures Ascending(Arcs(ids))
    ensures PlainLabels(ids.Keys) ==> Plain(Arcs(ids))
  {
    var arcs := Arcs(ids);
    ArcsAreEdges(ids);
    assert forall i :: 1 <= i < |arcs| ==> arcs[0].ch < arcs[i].ch && arcs[0].ch in ids.Keys && arcs[i].ch in ids.Keys;
  }

  lemma SameArcsSameEdges(a: map<char, nat>, b: map<char, nat>)
    requires Arcs(a) == Arcs(b)
    ensures a == b
  {
    hide Arcs, Ascending, Plain, PlainLabels;
    ArcsAreEdges(a);
    ArcsAreEdges(b);
    forall c | c in a ensures c in b && b[c] == a[c] {
      var i :| 0 <= i < |Arcs(a)| && Arcs(a)[i].ch == c;
      assert Arcs(b)[i].ch in b;
    }
    forall c | c in b ensures c in a {
      var i :| 0 <= i < |Arcs(b)| && Arcs(b)[i].ch == c;
      assert Arcs(a)[i].ch in a;
    }
  }

  /** Nodes without a digit label behind a smaller one that share a key have the same finality
      and the same edges. */
  lemma PlainKeysTell(f: bool, a: map<char, nat>, h: bool, b: map<char, nat>)
    requires PlainLabels(a.Keys) && PlainLabels(b.Keys) && KeyOf(f, a) == KeyOf(h, b)
    ensures f == h && a == b
  {
    ArcsAscend(a);
    ArcsAscend(b);
    KeyInjective(f, Arcs(a), h, Arcs(b));
    SameArcsSameEdges(a, b);
  }

  /** Ids of one length can be told from the labels by counting. */
  predicate EvenIds(arcs: seq<Arc>, width: nat) {
    forall i :: 0 <= i < |arcs| ==> |Decimal(arcs[i].id)| == width
  }

  lemma {:induction false} EvenTailInjective(p: seq<Arc>, q: seq<Arc>, width: nat)
    requires EvenIds(p, width) && EvenIds(q, width) && Tail(p) == Tail(q)
    ensures p == q
    decreases |p|
  {
    if p != [] && q != [] {
      var dp, dq := Decimal(p[0].id), Decimal(q[0].id);
      var tp: string, tq: string := Tail(p[1..]), Tail(q[1..]);
      assert Tail(p)[0] == p[0].ch && Tail(q)[0] == q[0].ch;
      assert Tail(p)[1..] == dp + tp && Tail(q)[1..] == dq + tq;
      assert dp == (dp + tp)[..width] && dq == (dq + tq)[..width];
      assert tp == (dp + tp)[width..] && tq == (dq + tq)[width..];
      ValueOfDecimal(p[0].id);
      ValueOfDecimal(q[0].id);
      EvenTailInjective(p[1..], q[1..], width);
      assert p == [p[0]] + p[1..] && q == [q[0]] + q[1..];
    }
  }

  /** Whatever the labels are, keys tell nodes apart whose targets' ids have equally many digits. */
  lemma EvenKeysTell(f: bool, a: map<char, nat>, h: bool, b: map<char, nat>, width: nat)
    requires forall c :: c in a ==> |Decimal(a[c])| == width
    requires forall c :: c in b ==> |Decimal(b[c])| == width
    requires KeyOf(f, a) == KeyOf(h, b)
    ensures f == h && a == b
  {
    hide Tail, Decimal, Arcs;
    ArcsAreEdges(a);
    ArcsAreEdges(b);
    var p, q := Arcs(a), Arcs(b);
    assert Key(f, p)[0] == (if f then '1' else '0') && Key(h, q)[0] == (if h then '1' else '0');
    assert Key(f, p)[1..] == Tail(p) && Key(h, q)[1..] == Tail(q);
    EvenTailInjective(p, q, width);
    SameArcsSameEdges(a, b);
  }

  /** Greater numbers have at least as many digits. */
  lemma {:induction false} LongerDecimal(m: nat, n: nat)
    requires m <= n
    ensures |Decimal(m)| <= |Decimal(n)|
    decreases n
  {
    if n >= 10 && m >= 10 { LongerDecimal(m / 10, n / 10); }
  }
}
