/** lunr.Set */
module Sets {
  import Enumeration

  /** The two constant objects, and the ones made from an array.  A set built from an array with
      repetitions keeps the array's length. */
  datatype Set = Complete | Empty | Of(elements: set<string>, length: nat)

  predicate Contains(s: Set, x: string) {
    match s
    case Complete => true
    case Empty => false
    case Of(elements, _) => x in elements
  }

  /** Object.keys: every key once, in some order. */
  method Keys<T>(s: set<T>) returns (ks: seq<T>)
    ensures Enumeration.NoRepeats(ks)
    ensures forall x :: x in ks <==> x in s
  {
    ks := [];
    var rest := s;
    while rest != {}
      invariant rest <= s && Enumeration.NoRepeats(ks)
      invariant forall x :: x in ks <==> x in s && x !in rest
      decreases rest
    {
      var k :| k in rest;
      ks := ks + [k];
      rest := rest - {k};
    }
  }

  method New(elements: seq<string>) returns (r: Set)
    ensures forall x :: Contains(r, x) <==> x in elements
    ensures r.Of? && r.length == |elements|
  {
    var own: set<string> := {};
    for i := 0 to |elements|
      invariant forall x :: x in own <==> x in elements[..i]
    {
      own := own + {elements[i]};
    }
    assert elements[..|elements|] == elements;
    r := Of(own, |elements|);
  }

  /** Exact although the side to walk is chosen by lengths that may count an element twice. */
  method Intersect(s: Set, other: Set) returns (r: Set)
    ensures forall x :: Contains(r, x) <==> Contains(s, x) && Contains(other, x)
  {
    if s.Complete? { return other; }
    if s.Empty? { return s; }
    if other.Complete? { return s; }
    if other.Empty? { return other; }
    var a, b := other, s;
    if s.length < other.length { a, b := s, other; }
    var intersection: seq<string> := [];
    var elements := Keys(a.elements);
    for i := 0 to |elements|
      invariant forall x :: x in intersection <==> x in elements[..i] && x in b.elements
    {
      if elements[i] in b.elements { intersection := intersection + [elements[i]]; }
    }
    assert elements[..|elements|] == elements;
    r := New(intersection);
  }

  method Union(s: Set, other: Set) returns (r: Set)
    ensures forall x :: Contains(r, x) <==> Contains(s, x) || Contains(other, x)
  {
    if s.Complete? { return s; }
    if s.Empty? { return other; }
    if other.Complete? { return other; }
    if other.Empty? { return s; }
    var mine := Keys(s.elements);
    var theirs := Keys(other.elements);
    r := New(mine + theirs);
  }
}
