/** Termination of explicit work stacks: popping a frame and pushing any bounded number of
    frames of smaller rank makes the weighted sum of the ranks smaller. */
module WorkStack {

  /** k copies of u. */
  ghost function Times(k: nat, u: nat): nat {
    if k == 0 then 0 else Times(k - 1, u) + u
  }

  /** What a frame of rank r counts: one more than fanOut frames of the rank below. */
  ghost function Unit(fanOut: nat, r: nat): (u: nat)
    ensures u > 0
  {
    if r == 0 then 1 else 1 + Times(fanOut, Unit(fanOut, r - 1))
  }

  ghost function Weight(fanOut: nat, ranks: seq<nat>): nat {
    if ranks == [] then 0 else Weight(fanOut, ranks[..|ranks| - 1]) + Unit(fanOut, ranks[|ranks| - 1])
  }

  lemma {:induction false} TimesMonotone(j: nat, k: nat, u: nat)
    requires j <= k
    ensures Times(j, u) <= Times(k, u)
    decreases k
  {
    if j < k { TimesMonotone(j, k - 1, u); }
  }

  lemma {:induction false} TimesGrows(k: nat, u: nat, v: nat)
    requires u <= v
    ensures Times(k, u) <= Times(k, v)
  {
    if k > 0 { TimesGrows(k - 1, u, v); }
  }

  lemma {:induction false} UnitGrows(fanOut: nat, d: nat, r: nat)
    requires d < r
    ensures fanOut > 0 ==> Unit(fanOut, d) <= Unit(fanOut, r - 1)
    decreases r
  {
    if fanOut > 0 && d < r - 1 {
      UnitGrows(fanOut, d, r - 1);
      TimesMonotone(1, fanOut, Unit(fanOut, r - 2));
    }
  }

  lemma {:induction false} WeightOfPushes(fanOut: nat, rest: seq<nat>, pushed: seq<nat>, r: nat)
    requires r > 0 && fanOut > 0
    requires forall i :: 0 <= i < |pushed| ==> pushed[i] < r
    ensures Weight(fanOut, rest + pushed) <= Weight(fanOut, rest) + Times(|pushed|, Unit(fanOut, r - 1))
    decreases |pushed|
  {
    if pushed == [] {
      assert rest + pushed == rest;
    } else {
      var init, last := pushed[..|pushed| - 1], pushed[|pushed| - 1];
      assert (rest + pushed)[..|rest + pushed| - 1] == rest + init;
      WeightOfPushes(fanOut, rest, init, r);
      UnitGrows(fanOut, last, r);
    }
  }

  lemma PopAndPushShrinks(fanOut: nat, rest: seq<nat>, r: nat, pushed: seq<nat>)
    requires |pushed| <= fanOut
    requires forall i :: 0 <= i < |pushed| ==> pushed[i] < r
    ensures Weight(fanOut, rest + pushed) < Weight(fanOut, rest + [r])
  {
    assert (rest + [r])[..|rest|] == rest;
    if pushed == [] {
      assert rest + pushed == rest;
    } else {
      assert pushed[0] < r;
      WeightOfPushes(fanOut, rest, pushed, r);
      TimesMonotone(|pushed|, fanOut, Unit(fanOut, r - 1));
    }
  }
}
