/** An independent reading of the edit relation: scripts of elementary edits, applied from
    left to right, with their cost. */
module EditScript {
  import opened TokenGraph
  import opened Fuzzy

  datatype Edit = Keep | Insert(ch: char) | Delete | Substitute(ch: char) | Swap

  function Cost(script: seq<Edit>): nat {
    if script == [] then 0 else (if script[0].Keep? then 0 else 1) + Cost(script[1..])
  }

  /** w is what the script makes of s.  A swap emits the second character and leaves the
      first to the rest of the script. */
  predicate Produces(script: seq<Edit>, s: string, w: string)
    decreases |script|
  {
    if script == [] then s == "" && w == ""
    else match script[0]
      case Keep => s != "" && w != "" && w[0] == s[0] && Produces(script[1..], s[1..], w[1..])
      case Insert(c) => w != "" && w[0] == c && Produces(script[1..], s, w[1..])
      case Delete => s != "" && Produces(script[1..], s[1..], w)
      case Substitute(c) => s != "" && w != "" && w[0] == c && Produces(script[1..], s[1..], w[1..])
      case Swap => |s| > 1 && w != "" && w[0] == s[1] && Produces(script[1..], [s[0]] + s[2..], w[1..])
  }

  ghost predicate Literal(s: string) { WILDCARD !in s }

  lemma {:induction false} ScriptIsNear(script: seq<Edit>, s: string, k: nat, w: string)
    requires Produces(script, s, w) && Cost(script) <= k
    ensures Near(s, k, w)
    decreases |script|
  {
    if script != [] {
      var rest := script[1..];
      match script[0]
      case Keep => ScriptIsNear(rest, s[1..], k, w[1..]);
      case Insert(_) => ScriptIsNear(rest, s, k - 1, w[1..]);
      case Delete => ScriptIsNear(rest, s[1..], k - 1, w);
      case Substitute(_) => ScriptIsNear(rest, s[1..], k - 1, w[1..]);
      case Swap => ScriptIsNear(rest, [s[0]] + s[2..], k - 1, w[1..]);
    }
  }

  lemma Prepend(e: Edit, script: seq<Edit>)
    ensures ([e] + script)[1..] == script
    ensures Cost([e] + script) == Cost(script) + if e.Keep? then 0 else 1
  {
  }

  lemma {:induction false} NearHasScript(s: string, k: nat, w: string) returns (script: seq<Edit>)
    requires Literal(s) && Near(s, k, w)
    ensures Produces(script, s, w) && Cost(script) <= k
    decreases |s| + |w| + k
  {
    var rest: seq<Edit>;
    if s == "" && w == "" {
      script := [];
    } else if s != "" && w != "" && s[0] == w[0] && Near(s[1..], k, w[1..]) {
      rest := NearHasScript(s[1..], k, w[1..]);
      Prepend(Keep, rest);
      script := [Keep] + rest;
    } else if k > 0 && w != "" && Near(s, k - 1, w[1..]) {
      rest := NearHasScript(s, k - 1, w[1..]);
      Prepend(Insert(w[0]), rest);
      script := [Insert(w[0])] + rest;
    } else if k > 0 && s != "" && Near(s[1..], k - 1, w) {
      rest := NearHasScript(s[1..], k - 1, w);
      Prepend(Delete, rest);
      script := [Delete] + rest;
    } else if k > 0 && s != "" && w != "" && Near(s[1..], k - 1, w[1..]) {
      rest := NearHasScript(s[1..], k - 1, w[1..]);
      Prepend(Substitute(w[0]), rest);
      script := [Substitute(w[0])] + rest;
    } else {
      assert s != "" ==> s[0] in s;
      assert |s| > 1 ==> s[1] in s;
      rest := NearHasScript([s[0]] + s[2..], k - 1, w[1..]);
      Prepend(Swap, rest);
      script := [Swap] + rest;
    }
  }

  /** A word is near a literal term exactly when some script of at most k edits makes it. */
  lemma NearMeansScript(s: string, k: nat, w: string)
    requires Literal(s)
    ensures Near(s, k, w) <==> exists script :: Produces(script, s, w) && Cost(script) <= k
  {
    if Near(s, k, w) {
      var script := NearHasScript(s, k, w);
    }
    forall script | Produces(script, s, w) && Cost(script) <= k ensures Near(s, k, w) {
      ScriptIsNear(script, s, k, w);
    }
  }
}
