/** Where a query string is rejected: at the first lexeme that cannot go on, or at the last one if
    something is missing behind it. */
module QueryErrors {
  import QueryLexer
  import opened QueryParser

  /** What may come next: a clause; a field or a term behind a presence sign; a term behind a field;
      anything behind a term, modifiers included. */
  datatype Place = Fresh | Signed | Named | Termed

  predicate MayEnd(p: Place) { p.Fresh? || p.Termed? }

  predicate MayFollow(allFields: seq<string>, p: Place, l: QueryLexer.Lexeme) {
    match l.kind
    case PRESENCE => (p.Fresh? || p.Termed?) && (l.str == "+" || l.str == "-")
    case FIELD => !p.Named? && l.str in allFields
    case TERM => true
    case _ => p.Termed? && IsModifier(l)
  }

  function Behind(l: QueryLexer.Lexeme): Place {
    match l.kind
    case PRESENCE => Signed
    case FIELD => Named
    case _ => Termed
  }

  /** The offending lexeme. */
  function Offender(allFields: seq<string>, p: Place, ls: seq<QueryLexer.Lexeme>): Given<QueryLexer.Lexeme>
    decreases |ls|
  {
    if ls == [] then Absent
    else if !MayFollow(allFields, p, ls[0]) || (|ls| == 1 && !MayEnd(Behind(ls[0]))) then Given(ls[0])
    else Offender(allFields, Behind(ls[0]), ls[1..])
  }

  /** The machine's state in a place with the lexemes ls to come. */
  function Ahead(p: Place, ls: seq<QueryLexer.Lexeme>): State
    requires ls != []
  {
    match ls[0].kind
    case TERM => ParseTerm
    case FIELD => if p.Named? then At(ls[0]) else ParseField
    case PRESENCE => if p.Signed? || p.Named? then At(ls[0]) else ParsePresence
    case EDIT_DISTANCE => if p.Termed? then ParseEditDistance else At(ls[0])
    case BOOST => if p.Termed? then ParseBoost else At(ls[0])
  }

  lemma {:induction false} StepsAhead(env: Setting, p: Place, ls: seq<QueryLexer.Lexeme>, cur: Partial)
    requires ls != [] && Lexed(ls) && MayFollow(env.allFields, p, ls[0])
    ensures var s := Step(env, Ahead(p, ls), ls, cur);
            && Ahead(p, ls) != Done && !Ahead(p, ls).Failed?
            && (|ls| == 1 ==> s.state == if MayEnd(Behind(ls[0])) then Done else At(ls[0]))
            && (|ls| > 1 ==> s.state == Ahead(Behind(ls[0]), ls[1..]))
  {
  }

  lemma StuckAhead(env: Setting, p: Place, ls: seq<QueryLexer.Lexeme>, cur: Partial)
    requires ls != [] && Lexed(ls) && !MayFollow(env.allFields, p, ls[0])
    ensures Read(env, Ahead(p, ls), ls, cur) == Error(ls[0].start, ls[0].end)
  {
    assert ls[0] in ls;
    if !Ahead(p, ls).Failed? {
      assert Step(env, Ahead(p, ls), ls, cur) == Stepped(At(ls[0]), cur, false);
    }
  }

  lemma {:induction false} OffenderIsReported(env: Setting, p: Place, ls: seq<QueryLexer.Lexeme>, cur: Partial)
    requires Lexed(ls) && ls != []
    ensures var o := Offender(env.allFields, p, ls);
            var r := Read(env, Ahead(p, ls), ls, cur);
            if o.Given? then r == Error(o.value.start, o.value.end) else r.Parsed?
    decreases |ls|
  {
    hide Step, Following, Completed, MayFollow, Ahead;
    if !MayFollow(env.allFields, p, ls[0]) {
      StuckAhead(env, p, ls, cur);
    } else {
      StepsAhead(env, p, ls, cur);
      var s := Step(env, Ahead(p, ls), ls, cur);
      ReadStep(env, Ahead(p, ls), ls, cur, []);
      if |ls| > 1 { OffenderIsReported(env, Behind(ls[0]), ls[1..], if s.finished then NOTHING else s.clause); }
    }
  }

  /** A query is rejected at its offender, and accepted if there is none. */
  lemma ErrorsAreLocated(env: Setting, ls: seq<QueryLexer.Lexeme>)
    requires Lexed(ls)
    ensures var o := Offender(env.allFields, Fresh, ls);
            var r := Read(env, First(ls), ls, NOTHING);
            if o.Given? then r == Error(o.value.start, o.value.end) else r.Parsed?
  {
    if ls != [] {
      OffenderIsReported(env, Fresh, ls, NOTHING);
      assert First(ls) == Ahead(Fresh, ls);
    }
  }
}
