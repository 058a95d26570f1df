/** lunr.QueryParser: lexemes become clauses by a second state machine. */
module QueryParser {
  import opened QueryLexer
  import opened QueryMeaning
  import NodeKey

  // ---------------------------------------------------------------- clauses in the making

  datatype Given<T> = Absent | Given(value: T)

  /** currentClause: only the properties that were set. */
  datatype Partial = Partial(term: string, fields: Given<seq<string>>, boost: Given<nat>, distance: Distance,
                             usePipeline: Given<bool>, presence: Given<Presence>)

  const NOTHING := Partial("", Absent, Absent, Exactly, Absent, Absent)

  /** The fields of the index and String.toLowerCase. */
  datatype Setting = Setting(allFields: seq<string>, lower: string -> string)

  function Or<T>(g: Given<T>, default: T): T {
    if g.Given? then g.value else default
  }

  /** Query.clause fills in the defaults; the parser never sets a wildcard. */
  function Completed(p: Partial, allFields: seq<string>): Clause {
    Clause(p.term, Or(p.fields, allFields), Or(p.boost, 1), p.distance, Or(p.usePipeline, true),
           Or(p.presence, Optional))
  }

  class Query {
    const allFields: seq<string>
    var clauses: seq<Clause>

    constructor (allFields: seq<string>)
      ensures this.allFields == allFields && clauses == []
    {
      this.allFields, clauses := allFields, [];
    }

    method Add(p: Partial)
      modifies this`clauses
      ensures clauses == old(clauses) + [Completed(p, allFields)]
    {
      var clause := Clause(p.term, if p.fields.Given? then p.fields.value else allFields,
                           if p.boost.Given? then p.boost.value else 1,
                           p.distance, p.usePipeline.Absent? || p.usePipeline.value,
                           if p.presence.Given? then p.presence.value else Optional);
      clauses := clauses + [clause];
    }
  }

  // ---------------------------------------------------------------- the grammar

  /** (PRESENCE? FIELD? TERM (EDIT_DISTANCE | BOOST)*), one clause */
  datatype Group = Group(presence: seq<Lexeme>, field: seq<Lexeme>, term: Lexeme, modifiers: seq<Lexeme>)

  predicate IsModifier(l: Lexeme) {
    (l.kind.EDIT_DISTANCE? || l.kind.BOOST?) && l.str != "" && AllDigits(l.str)
  }

  predicate AllDigits(s: string) {
    forall k :: 0 <= k < |s| ==> NodeKey.IsDigit(s[k])
  }

  predicate IsPresence(l: Lexeme) {
    l.kind.PRESENCE? && (l.str == "+" || l.str == "-")
  }

  predicate IsField(allFields: seq<string>, l: Lexeme) {
    l.kind.FIELD? && l.str in allFields
  }

  predicate Grammatical(allFields: seq<string>, g: Group) {
    && (g.presence == [] || (|g.presence| == 1 && IsPresence(g.presence[0])))
    && (g.field == [] || (|g.field| == 1 && IsField(allFields, g.field[0])))
    && g.term.kind.TERM?
    && forall m :: m in g.modifiers ==> IsModifier(m)
  }

  predicate AllGrammatical(allFields: seq<string>, gs: seq<Group>) {
    forall g :: g in gs ==> Grammatical(allFields, g)
  }

  function Spelled(g: Group): seq<Lexeme> {
    g.presence + g.field + [g.term] + g.modifiers
  }

  function Flat(gs: seq<Group>): seq<Lexeme> {
    if gs == [] then [] else Spelled(gs[0]) + Flat(gs[1..])
  }

  /** parseInt */
  function NumberOf(l: Lexeme): nat
    requires AllDigits(l.str)
  {
    var digits: NodeKey.Digits := l.str;
    NodeKey.Value(digits)
  }

  /** The number of the last modifier of a kind. */
  function LastOf(kind: Kind, ms: seq<Lexeme>): Given<nat>
    requires forall m :: m in ms ==> IsModifier(m)
    decreases |ms|
  {
    if ms == [] then Absent else
      var last := ms[|ms| - 1];
      assert last in ms && IsModifier(last) && AllDigits(last.str);
      if last.kind == kind then Given(NumberOf(last)) else LastOf(kind, ms[..|ms| - 1])
  }

  /** The clause a group stands for: the last modifier of each kind counts. */
  function ClauseOf(env: Setting, g: Group): Clause
    requires Grammatical(env.allFields, g)
  {
    var distance := LastOf(EDIT_DISTANCE, g.modifiers);
    Clause(env.lower(g.term.str),
           if g.field == [] then env.allFields else [g.field[0].str],
           Or(LastOf(BOOST, g.modifiers), 1),
           if distance.Given? then UpTo(distance.value) else Exactly,
           '*' !in g.term.str,
           if g.presence == [] then Optional else if g.presence[0].str == "+" then Required else Prohibited)
  }

  function ClausesOf(env: Setting, gs: seq<Group>): seq<Clause>
    requires AllGrammatical(env.allFields, gs)
  {
    if gs == [] then [] else
      assert gs[0] in gs;
      [ClauseOf(env, gs[0])] + ClausesOf(env, gs[1..])
  }

  // ---------------------------------------------------------------- the machine's steps

  datatype Outcome = Parsed(clauses: seq<Clause>) | Error(start: nat, end: nat)

  /** The state functions; Done for one that returns nothing, Failed for a thrown QueryParseError. */
  datatype State = ParseClause | ParsePresence | ParseField | ParseTerm | ParseEditDistance | ParseBoost
                 | Done | Failed(start: nat, end: nat)

  /** The next state, the clause in the making, and whether it is handed to the query. */
  datatype Stepped = Stepped(state: State, clause: Partial, finished: bool)

  function At(l: Lexeme): State { Failed(l.start, l.end) }

  /** Numbers are digit runs, as the lexer makes them; the empty one is what parseInt calls NaN. */
  predicate Lexed(ls: seq<Lexeme>) {
    forall l :: l in ls && (l.kind.EDIT_DISTANCE? || l.kind.BOOST?) ==> AllDigits(l.str)
  }

  function First(ls: seq<Lexeme>): State {
    if ls == [] then Done else
      match ls[0].kind
      case PRESENCE => ParsePresence
      case FIELD => ParseField
      case TERM => ParseTerm
      case _ => At(ls[0])
  }

  /** After a term or one of its modifiers: a modifier goes on with the clause, all else ends it. */
  function Following(ls: seq<Lexeme>, cur: Partial): Stepped {
    if ls == [] then Stepped(Done, cur, true) else
      match ls[0].kind
      case TERM => Stepped(ParseTerm, cur, true)
      case FIELD => Stepped(ParseField, cur, true)
      case EDIT_DISTANCE => Stepped(ParseEditDistance, cur, false)
      case BOOST => Stepped(ParseBoost, cur, false)
      case PRESENCE => Stepped(ParsePresence, cur, true)
  }

  /** One step on the lexemes ls. */
  function Step(env: Setting, st: State, ls: seq<Lexeme>, cur: Partial): Stepped
    requires ls != [] && Lexed(ls)
  {
    var l, rest := ls[0], ls[1..];
    match st
    case ParsePresence =>
      if l.str != "+" && l.str != "-" then Stepped(At(l), cur, false) else
        var cur' := cur.(presence := Given(if l.str == "-" then Prohibited else Required));
        if rest == [] then Stepped(At(l), cur', false)
        else if rest[0].kind.FIELD? then Stepped(ParseField, cur', false)
        else if rest[0].kind.TERM? then Stepped(ParseTerm, cur', false)
        else Stepped(At(rest[0]), cur', false)
    case ParseField =>
      if l.str !in env.allFields then Stepped(At(l), cur, false) else
        var cur' := cur.(fields := Given([l.str]));
        if rest == [] then Stepped(At(l), cur', false)
        else if rest[0].kind.TERM? then Stepped(ParseTerm, cur', false)
        else Stepped(At(rest[0]), cur', false)
    case ParseTerm =>
      Following(rest,
                cur.(term := env.lower(l.str), usePipeline := if '*' in l.str then Given(false) else cur.usePipeline))
    case ParseEditDistance =>
      if l.str == "" || !AllDigits(l.str) then Stepped(At(l), cur, false)
      else Following(rest, cur.(distance := UpTo(NumberOf(l))))
    case ParseBoost =>
      if l.str == "" || !AllDigits(l.str) then Stepped(At(l), cur, false)
      else Following(rest, cur.(boost := Given(NumberOf(l))))
    case _ => Stepped(st, cur, false)
  }

  function Then(cs: seq<Clause>, o: Outcome): Outcome {
    if o.Parsed? then Parsed(cs + o.clauses) else o
  }

  /** All steps from a state on. */
  function Read(env: Setting, st: State, ls: seq<Lexeme>, cur: Partial): Outcome
    requires Lexed(ls)
    decreases |ls|
  {
    if st.Failed? then Error(st.start, st.end)
    else if ls == [] || st.Done? then Parsed([])
    else
      var s := Step(env, st, ls, cur);
      if s.finished then Then([Completed(s.clause, env.allFields)], Read(env, s.state, ls[1..], NOTHING))
      else Read(env, s.state, ls[1..], s.clause)
  }

  /** The clauses handed over so far, and those of the remaining steps. */
  lemma ReadStep(env: Setting, st: State, ls: seq<Lexeme>, cur: Partial, cs: seq<Clause>)
    requires Lexed(ls)
    ensures st.Done? ==> Then(cs, Read(env, st, ls, cur)) == Parsed(cs)
    ensures st.Failed? ==> Then(cs, Read(env, st, ls, cur)).Error?
    ensures !st.Done? && !st.Failed? && ls != [] ==>
              var s := Step(env, st, ls, cur);
              Lexed(ls[1..]) &&
              Then(cs, Read(env, st, ls, cur)) ==
              Then(cs + (if s.finished then [Completed(s.clause, env.allFields)] else []),
                   Read(env, s.state, ls[1..], if s.finished then NOTHING else s.clause))
  {
    hide Step, Completed;
  }

  /** Every step leads to a lexeme or to an end. */
  lemma StepLeadsOn(env: Setting, st: State, ls: seq<Lexeme>, cur: Partial)
    requires ls != [] && Lexed(ls) && !st.ParseClause? && !st.Done? && !st.Failed?
    ensures var next := Step(env, st, ls, cur).state;
            !next.ParseClause? && (|ls| == 1 ==> next.Done? || next.Failed?)
  {
  }

  // ---------------------------------------------------------------- grammatical lexemes are parsed

  function Modified(cur: Partial, ms: seq<Lexeme>): Partial
    requires forall m :: m in ms ==> IsModifier(m)
    decreases |ms|
  {
    if ms == [] then cur else
      assert ms[0] in ms && IsModifier(ms[0]) && AllDigits(ms[0].str);
      var n := NumberOf(ms[0]);
      Modified(if ms[0].kind.BOOST? then cur.(boost := Given(n)) else cur.(distance := UpTo(n)), ms[1..])
  }

  lemma {:induction false} ModifiedIsLast(cur: Partial, ms: seq<Lexeme>)
    requires forall m :: m in ms ==> IsModifier(m)
    ensures var n := LastOf(BOOST, ms); var d := LastOf(EDIT_DISTANCE, ms);
            Modified(cur, ms) == cur.(boost := if n.Given? then n else cur.boost,
                                      distance := if d.Given? then UpTo(d.value) else cur.distance)
    decreases |ms|
  {
    if ms != [] {
      assert ms[0] in ms && IsModifier(ms[0]) && AllDigits(ms[0].str);
      var n := NumberOf(ms[0]);
      ModifiedIsLast(if ms[0].kind.BOOST? then cur.(boost := Given(n)) else cur.(distance := UpTo(n)), ms[1..]);
      LastOfRest(BOOST, ms);
      LastOfRest(EDIT_DISTANCE, ms);
    }
  }

  lemma {:induction false} LastOfRest(kind: Kind, ms: seq<Lexeme>)
    requires ms != [] && forall m :: m in ms ==> IsModifier(m)
    ensures ms[0] in ms
    ensures LastOf(kind, ms) ==
            if LastOf(kind, ms[1..]).Given? then LastOf(kind, ms[1..])
            else if ms[0].kind == kind then Given(NumberOf(ms[0])) else Absent
    decreases |ms|
  {
    if |ms| > 1 {
      var init := ms[..|ms| - 1];
      LastOfRest(kind, init);
      assert ms[1..][..|ms| - 2] == init[1..];
    }
  }

  /** The clause in the making before the term of a group. */
  function Begun(g: Group): Partial {
    NOTHING.(presence := if g.presence == [] then Absent
                         else Given(if g.presence[0].str == "-" then Prohibited else Required),
             fields := if g.field == [] then Absent else Given([g.field[0].str]))
  }

  function WithTerm(env: Setting, cur: Partial, l: Lexeme): Partial {
    cur.(term := env.lower(l.str), usePipeline := if '*' in l.str then Given(false) else cur.usePipeline)
  }

  lemma GroupIsCompleted(env: Setting, g: Group)
    requires Grammatical(env.allFields, g)
    ensures Completed(Modified(WithTerm(env, Begun(g), g.term), g.modifiers), env.allFields) == ClauseOf(env, g)
  {
    ModifiedIsLast(WithTerm(env, Begun(g), g.term), g.modifiers);
  }

  /** What is read once a term and possibly some modifiers are in the clause. */
  function After(env: Setting, ls: seq<Lexeme>, cur: Partial): Outcome
    requires Lexed(ls)
  {
    var s := Following(ls, cur);
    if s.finished then Then([Completed(cur, env.allFields)], Read(env, s.state, ls, NOTHING))
    else Read(env, s.state, ls, cur)
  }

  lemma ReadsTerm(env: Setting, ls: seq<Lexeme>, cur: Partial)
    requires ls != [] && Lexed(ls)
    ensures Lexed(ls[1..]) && Read(env, ParseTerm, ls, cur) == After(env, ls[1..], WithTerm(env, cur, ls[0]))
  {
  }

  lemma ReadsModifier(env: Setting, ls: seq<Lexeme>, cur: Partial)
    requires ls != [] && Lexed(ls) && (ls[0].kind.EDIT_DISTANCE? || ls[0].kind.BOOST?)
    ensures Lexed(ls[1..])
    ensures ls[0].str == "" ==> After(env, ls, cur).Error?
    ensures ls[0].str != "" ==> IsModifier(ls[0]) && After(env, ls, cur) == After(env, ls[1..], Modified(cur, ls[..1]))
  {
    assert ls[0] in ls && ls[..1][0] == ls[0] && ls[..1][1..] == [];
    assert Read(env, At(ls[0]), ls[1..], cur).Error?;
  }

  lemma {:induction false} AfterModifiers(env: Setting, ms: seq<Lexeme>, rest: seq<Lexeme>, cur: Partial)
    requires (forall m :: m in ms ==> IsModifier(m)) && Lexed(ms + rest)
    ensures Lexed(rest) && After(env, ms + rest, cur) == After(env, rest, Modified(cur, ms))
    decreases |ms|
  {
    if ms == [] {
      assert ms + rest == rest;
    } else {
      assert ms[0] in ms && IsModifier(ms[0]);
      hide After, Following;
      ReadsModifier(env, ms + rest, cur);
      assert (ms + rest)[1..] == ms[1..] + rest && (ms + rest)[..1] == ms[..1] && ms[..1][1..] == [];
      AfterModifiers(env, ms[1..], rest, Modified(cur, ms[..1]));
    }
  }

  /** Up to its modifiers, a group is read as it is spelled. */
  lemma ReadsHead(env: Setting, g: Group, rest: seq<Lexeme>)
    requires Grammatical(env.allFields, g) && Lexed(Spelled(g) + rest)
    ensures Lexed(g.modifiers + rest)
    ensures Read(env, First(Spelled(g) + rest), Spelled(g) + rest, NOTHING) ==
            After(env, g.modifiers + rest, WithTerm(env, Begun(g), g.term))
  {
    hide After, Following, Read, Spelled;
    var c := [g.term] + (g.modifiers + rest);
    var b, a := g.field + c, g.presence + (g.field + c);
    SpelledThen(g, rest);
    assert Spelled(g) + rest == a && c[1..] == g.modifiers + rest;
    assert Lexed(b) && Lexed(c) by {
      assert forall l :: l in c ==> l in a;
      assert forall l :: l in b ==> l in a;
    }
    ReadsTerm(env, c, Begun(g));
    ReadsFieldFirst(env, g, c);
    ReadsPresenceFirst(env, g, b);
  }

  lemma ReadsFieldFirst(env: Setting, g: Group, c: seq<Lexeme>)
    requires Grammatical(env.allFields, g) && Lexed(g.field + c) && Lexed(c) && c != [] && c[0].kind.TERM?
    ensures var b, p := g.field + c, NOTHING.(presence := Begun(g).presence);
            Read(env, First(b), b, p) == Read(env, ParseTerm, c, Begun(g))
  {
    var b := g.field + c;
    if g.field == [] { assert b == c; } else { assert b[1..] == c; }
  }

  lemma ReadsPresenceFirst(env: Setting, g: Group, b: seq<Lexeme>)
    requires Grammatical(env.allFields, g) && Lexed(g.presence + b) && Lexed(b) && b != []
               && (b[0].kind.TERM? || b[0].kind.FIELD?)
    ensures var a, p := g.presence + b, NOTHING.(presence := Begun(g).presence);
            Read(env, First(a), a, NOTHING) == Read(env, First(b), b, p)
  {
    var a := g.presence + b;
    if g.presence == [] { assert a == b; } else { assert a[1..] == b; }
  }

  /** Grammatical lexemes are parsed into the clauses their groups stand for. */
  lemma {:induction false} ReadsGroups(env: Setting, gs: seq<Group>)
    requires AllGrammatical(env.allFields, gs) && Lexed(Flat(gs))
    ensures Read(env, First(Flat(gs)), Flat(gs), NOTHING) == Parsed(ClausesOf(env, gs))
  {
    if gs != [] {
      var g, rest := gs[0], Flat(gs[1..]);
      assert g in gs;
      ReadsHead(env, g, rest);
      AfterModifiers(env, g.modifiers, rest, WithTerm(env, Begun(g), g.term));
      GroupIsCompleted(env, g);
      ReadsGroups(env, gs[1..]);
      GroupsBegin(env.allFields, gs[1..]);
      hide Read, Completed, ClauseOf;
    }
  }

  lemma GroupsBegin(allFields: seq<string>, gs: seq<Group>)
    requires AllGrammatical(allFields, gs)
    ensures var ls := Flat(gs); ls != [] ==> ls[0].kind.PRESENCE? || ls[0].kind.FIELD? || ls[0].kind.TERM?
  {
    if gs != [] { assert gs[0] in gs; }
  }

  // ---------------------------------------------------------------- nothing else is parsed

  lemma {:induction false} AfterParsed(env: Setting, ls: seq<Lexeme>, cur: Partial)
    returns (ms: seq<Lexeme>, gs: seq<Group>)
    requires Lexed(ls) && After(env, ls, cur).Parsed?
    ensures (forall m :: m in ms ==> IsModifier(m)) && AllGrammatical(env.allFields, gs) && ls == ms + Flat(gs)
    decreases |ls|, 1
  {
    hide Modified;
    if ls == [] {
      ms, gs := [], [];
    } else if ls[0].kind.EDIT_DISTANCE? || ls[0].kind.BOOST? {
      ReadsModifier(env, ls, cur);
      ms, gs := AfterParsed(env, ls[1..], Modified(cur, ls[..1]));
      ms := [ls[0]] + ms;
    } else {
      gs := HeadParsed(env, ls);
      ms := [];
    }
  }

  lemma {:induction false} HeadParsed(env: Setting, ls: seq<Lexeme>) returns (gs: seq<Group>)
    requires Lexed(ls) && Read(env, First(ls), ls, NOTHING).Parsed?
    ensures AllGrammatical(env.allFields, gs) && ls == Flat(gs)
    decreases |ls|, 0
  {
    hide After, Following, Flat, Spelled, Read, First, Lexed, AllGrammatical, IsModifier, IsPresence, IsField;
    if ls == [] {
      gs := [];
      NoneGrammatical(env.allFields);
      FlatOf(gs);
    } else {
      var k := if ls[0].kind.PRESENCE? then 1 else 0;
      var p := PresenceParsed(env, ls);
      var t, cur := FieldParsed(env, ls[k..], p);
      var c := ls[k..][t..];
      ReadsTerm(env, c, cur);
      var ms, rest := AfterParsed(env, c[1..], WithTerm(env, cur, c[0]));
      var g := Group(ls[..k], ls[k..][..t], c[0], ms);
      Grouped(env.allFields, g, rest);
      gs := [g] + rest;
      FlatOf(gs);
      assert gs[1..] == rest;
      SpelledThen(g, Flat(rest));
      Reassembled(ls, k, t);
    }
  }

  lemma NoneGrammatical(allFields: seq<string>)
    ensures AllGrammatical(allFields, [])
  {
  }

  lemma Grouped(allFields: seq<string>, g: Group, rest: seq<Group>)
    requires Grammatical(allFields, g) && AllGrammatical(allFields, rest)
    ensures AllGrammatical(allFields, [g] + rest)
  {
  }

  lemma Reassembled(ls: seq<Lexeme>, k: nat, t: nat)
    requires k + t < |ls|
    ensures var c := ls[k..][t..]; ls == ls[..k] + (ls[k..][..t] + ([c[0]] + c[1..]))
  {
  }

  lemma SpelledThen(g: Group, rest: seq<Lexeme>)
    ensures Spelled(g) + rest == g.presence + (g.field + ([g.term] + (g.modifiers + rest)))
  {
  }

  lemma FlatOf(gs: seq<Group>)
    ensures Flat(gs) == if gs == [] then [] else Spelled(gs[0]) + Flat(gs[1..])
  {
  }

  lemma PresenceParsed(env: Setting, ls: seq<Lexeme>) returns (p: Partial)
    requires ls != [] && Lexed(ls) && Read(env, First(ls), ls, NOTHING).Parsed?
    ensures var k := if ls[0].kind.PRESENCE? then 1 else 0;
            && (k == 1 ==> IsPresence(ls[0]) && |ls| > 1)
            && Lexed(ls[k..]) && (ls[k].kind.FIELD? || ls[k].kind.TERM?)
            && Read(env, First(ls[k..]), ls[k..], p).Parsed?
  {
    p := if ls[0].kind.PRESENCE? then Step(env, ParsePresence, ls, NOTHING).clause else NOTHING;
    assert ls[0..] == ls;
    if ls[0].kind.PRESENCE? {
      assert Read(env, First(ls), ls, NOTHING) == Read(env, Step(env, ParsePresence, ls, NOTHING).state, ls[1..], p);
    }
  }

  lemma FieldParsed(env: Setting, ls: seq<Lexeme>, p: Partial) returns (t: nat, cur: Partial)
    requires ls != [] && Lexed(ls) && (ls[0].kind.FIELD? || ls[0].kind.TERM?) && Read(env, First(ls), ls, p).Parsed?
    ensures t == (if ls[0].kind.FIELD? then 1 else 0) && (t == 1 ==> IsField(env.allFields, ls[0]) && |ls| > 1)
    ensures Lexed(ls[t..]) && ls[t].kind.TERM? && Read(env, ParseTerm, ls[t..], cur).Parsed?
  {
    t := if ls[0].kind.FIELD? then 1 else 0;
    cur := if ls[0].kind.FIELD? then Step(env, ParseField, ls, p).clause else p;
    assert ls[0..] == ls;
    if ls[0].kind.FIELD? {
      assert Read(env, First(ls), ls, p) == Read(env, Step(env, ParseField, ls, p).state, ls[1..], cur);
    }
  }

  ghost predicate Spells(env: Setting, gs: seq<Group>, ls: seq<Lexeme>) {
    AllGrammatical(env.allFields, gs) && Flat(gs) == ls
  }

  /** Lexemes are parsed exactly if they are groups one after the other, and then into the clauses of
      the groups, in order. */
  lemma ParsedIffGrammatical(env: Setting, ls: seq<Lexeme>)
    requires Lexed(ls)
    ensures var o := Read(env, First(ls), ls, NOTHING);
            && (o.Parsed? <==> exists gs :: Spells(env, gs, ls))
            && forall gs :: Spells(env, gs, ls) ==> o == Parsed(ClausesOf(env, gs))
  {
    var o := Read(env, First(ls), ls, NOTHING);
    if o.Parsed? {
      var gs := HeadParsed(env, ls);
      assert Spells(env, gs, ls);
    }
    forall gs | Spells(env, gs, ls) ensures o == Parsed(ClausesOf(env, gs)) {
      ReadsGroups(env, gs);
    }
  }

  /** A parsed clause names all fields of the index or one of them. */
  lemma {:induction false} ClausesNameFields(env: Setting, gs: seq<Group>)
    requires AllGrammatical(env.allFields, gs)
    ensures forall c :: c in ClausesOf(env, gs) ==>
              c.fields == env.allFields || exists f :: f in env.allFields && c.fields == [f]
  {
    if gs != [] {
      assert gs[0] in gs;
      ClausesNameFields(env, gs[1..]);
    }
  }

  /** Any non-empty term can be asked for by escaping it. */
  lemma EscapedTermIsParsed(env: Setting, separator: char -> bool, t: string)
    requires t != ""
    ensures var ls := Lexemes(separator, Escaped(t), 0);
            && Lexed(ls)
            && Read(env, First(ls), ls, NOTHING) ==
                 Parsed([Clause(env.lower(t), env.allFields, 1, Exactly, '*' !in t, Optional)])
  {
    var l := Lexeme(TERM, t, 0, |Escaped(t)|);
    EscapingWorks(separator, t);
    var g := Group([], [], l, []);
    assert Spelled(g) == [l] && Flat([]) == [] && Flat([g]) == [l];
    ReadsGroups(env, [g]);
    assert ClausesOf(env, [g]) == [ClauseOf(env, g)];
  }

  // ---------------------------------------------------------------- the machine

  class Parser {
    const lower: string -> string
    const lexer: Lexer
    const query: Query
    var currentClause: Partial
    var lexemeIdx: nat
    var lexemes: seq<Lexeme>

    constructor (str: string, separator: char -> bool, lower: string -> string, query: Query)
      ensures this.query == query && this.lower == lower && currentClause == NOTHING && lexemeIdx == 0
      ensures fresh(lexer) && lexer.str == str && lexer.separator == separator
      ensures lexer.lexemes == [] && lexer.pos == 0 && lexer.start == 0 && lexer.escapeCharPositions == []
    {
      lexer := new Lexer(str, separator);
      this.lower, this.query, currentClause, lexemeIdx, lexemes := lower, query, NOTHING, 0, [];
    }

    function Env(): Setting { Setting(query.allFields, lower) }

    /** There is a lexeme to consume. */
    ghost predicate Valid()
      reads this
    {
      lexemeIdx < |lexemes| && Lexed(lexemes)
    }

    /** What a state method does: the step on the remaining lexemes. */
    twostate predicate Steps(st: State, next: State)
      reads this, query
      requires old(Valid())
    {
      var s := Step(Env(), st, old(lexemes[lexemeIdx..]), old(currentClause));
      && next == s.state && lexemes == old(lexemes) && lexemeIdx == old(lexemeIdx) + 1
      && currentClause == (if s.finished then NOTHING else s.clause)
      && query.clauses == old(query.clauses) + (if s.finished then [Completed(s.clause, query.allFields)] else [])
    }

    method ConsumeLexeme() returns (l: Lexeme)
      requires Valid()
      modifies this`lexemeIdx
      ensures l == lexemes[old(lexemeIdx)] && lexemeIdx == old(lexemeIdx) + 1
    {
      l := lexemes[lexemeIdx];
      lexemeIdx := lexemeIdx + 1;
    }

    method NextClause()
      modifies this`currentClause, query`clauses
      ensures currentClause == NOTHING
                && query.clauses == old(query.clauses) + [Completed(old(currentClause), query.allFields)]
    {
      var completedClause := currentClause;
      query.Add(completedClause);
      currentClause := NOTHING;
    }

    /** Where parseTerm, parseEditDistance and parseBoost go on. */
    method GoOn() returns (next: State)
      requires lexemeIdx <= |lexemes|
      modifies this`currentClause, query`clauses
      ensures var s := Following(lexemes[lexemeIdx..], old(currentClause));
              && next == s.state && currentClause == (if s.finished then NOTHING else s.clause)
              && query.clauses ==
                   old(query.clauses) + (if s.finished then [Completed(s.clause, query.allFields)] else [])
    {
      if lexemeIdx == |lexemes| {
        NextClause();
        return Done;
      }
      match lexemes[lexemeIdx].kind
      case TERM =>
        NextClause();
        next := State.ParseTerm;
      case FIELD =>
        NextClause();
        next := State.ParseField;
      case EDIT_DISTANCE =>
        next := State.ParseEditDistance;
      case BOOST =>
        next := State.ParseBoost;
      case PRESENCE =>
        NextClause();
        next := State.ParsePresence;
    }

    method ParseClause() returns (next: State)
      requires lexemeIdx <= |lexemes|
      ensures next == First(lexemes[lexemeIdx..])
    {
      if lexemeIdx == |lexemes| { return Done; }
      var lexeme := lexemes[lexemeIdx];
      match lexeme.kind
      case PRESENCE => next := State.ParsePresence;
      case FIELD => next := State.ParseField;
      case TERM => next := State.ParseTerm;
      case _ => next := Failed(lexeme.start, lexeme.end);
    }

    method ParsePresence() returns (next: State)
      requires Valid()
      modifies this`lexemeIdx, this`currentClause
      ensures Steps(State.ParsePresence, next)
    {
      var lexeme := ConsumeLexeme();
      match lexeme.str {
        case "-" => currentClause := currentClause.(presence := Given(Prohibited));
        case "+" => currentClause := currentClause.(presence := Given(Required));
        case _ => return Failed(lexeme.start, lexeme.end);
      }
      if lexemeIdx == |lexemes| { return Failed(lexeme.start, lexeme.end); }
      var nextLexeme := lexemes[lexemeIdx];
      match nextLexeme.kind
      case FIELD => next := State.ParseField;
      case TERM => next := State.ParseTerm;
      case _ => next := Failed(nextLexeme.start, nextLexeme.end);
    }

    method ParseField() returns (next: State)
      requires Valid()
      modifies this`lexemeIdx, this`currentClause
      ensures Steps(State.ParseField, next)
    {
      var lexeme := ConsumeLexeme();
      if lexeme.str !in query.allFields { return Failed(lexeme.start, lexeme.end); }
      currentClause := currentClause.(fields := Given([lexeme.str]));
      if lexemeIdx == |lexemes| { return Failed(lexeme.start, lexeme.end); }
      var nextLexeme := lexemes[lexemeIdx];
      match nextLexeme.kind
      case TERM => next := State.ParseTerm;
      case _ => next := Failed(nextLexeme.start, nextLexeme.end);
    }

    method ParseTerm() returns (next: State)
      requires Valid()
      modifies this`lexemeIdx, this`currentClause, query`clauses
      ensures Steps(State.ParseTerm, next)
    {
      var lexeme := ConsumeLexeme();
      currentClause := currentClause.(term := lower(lexeme.str));
      if '*' in lexeme.str { currentClause := currentClause.(usePipeline := Given(false)); }
      next := GoOn();
    }

    method ParseEditDistance() returns (next: State)
      requires Valid()
      modifies this`lexemeIdx, this`currentClause, query`clauses
      ensures Steps(State.ParseEditDistance, next)
    {
      var lexeme := ConsumeLexeme();
      if lexeme.str == "" || !AllDigits(lexeme.str) { return Failed(lexeme.start, lexeme.end); }
      currentClause := currentClause.(distance := UpTo(NumberOf(lexeme)));
      next := GoOn();
    }

    method ParseBoost() returns (next: State)
      requires Valid()
      modifies this`lexemeIdx, this`currentClause, query`clauses
      ensures Steps(State.ParseBoost, next)
    {
      var lexeme := ConsumeLexeme();
      if lexeme.str == "" || !AllDigits(lexeme.str) { return Failed(lexeme.start, lexeme.end); }
      currentClause := currentClause.(boost := Given(NumberOf(lexeme)));
      next := GoOn();
    }

    method Dispatch(state: State) returns (next: State)
      requires Valid() && !state.ParseClause? && !state.Done? && !state.Failed?
      modifies this`lexemeIdx, this`currentClause, query`clauses
      ensures Steps(state, next)
    {
      match state
      case ParsePresence => next := ParsePresence();
      case ParseField => next := ParseField();
      case ParseTerm => next := ParseTerm();
      case ParseEditDistance => next := ParseEditDistance();
      case ParseBoost => next := ParseBoost();
    }

    /** The string is parsed exactly if its lexemes are groups one after the other; the query has
        then got the clauses of the groups, in order. */
    method Parse() returns (outcome: State)
      requires currentClause == NOTHING && lexemeIdx == 0 && query.clauses == []
      requires lexer.lexemes == [] && lexer.pos == 0 && lexer.start == 0 && lexer.escapeCharPositions == []
      modifies this, lexer, query
      ensures outcome.Done? || outcome.Failed?
      ensures var ls := Lexemes(lexer.separator, lexer.str, 0);
              && (outcome.Done? <==> exists gs :: Spells(Env(), gs, ls))
              && (forall gs :: Spells(Env(), gs, ls) ==> query.clauses == ClausesOf(Env(), gs))
              && Lexed(ls)
              && (outcome.Failed? ==> Read(Env(), First(ls), ls, NOTHING) == Error(outcome.start, outcome.end))
    {
      hide Lexemes, Spells, ClausesOf, Following, Completed, Step, Read, Then, Lexed;
      lexer.Run();
      lexemes := lexer.lexemes;
      LexerLexed(lexer.separator, lexer.str);
      assert lexemes[0..] == lexemes;
      ghost var result := Read(Env(), First(lexemes), lexemes, NOTHING);
      ParsedIffGrammatical(Env(), lexemes);
      var state := ParseClause();
      NothingHandedOver(result);
      while state != Done && !state.Failed?
        invariant lexemeIdx <= |lexemes| && Lexed(lexemes) && Lexed(lexemes[lexemeIdx..])
        invariant lexemeIdx == |lexemes| ==> state.Done? || state.Failed?
        invariant !state.ParseClause?
        invariant result == Then(query.clauses, Read(Env(), state, lexemes[lexemeIdx..], currentClause))
        decreases |lexemes| - lexemeIdx
      {
        assert lexemes[lexemeIdx..][1..] == lexemes[lexemeIdx + 1..];
        ReadStep(Env(), state, lexemes[lexemeIdx..], currentClause, query.clauses);
        StepLeadsOn(Env(), state, lexemes[lexemeIdx..], currentClause);
        state := Dispatch(state);
      }
      ReadStep(Env(), state, lexemes[lexemeIdx..], currentClause, query.clauses);
      if state.Failed? { ReadFailed(Env(), state, lexemes[lexemeIdx..], currentClause, query.clauses); }
      outcome := state;
    }
  }

  lemma ReadFailed(env: Setting, st: State, ls: seq<Lexeme>, cur: Partial, cs: seq<Clause>)
    requires Lexed(ls) && st.Failed?
    ensures Then(cs, Read(env, st, ls, cur)) == Error(st.start, st.end)
  {
  }

  lemma NothingHandedOver(o: Outcome)
    ensures Then([], o) == o
  {
  }

  lemma LexerLexed(separator: char -> bool, str: string)
    ensures Lexed(Lexemes(separator, str, 0))
  {
    LexemesAreShaped(separator, str, 0);
  }
}
