/** Query strings for given clauses: writing a query and parsing it gives the clauses back. */
module QueryText {
  import opened QueryMeaning
  import opened QueryLexer
  import opened QueryParser
  import NodeKey

  /** What one clause of a query asks for. */
  datatype Wish = Wish(presence: Presence, field: Given<string>, term: string, edits: Given<nat>, boost: Given<nat>)

  function Sign(p: Presence): string {
    match p
    case Required => "+"
    case Prohibited => "-"
    case Optional => ""
  }

  function Field(f: Given<string>): string {
    if f.Given? then Escaped(f.value) + ":" else ""
  }

  function Number(sign: char, n: Given<nat>): string {
    if n.Given? then [sign] + NodeKey.Decimal(n.value) else ""
  }

  function Modifiers(wish: Wish): string {
    Number('~', wish.edits) + Number('^', wish.boost)
  }

  /** As in "+title:\f\o\o~1^10". */
  function Written(wish: Wish): string {
    Sign(wish.presence) + Field(wish.field) + Escaped(wish.term) + Modifiers(wish)
  }

  function Text(wishes: seq<Wish>, sp: char): string {
    if wishes == [] then ""
    else if |wishes| == 1 then Written(wishes[0])
    else Written(wishes[0]) + [sp] + Text(wishes[1..], sp)
  }

  /** The clause that is meant. */
  function Meant(env: Setting, wish: Wish): Clause {
    Clause(env.lower(wish.term),
           if wish.field.Given? then [wish.field.value] else env.allFields,
           if wish.boost.Given? then wish.boost.value else 1,
           if wish.edits.Given? then UpTo(wish.edits.value) else Exactly,
           '*' !in wish.term,
           wish.presence)
  }

  predicate Writable(env: Setting, wish: Wish) {
    wish.term != "" && (wish.field.Given? ==> wish.field.value in env.allFields)
  }

  /** A separator that means nothing else. */
  predicate Separates(separator: char -> bool, sp: char) {
    separator(sp) && sp !in {'\\', ':', '~', '^', '+', '-'} && !('0' <= sp <= '9')
  }

  // ---------------------------------------------------------------- numbers

  /** parseInt reads decimal numbers, whatever zeros stand in front. */
  lemma {:induction false} NumberIsRead(zeros: string, n: nat, l: Lexeme)
    requires (forall k :: 0 <= k < |zeros| ==> zeros[k] == '0') && l.str == zeros + NodeKey.Decimal(n)
    ensures AllDigits(l.str) && NumberOf(l) == n
    decreases |zeros|
  {
    NodeKey.ValueOfDecimal(n);
    if zeros == "" {
      assert l.str == NodeKey.Decimal(n);
    } else {
      NumberIsRead(zeros[1..], n, l.(str := zeros[1..] + NodeKey.Decimal(n)));
      assert l.str == "0" + (zeros[1..] + NodeKey.Decimal(n));
      ZeroInFront(zeros[1..] + NodeKey.Decimal(n));
    }
  }

  lemma {:induction false} ZeroInFront(d: NodeKey.Digits)
    ensures forall k :: 0 <= k < |"0" + d| ==> NodeKey.IsDigit(("0" + d)[k])
    ensures var e: NodeKey.Digits := "0" + d; NodeKey.Value(e) == NodeKey.Value(d)
    decreases |d|
  {
    var e: NodeKey.Digits := "0" + d;
    if d == "" {
      assert e == "0" && e[..0] == "";
    } else {
      ZeroInFront(d[..|d| - 1]);
      assert e[..|e| - 1] == "0" + d[..|d| - 1] && e[|e| - 1] == d[|d| - 1];
    }
  }

  // ---------------------------------------------------------------- the pieces of a string

  /** t stands at position i of s. */
  predicate Stands(s: string, i: nat, t: string) {
    i + |t| <= |s| && s[i..i + |t|] == t
  }

  lemma StandsApart(s: string, i: nat, t: string, u: string)
    ensures Stands(s, i, t + u) <==> Stands(s, i, t) && Stands(s, i + |t|, u)
  {
    if i + |t| + |u| <= |s| {
      var x := s[i..i + |t| + |u|];
      assert x[..|t|] == s[i..i + |t|] && x[|t|..] == s[i + |t|..i + |t| + |u|];
      assert (t + u)[..|t|] == t && (t + u)[|t|..] == u;
    }
  }

  lemma {:induction false} EscapedEnds(separator: char -> bool, s: string, i: nat, t: string)
    requires Stands(s, i, Escaped(t))
    ensures TextEnd(separator, s, i) == TextEnd(separator, s, i + |Escaped(t)|)
    decreases |t|
  {
    hide TextEnd;
    if t != "" {
      StandsApart(s, i, [ESCAPE, t[0]], Escaped(t[1..]));
      EscapedEnds(separator, s, i + 2, t[1..]);
      assert s[i] == s[i..i + 2][0] == ESCAPE;
      TextEndAt(separator, s, i);
    }
  }

  lemma {:induction false} EscapedReads(t: string)
    ensures Unescaped(Escaped(t)) == t && (t != "" ==> Escaped(t) != "" && Escaped(t)[0] == '\\')
    decreases |t|
  {
    if t != "" {
      EscapedReads(t[1..]);
      assert Escaped(t)[2..] == Escaped(t[1..]);
    }
  }

  lemma {:induction false} DigitsEnd(s: string, i: nat, d: NodeKey.Digits)
    requires Stands(s, i, d) && (i + |d| < |s| ==> !NodeKey.IsDigit(s[i + |d|]))
    ensures DigitEnd(s, i) == i + |d|
    decreases |d|
  {
    if d != "" {
      assert d == d[..1] + d[1..] && s[i] == s[i..i + |d|][0];
      StandsApart(s, i, d[..1], d[1..]);
      DigitsEnd(s, i + 1, d[1..]);
    }
  }

  lemma SignIsLexed(separator: char -> bool, s: string, i: nat, p: Presence) returns (signs: seq<Lexeme>)
    requires Stands(s, i, Sign(p))
    ensures Lexemes(separator, s, i) == signs + Lexemes(separator, s, i + |Sign(p)|)
    ensures p.Optional? ==> signs == []
    ensures !p.Optional? ==> |signs| == 1 && signs[0].kind.PRESENCE? && signs[0].str == Sign(p)
  {
    hide Lexemes, Unescaped;
    signs := [];
    if !p.Optional? {
      assert s[i] == s[i..i + 1][0];
      LexemesOfPresence(separator, s, i);
      UnescapedPlain(Sign(p));
      signs := [Cut(PRESENCE, s, i, i + 1)];
    }
  }

  lemma FieldIsLexed(separator: char -> bool, s: string, i: nat, f: string) returns (l: Lexeme)
    requires Stands(s, i, Escaped(f) + ":")
    ensures Lexemes(separator, s, i) == [l] + Lexemes(separator, s, i + |Escaped(f)| + 1)
    ensures l.kind.FIELD? && l.str == f
  {
    hide Lexemes, Unescaped, TextEnd, Escaped;
    var e := i + |Escaped(f)|;
    StandsApart(s, i, Escaped(f), ":");
    EscapedEnds(separator, s, i, f);
    EscapedReads(f);
    NothingEscaped();
    assert s[e] == s[e..e + 1][0] && (f != "" ==> s[i] == s[i..e][0]);
    TextEndAt(separator, s, e);
    LexemesOfText(separator, s, i, e);
    l := Cut(FIELD, s, i, e);
  }

  lemma NothingEscaped()
    ensures Escaped("") == ""
  {
  }

  /** What follows a text that ends at e without naming a field. */
  function Behind(separator: char -> bool, s: string, e: nat): seq<Lexeme> {
    if e >= |s| then []
    else if s[e] == '~' || s[e] == '^' then LexemesOfNumber(separator, s, e)
    else Lexemes(separator, s, e + 1)
  }

  /** The string ends at e, or goes on with a modifier or a separator. */
  predicate Breaks(separator: char -> bool, s: string, e: nat) {
    e < |s| ==> s[e] !in {':', '+', '-'} && Ends(separator, s[e]) && !NodeKey.IsDigit(s[e])
  }

  lemma TermIsLexed(separator: char -> bool, s: string, i: nat, t: string) returns (l: Lexeme)
    requires t != "" && Stands(s, i, Escaped(t)) && Breaks(separator, s, i + |Escaped(t)|)
    ensures Lexemes(separator, s, i) == [l] + Behind(separator, s, i + |Escaped(t)|)
    ensures l.kind.TERM? && l.str == t
  {
    hide Lexemes, Unescaped, TextEnd, LexemesOfNumber, Escaped;
    var e := i + |Escaped(t)|;
    EscapedEnds(separator, s, i, t);
    EscapedReads(t);
    assert s[i] == s[i..e][0];
    TextEndAt(separator, s, e);
    LexemesOfText(separator, s, i, e);
    l := Cut(TERM, s, i, e);
  }

  /** Right behind another lexeme, a modifier sign or a separator begins no term. */
  lemma NothingPending(separator: char -> bool, s: string, e: nat)
    requires Breaks(separator, s, e)
    ensures Lexemes(separator, s, e) == Behind(separator, s, e)
  {
    hide Lexemes, TextEnd, LexemesOfNumber;
    LexemesAtEnd(separator, s, e);
    if e < |s| {
      TextEndAt(separator, s, e);
      LexemesOfText(separator, s, e, e);
    }
  }

  lemma DigitsAreLexed(separator: char -> bool, s: string, i: nat, sign: char, d: NodeKey.Digits) returns (l: Lexeme)
    requires (sign == '~' || sign == '^') && Stands(s, i, [sign] + d) && Breaks(separator, s, i + 1 + |d|)
    ensures Behind(separator, s, i) == [l] + Behind(separator, s, i + 1 + |d|)
    ensures l.str == d && l.kind == if sign == '~' then EDIT_DISTANCE else BOOST
  {
    hide Lexemes, Unescaped, Ends;
    StandsApart(s, i, [sign], d);
    assert s[i] == s[i..i + 1][0];
    DigitsEnd(s, i + 1, d);
    UnescapedPlain(d);
    NothingPending(separator, s, i + 1 + |d|);
    l := NumberAt(s, i);
  }

  lemma NumberIsLexed(separator: char -> bool, s: string, i: nat, sign: char, n: Given<nat>) returns (ms: seq<Lexeme>)
    requires (sign == '~' || sign == '^') && Stands(s, i, Number(sign, n))
    requires Breaks(separator, s, i + |Number(sign, n)|)
    ensures Behind(separator, s, i) == ms + Behind(separator, s, i + |Number(sign, n)|)
    ensures n.Absent? ==> ms == []
    ensures n.Given? ==> |ms| == 1 && ms[0].str == NodeKey.Decimal(n.value)
                         && ms[0].kind == if sign == '~' then EDIT_DISTANCE else BOOST
  {
    hide Behind, NodeKey.Decimal, Breaks;
    ms := [];
    if n.Given? {
      var l := DigitsAreLexed(separator, s, i, sign, NodeKey.Decimal(n.value));
      ms := [l];
    }
  }

  lemma NumberBreaks(separator: char -> bool, s: string, i: nat, sign: char, n: Given<nat>)
    requires (sign == '~' || sign == '^') && Stands(s, i, Number(sign, n))
    requires Breaks(separator, s, i + |Number(sign, n)|)
    ensures Breaks(separator, s, i)
  {
    hide NodeKey.Decimal;
    if n.Given? { assert s[i] == s[i..i + |Number(sign, n)|][0]; }
  }

  lemma ModifiersAreLexed(separator: char -> bool, s: string, i: nat, wish: Wish) returns (ms: seq<Lexeme>)
    requires Stands(s, i, Modifiers(wish)) && Breaks(separator, s, i + |Modifiers(wish)|)
    ensures Behind(separator, s, i) == ms + Behind(separator, s, i + |Modifiers(wish)|) && Breaks(separator, s, i)
    ensures forall m :: m in ms ==> IsModifier(m)
    ensures LastOf(EDIT_DISTANCE, ms) == wish.edits && LastOf(BOOST, ms) == wish.boost
  {
    hide Behind, Breaks, Number, LastOf;
    var e, b := Number('~', wish.edits), Number('^', wish.boost);
    StandsApart(s, i, e, b);
    NumberBreaks(separator, s, i + |e|, '^', wish.boost);
    NumberBreaks(separator, s, i, '~', wish.edits);
    var es := NumberIsLexed(separator, s, i, '~', wish.edits);
    var bs := NumberIsLexed(separator, s, i + |e|, '^', wish.boost);
    ms := es + bs;
    NumbersAreLast(es, bs, wish);
  }

  lemma NumbersAreLast(es: seq<Lexeme>, bs: seq<Lexeme>, wish: Wish)
    requires wish.edits.Absent? ==> es == []
    requires wish.boost.Absent? ==> bs == []
    requires wish.edits.Given? ==>
               |es| == 1 && es[0].str == NodeKey.Decimal(wish.edits.value) && es[0].kind.EDIT_DISTANCE?
    requires wish.boost.Given? ==> |bs| == 1 && bs[0].str == NodeKey.Decimal(wish.boost.value) && bs[0].kind.BOOST?
    ensures forall m :: m in es + bs ==> IsModifier(m)
    ensures LastOf(EDIT_DISTANCE, es + bs) == wish.edits && LastOf(BOOST, es + bs) == wish.boost
  {
    hide LastOf, IsModifier;
    if wish.edits.Given? { NumberIsModifier(es[0], wish.edits.value); }
    if wish.boost.Given? { NumberIsModifier(bs[0], wish.boost.value); }
    LastOfTwo(es, bs);
  }

  lemma NumberIsModifier(l: Lexeme, n: nat)
    requires l.str == NodeKey.Decimal(n) && (l.kind.EDIT_DISTANCE? || l.kind.BOOST?)
    ensures IsModifier(l) && NumberOf(l) == n
  {
    hide NodeKey.Decimal, NumberOf;
    NumberIsRead("", n, l);
    assert "" + l.str == l.str;
  }

  lemma LastOfTwo(es: seq<Lexeme>, bs: seq<Lexeme>)
    requires |es| <= 1 && |bs| <= 1 && (forall m :: m in es + bs ==> IsModifier(m))
    requires (es != [] ==> es[0].kind.EDIT_DISTANCE?) && (bs != [] ==> bs[0].kind.BOOST?)
    ensures es != [] ==> es[0] in es + bs && LastOf(EDIT_DISTANCE, es + bs) == Given(NumberOf(es[0]))
    ensures es == [] ==> LastOf(EDIT_DISTANCE, es + bs) == Absent
    ensures bs != [] ==> bs[0] in es + bs && LastOf(BOOST, es + bs) == Given(NumberOf(bs[0]))
    ensures bs == [] ==> LastOf(BOOST, es + bs) == Absent
  {
    hide NumberOf;
    assert es + bs == if es == [] then bs else if bs == [] then es else [es[0], bs[0]];
    assert (es + bs)[..|es|] == es && es[..0] == [] && bs[..0] == [];
  }

  // ---------------------------------------------------------------- clauses and queries

  /** One written clause is read as one group, and that as the clause meant. */
  lemma WrittenIsRead(env: Setting, separator: char -> bool, s: string, i: nat, wish: Wish) returns (g: Group)
    requires Writable(env, wish) && Stands(s, i, Written(wish)) && Breaks(separator, s, i + |Written(wish)|)
    ensures Lexemes(separator, s, i) == Spelled(g) + Behind(separator, s, i + |Written(wish)|)
    ensures Grammatical(env.allFields, g) && ClauseOf(env, g) == Meant(env, wish)
  {
    hide Behind, Breaks, Modifiers, Escaped, Lexemes, LastOf;
    var p, f, t, m := Sign(wish.presence), Field(wish.field), Escaped(wish.term), Modifiers(wish);
    StandsApart(s, i, p + f + t, m);
    StandsApart(s, i, p + f, t);
    StandsApart(s, i, p, f);
    var signs := SignIsLexed(separator, s, i, wish.presence);
    var fields := [];
    if wish.field.Given? {
      var l := FieldIsLexed(separator, s, i + |p|, wish.field.value);
      fields := [l];
    }
    var ms := ModifiersAreLexed(separator, s, i + |p + f + t|, wish);
    var l := TermIsLexed(separator, s, i + |p + f|, wish.term);
    g := Group(signs, fields, l, ms);
    SpelledThen(g, Behind(separator, s, i + |Written(wish)|));
  }

  /** Any list of clauses can be asked for: written one behind the other with a separator between
      them, they are what the query string is parsed into. */
  lemma {:induction false} TextIsRead(env: Setting, separator: char -> bool, sp: char, s: string, i: nat,
                                      wishes: seq<Wish>)
    returns (gs: seq<Group>)
    requires Separates(separator, sp) && forall w :: w in wishes ==> Writable(env, w)
    requires i <= |s| && s[i..] == Text(wishes, sp)
    ensures Spells(env, gs, Lexemes(separator, s, i))
    ensures |ClausesOf(env, gs)| == |wishes|
    ensures forall k :: 0 <= k < |wishes| ==> ClausesOf(env, gs)[k] == Meant(env, wishes[k])
    decreases |wishes|
  {
    hide Lexemes, Written, Spelled, ClauseOf, Meant, Grammatical, Text, Stands, Breaks, Behind, Flat;
    NothingFlat();
    if wishes == [] {
      NoText(sp);
      LexemesAtEnd(separator, s, i);
      gs := [];
    } else {
      var e := i + |Written(wishes[0])|;
      assert wishes[0] in wishes;
      TextStarts(separator, sp, s, i, wishes);
      var g := WrittenIsRead(env, separator, s, i, wishes[0]);
      var more := [];
      if |wishes| > 1 { more := TextIsRead(env, separator, sp, s, e + 1, wishes[1..]); }
      gs := [g] + more;
      assert gs[1..] == more;
      Grouped(env.allFields, g, more);
      FlatOf(gs);
    }
  }

  lemma NoText(sp: char)
    ensures Text([], sp) == ""
  {
  }

  /** The first clause of a query string, and what follows it. */
  lemma TextStarts(separator: char -> bool, sp: char, s: string, i: nat, wishes: seq<Wish>)
    requires Separates(separator, sp) && wishes != [] && i <= |s| && s[i..] == Text(wishes, sp)
    ensures var e := i + |Written(wishes[0])|;
            && Stands(s, i, Written(wishes[0])) && Breaks(separator, s, e)
            && (|wishes| == 1 ==> Behind(separator, s, e) == [])
            && (|wishes| > 1 ==> e < |s| && s[e + 1..] == Text(wishes[1..], sp)
                                 && Behind(separator, s, e) == Lexemes(separator, s, e + 1))
  {
    hide Lexemes, Written, LexemesOfNumber, Text, Stands, Ends;
    var w, e := Written(wishes[0]), i + |Written(wishes[0])|;
    if |wishes| == 1 {
      LastText(sp, wishes);
      Halves(s, i, w, "");
    } else {
      FirstText(sp, wishes);
      Halves(s, i, w, [sp] + Text(wishes[1..], sp));
      assert s[e] == s[e..][0] == sp;
      assert s[e..][1..] == s[e + 1..] && ([sp] + Text(wishes[1..], sp))[1..] == Text(wishes[1..], sp);
      SeparatorBreaks(separator, sp, s, e);
    }
  }

  lemma SeparatorBreaks(separator: char -> bool, sp: char, s: string, e: nat)
    requires Separates(separator, sp) && e < |s| && s[e] == sp
    ensures Breaks(separator, s, e) && Behind(separator, s, e) == Lexemes(separator, s, e + 1)
  {
    hide Lexemes, LexemesOfNumber;
  }

  lemma Halves(s: string, i: nat, w: string, rest: string)
    requires i <= |s| && s[i..] == w + rest
    ensures Stands(s, i, w) && i + |w| + |rest| == |s| && s[i + |w|..] == rest
  {
    assert s[i..][..|w|] == w && s[i..][|w|..] == rest;
  }

  lemma LastText(sp: char, wishes: seq<Wish>)
    requires |wishes| == 1
    ensures Text(wishes, sp) == Written(wishes[0]) + ""
  {
    hide Written;
  }

  lemma FirstText(sp: char, wishes: seq<Wish>)
    requires |wishes| > 1
    ensures Text(wishes, sp) == Written(wishes[0]) + ([sp] + Text(wishes[1..], sp))
  {
    hide Written;
  }

  lemma NothingFlat()
    ensures Flat([]) == []
  {
  }

  /** Writing a query and parsing it gives back its clauses. */
  lemma WritingWorks(env: Setting, separator: char -> bool, sp: char, wishes: seq<Wish>)
    requires Separates(separator, sp) && forall w :: w in wishes ==> Writable(env, w)
    ensures var ls := Lexemes(separator, Text(wishes, sp), 0);
            && Lexed(ls)
            && Read(env, First(ls), ls, NOTHING) ==
                 Parsed(seq(|wishes|, k requires 0 <= k < |wishes| => Meant(env, wishes[k])))
  {
    hide Lexemes, Meant, Read, Text, ClausesOf;
    var s := Text(wishes, sp);
    assert s[0..] == s;
    LexerLexed(separator, s);
    var gs := TextIsRead(env, separator, sp, s, 0, wishes);
    ParsedIffGrammatical(env, Lexemes(separator, s, 0));
    assert ClausesOf(env, gs) == seq(|wishes|, k requires 0 <= k < |wishes| => Meant(env, wishes[k]));
  }
}
